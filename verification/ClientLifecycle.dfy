/** AudioClientLifecycle and AudioDeviceLifecycle: how often each client of a device has started I/O. */
module ClientLifecycle {

  const CAPACITY: nat := 64
  const MAX_STARTS: nat := 0xffff_ffff

  datatype Entry = Entry(id: nat, starts: nat)

  const NONE := Entry(0, 0)

  datatype Lifecycle = Lifecycle(entries: seq<Entry>, active: nat)

  /** No client has started. */
  predicate Idle(l: Lifecycle) {
    l.active == 0 && |l.entries| == CAPACITY && forall i | 0 <= i < CAPACITY :: l.entries[i] == NONE
  }

  predicate Matches(e: Entry, id: nat) { e.starts != 0 && e.id == id }

  /** The first entry of a started client, or the number of entries. */
  function Find(entries: seq<Entry>, id: nat): (i: nat)
    ensures i <= |entries| && (i < |entries| ==> Matches(entries[i], id))
    ensures forall j | 0 <= j < i :: !Matches(entries[j], id)
  {
    if entries == [] then 0 else if Matches(entries[0], id) then 0 else 1 + Find(entries[1..], id)
  }

  function Free(entries: seq<Entry>): (i: nat)
    ensures i <= |entries| && (i < |entries| ==> entries[i].starts == 0)
    ensures forall j | 0 <= j < i :: entries[j].starts != 0
  {
    if entries == [] then 0 else if entries[0].starts == 0 then 0 else 1 + Free(entries[1..])
  }

  function StartsOf(l: Lifecycle, id: nat): nat {
    var i := Find(l.entries, id);
    if i < |l.entries| then l.entries[i].starts else 0
  }

  function Start(l: Lifecycle, id: nat): (Lifecycle, bool) {
    var i := Find(l.entries, id);
    if i < |l.entries| then
      if l.entries[i].starts >= MAX_STARTS then (l, false)
      else (Lifecycle(l.entries[i := Entry(id, l.entries[i].starts + 1)], l.active + 1), true)
    else
      var f := Free(l.entries);
      if f == |l.entries| then (l, false) else (Lifecycle(l.entries[f := Entry(id, 1)], l.active + 1), true)
  }

  function Less(a: nat, b: nat): nat { if a >= b then a - b else 0 }

  function Stop(l: Lifecycle, id: nat): (Lifecycle, bool) {
    var i := Find(l.entries, id);
    if i == |l.entries| then (l, false)
    else
      var left := l.entries[i].starts - 1;
      (Lifecycle(l.entries[i := if left == 0 then NONE else Entry(id, left)], Less(l.active, 1)), true)
  }

  function Remove(l: Lifecycle, id: nat): (Lifecycle, bool) {
    var i := Find(l.entries, id);
    if i == |l.entries| then (l, false)
    else (Lifecycle(l.entries[i := NONE], Less(l.active, l.entries[i].starts)), true)
  }

  function Total(entries: seq<Entry>): nat {
    if entries == [] then 0 else entries[0].starts + Total(entries[1..])
  }

  predicate Unique(entries: seq<Entry>) {
    forall i, j | 0 <= i < j < |entries| && entries[i].starts != 0 && entries[j].starts != 0 :: entries[i].id != entries[j].id
  }

  /** Started clients have one entry each and the counter is the sum of their starts. */
  predicate Inv(l: Lifecycle) {
    |l.entries| == CAPACITY && Unique(l.entries) && l.active == Total(l.entries)
  }

  lemma {:induction false} TotalOfUpdate(entries: seq<Entry>, i: nat, e: Entry)
    requires i < |entries|
    ensures Total(entries[i := e]) + entries[i].starts == Total(entries) + e.starts
  {
    if i == 0 {
      assert entries[0 := e][1..] == entries[1..];
    } else {
      TotalOfUpdate(entries[1..], i - 1, e);
      assert entries[i := e][1..] == entries[1..][i - 1 := e];
    }
  }

  /** With one entry per client, its entry is wherever its id is. */
  lemma EntryIsStarts(l: Lifecycle, id: nat, i: nat)
    requires Unique(l.entries) && i < |l.entries| && Matches(l.entries[i], id)
    ensures Find(l.entries, id) == i && StartsOf(l, id) == l.entries[i].starts
  {
  }

  lemma {:induction false} NoTotalNoStarts(entries: seq<Entry>, i: nat)
    requires i < |entries| && entries[i].starts != 0
    ensures Total(entries) >= entries[i].starts
  {
    if i > 0 { NoTotalNoStarts(entries[1..], i - 1); }
  }

  /** The counter is zero exactly when no client has started. */
  lemma {:induction false} ActiveIffSomeoneStarted(entries: seq<Entry>)
    ensures Total(entries) == 0 <==> forall i | 0 <= i < |entries| :: entries[i].starts == 0
  {
    if entries != [] {
      ActiveIffSomeoneStarted(entries[1..]);
      assert forall i | 1 <= i < |entries| :: entries[1..][i - 1] == entries[i];
    }
  }

  /** Putting a client's own entry, or its first one in a free place, changes that client's count and no other. */
  lemma UpdateCounts(l: Lifecycle, i: nat, e: Entry, id: nat, other: nat)
    requires Inv(l) && i < |l.entries| && (e.starts != 0 ==> e.id == id)
    requires Matches(l.entries[i], id) || (l.entries[i].starts == 0 && Find(l.entries, id) == |l.entries|)
    ensures var l' := Lifecycle(l.entries[i := e], Total(l.entries[i := e]));
            Inv(l') && StartsOf(l', other) == if other == id then e.starts else StartsOf(l, other)
  {
    var l' := Lifecycle(l.entries[i := e], Total(l.entries[i := e]));
    var k := Find(l.entries, other);
    assert forall j | 0 <= j < |l.entries| && j != i :: l'.entries[j] == l.entries[j];
    if other == id {
      if e.starts != 0 { EntryIsStarts(l', id, i); }
    } else if k < |l.entries| {
      EntryIsStarts(l', other, k);
    }
  }

  /** A start counts one for that client and is refused only at the limit of the counter or of the table. */
  lemma StartCounts(l: Lifecycle, id: nat, other: nat)
    requires Inv(l)
    ensures var (l', ok) := Start(l, id);
            && Inv(l') && (ok <==> StartsOf(l, id) < 0xffff_ffff && (StartsOf(l, id) > 0 || Free(l.entries) < 64))
            && StartsOf(l', other) == StartsOf(l, other) + (if ok && other == id then 1 else 0)
            && l'.active == l.active + (if ok then 1 else 0)
  {
    var i, f := Find(l.entries, id), Free(l.entries);
    if i < |l.entries| {
      TotalOfUpdate(l.entries, i, Entry(id, l.entries[i].starts + 1));
      UpdateCounts(l, i, Entry(id, l.entries[i].starts + 1), id, other);
    } else if f < |l.entries| {
      TotalOfUpdate(l.entries, f, Entry(id, 1));
      UpdateCounts(l, f, Entry(id, 1), id, other);
    }
  }

  lemma StopCounts(l: Lifecycle, id: nat, other: nat)
    requires Inv(l)
    ensures var (l', ok) := Stop(l, id);
            && Inv(l') && (ok <==> StartsOf(l, id) > 0)
            && StartsOf(l', other) == StartsOf(l, other) - (if ok && other == id then 1 else 0)
            && l'.active == l.active - (if ok then 1 else 0)
  {
    var i := Find(l.entries, id);
    if i < |l.entries| {
      var left := l.entries[i].starts - 1;
      var e := if left == 0 then NONE else Entry(id, left);
      NoTotalNoStarts(l.entries, i);
      TotalOfUpdate(l.entries, i, e);
      UpdateCounts(l, i, e, id, other);
    }
  }

  lemma RemoveCounts(l: Lifecycle, id: nat, other: nat)
    requires Inv(l)
    ensures var (l', ok) := Remove(l, id);
            && Inv(l') && (ok <==> StartsOf(l, id) > 0)
            && StartsOf(l', other) == (if other == id then 0 else StartsOf(l, other))
            && l'.active == l.active - StartsOf(l, id)
  {
    var i := Find(l.entries, id);
    if i < |l.entries| {
      NoTotalNoStarts(l.entries, i);
      TotalOfUpdate(l.entries, i, NONE);
      UpdateCounts(l, i, NONE, id, other);
    }
  }

  lemma IdleInv(l: Lifecycle)
    requires Idle(l)
    ensures Inv(l) && forall id :: StartsOf(l, id) == 0
  {
    ActiveIffSomeoneStarted(l.entries);
  }

  // ------------------------------------------------------------------ the object

  datatype Transition = Rejected | FirstClientStarted | AdditionalClientStarted
                      | ClientStoppedStillActive | LastClientStopped | ClientNotActive

  class Device {
    const clients: array<Entry>
    var activeStarts: nat

    ghost function Abs(): Lifecycle
      reads this, clients
    {
      Lifecycle(clients[..], activeStarts)
    }

    ghost predicate Valid()
      reads this, clients
    {
      Inv(Abs())
    }

    constructor ()
      ensures Valid() && fresh(clients) && Idle(Abs())
    {
      clients := new Entry[CAPACITY](_ => NONE);
      activeStarts := 0;
      new;
      IdleInv(Abs());
    }

    method FindClient(id: nat) returns (i: nat)
      requires clients.Length == CAPACITY
      ensures i == Find(clients[..], id)
    {
      i := 0;
      while i < CAPACITY && (clients[i].starts == 0 || clients[i].id != id)
        invariant i <= CAPACITY && forall j | 0 <= j < i :: !Matches(clients[j], id)
      {
        i := i + 1;
      }
      assert forall j | 0 <= j < i :: !Matches(clients[..][j], id);
    }

    /** The search of `start`: the client's entry, and the first free one met before it. */
    method FindForStart(id: nat) returns (i: nat, free: nat)
      requires clients.Length == CAPACITY
      ensures i == Find(clients[..], id)
      ensures i == CAPACITY ==> free == Free(clients[..])
    {
      i, free := 0, CAPACITY;
      while i < CAPACITY
        invariant i <= CAPACITY && forall j | 0 <= j < i :: !Matches(clients[j], id)
        invariant free == CAPACITY || (free < i && clients[free].starts == 0)
        invariant forall j | 0 <= j < i && j < free :: clients[j].starts != 0
      {
        if clients[i].starts == 0 {
          if free == CAPACITY { free := i; }
        } else if clients[i].id == id {
          break;
        }
        i := i + 1;
      }
      assert forall j | 0 <= j < i :: !Matches(clients[..][j], id);
      assert forall j | 0 <= j < free && j < i :: clients[..][j].starts != 0;
    }

    /** AudioClientLifecycle::start. */
    method StartClient(id: nat) returns (ok: bool)
      requires Valid()
      modifies this, clients
      ensures Valid() && (Abs(), ok) == Start(old(Abs()), id)
    {
      StartCounts(Abs(), id, id);
      var i, free := FindForStart(id);
      if i < CAPACITY {
        if clients[i].starts >= MAX_STARTS { return false; }
        clients[i] := Entry(id, clients[i].starts + 1);
        activeStarts := activeStarts + 1;
        return true;
      }
      if free == CAPACITY { return false; }
      clients[free] := Entry(id, 1);
      activeStarts := activeStarts + 1;
      ok := true;
    }

    method StopClient(id: nat) returns (ok: bool)
      requires Valid()
      modifies this, clients
      ensures Valid() && (Abs(), ok) == Stop(old(Abs()), id)
    {
      StopCounts(Abs(), id, id);
      var i := FindClient(id);
      if i == CAPACITY { return false; }
      NoTotalNoStarts(clients[..], i);
      var left := clients[i].starts - 1;
      clients[i] := if left == 0 then NONE else Entry(id, left);
      activeStarts := activeStarts - 1;
      ok := true;
    }

    method DropClient(id: nat) returns (ok: bool)
      requires Valid()
      modifies this, clients
      ensures Valid() && (Abs(), ok) == Remove(old(Abs()), id)
    {
      RemoveCounts(Abs(), id, id);
      var i := FindClient(id);
      if i == CAPACITY { return false; }
      NoTotalNoStarts(clients[..], i);
      activeStarts := activeStarts - clients[i].starts;
      clients[i] := NONE;
      ok := true;
    }

    /** AudioDeviceLifecycle::startIO. */
    method StartIO(id: nat) returns (t: Transition)
      requires Valid()
      modifies this, clients
      ensures Valid() && Abs() == Start(old(Abs()), id).0
      ensures t == if !Start(old(Abs()), id).1 then Rejected
                   else if old(activeStarts) == 0 then FirstClientStarted else AdditionalClientStarted
    {
      var wasIdle := activeStarts == 0;
      var ok := StartClient(id);
      t := if !ok then Rejected else if wasIdle then FirstClientStarted else AdditionalClientStarted;
    }

    method StopIO(id: nat) returns (t: Transition)
      requires Valid()
      modifies this, clients
      ensures Valid() && Abs() == Stop(old(Abs()), id).0
      ensures t == if !Stop(old(Abs()), id).1 then ClientNotActive
                   else if activeStarts == 0 then LastClientStopped else ClientStoppedStillActive
    {
      var ok := StopClient(id);
      t := if !ok then ClientNotActive else if activeStarts == 0 then LastClientStopped else ClientStoppedStillActive;
    }

    method RemoveClient(id: nat) returns (t: Transition)
      requires Valid()
      modifies this, clients
      ensures Valid() && Abs() == Remove(old(Abs()), id).0
      ensures t == if !Remove(old(Abs()), id).1 then ClientNotActive
                   else if activeStarts == 0 then LastClientStopped else ClientStoppedStillActive
    {
      var ok := DropClient(id);
      t := if !ok then ClientNotActive else if activeStarts == 0 then LastClientStopped else ClientStoppedStillActive;
    }
  }
}
