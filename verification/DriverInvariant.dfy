/** What holds in every reachable state of the driver. */
module DriverInvariant {
  import opened L = ClientLifecycle
  import opened DriverState

  // ------------------------------------------------------------------ the table

  lemma PlaceIs(clients: seq<Client>, i: nat)
    requires Distinct(clients) && i < |clients|
    ensures Place(clients, clients[i].side, clients[i].id) == i
  {
  }

  function Weight(c: Client, side: Side): nat { if c.side == side then c.starts else 0 }

  lemma {:induction false} StartsTotalOfUpdate(clients: seq<Client>, i: nat, c: Client, side: Side)
    requires i < |clients|
    ensures StartsTotal(clients[i := c], side) + Weight(clients[i], side) == StartsTotal(clients, side) + Weight(c, side)
  {
    var n := |clients| - 1;
    if i == n {
      assert clients[i := c][..n] == clients[..n];
    } else {
      StartsTotalOfUpdate(clients[..n], i, c, side);
      assert clients[i := c][..n] == clients[..n][i := c];
    }
  }

  lemma StartsTotalOfUnlist(clients: seq<Client>, i: nat, side: Side)
    requires i < |clients|
    ensures StartsTotal(Unlist(clients, i), side) + Weight(clients[i], side) == StartsTotal(clients, side)
  {
    var n := |clients| - 1;
    if i == n {
      assert Unlist(clients, i) == clients[..n];
    } else {
      StartsTotalOfUpdate(clients[..n], i, clients[n], side);
      assert Unlist(clients, i) == clients[..n][i := clients[n]];
    }
  }

  /** Removing a row keeps every other row, once. */
  lemma UnlistKeepsOthers(clients: seq<Client>, i: nat, j: nat)
    requires i < |clients| && j < |clients| && j != i
    ensures var j' := if j == |clients| - 1 then i else j;
            j' < |Unlist(clients, i)| && Unlist(clients, i)[j'] == clients[j]
  {
  }

  lemma UnlistAddsNothing(clients: seq<Client>, i: nat, j: nat)
    requires i < |clients| && j < |Unlist(clients, i)|
    ensures var k := if j == i then |clients| - 1 else j;
            Unlist(clients, i)[j] == clients[k] && k != i
  {
  }

  lemma UnlistKeepsDistinct(clients: seq<Client>, i: nat)
    requires Distinct(clients) && i < |clients|
    ensures Distinct(Unlist(clients, i))
  {
    var rest := Unlist(clients, i);
    forall a, b | 0 <= a < b < |rest| ensures rest[a].side != rest[b].side || rest[a].id != rest[b].id {
      UnlistAddsNothing(clients, i, a);
      UnlistAddsNothing(clients, i, b);
    }
  }

  /** After removal exactly that client is gone. */
  lemma UnlistPlaces(clients: seq<Client>, i: nat, side: Side, id: nat)
    requires Distinct(clients) && i < |clients|
    ensures Listed(Unlist(clients, i), side, id) <==> Listed(clients, side, id) && !Names(clients[i], side, id)
  {
    var rest := Unlist(clients, i);
    var j, k := Place(clients, side, id), Place(rest, side, id);
    if j < |clients| && j != i {
      UnlistKeepsOthers(clients, i, j);
    }
    if k < |rest| { UnlistAddsNothing(clients, i, k); }
    if j < |clients| && Names(clients[i], side, id) { PlaceIs(clients, i); }
  }

  lemma UnlistRows(clients: seq<Client>, i: nat, side: Side, id: nat)
    requires Distinct(clients) && i < |clients|
    ensures RowStarts(Unlist(clients, i), side, id) == if Names(clients[i], side, id) then 0 else RowStarts(clients, side, id)
  {
    var rest := Unlist(clients, i);
    var j := Place(clients, side, id);
    UnlistPlaces(clients, i, side, id);
    if j < |clients| && j != i {
      var j' := if j == |clients| - 1 then i else j;
      UnlistKeepsOthers(clients, i, j);
      UnlistKeepsDistinct(clients, i);
      PlaceIs(rest, j');
    }
  }

  lemma SetStartsRows(clients: seq<Client>, i: nat, n: nat, side: Side, id: nat)
    requires Distinct(clients) && i < |clients|
    ensures var t := clients[i := clients[i].(starts := n)];
            RowStarts(t, side, id) == if Names(clients[i], side, id) then n else RowStarts(clients, side, id)
  {
    var t := clients[i := clients[i].(starts := n)];
    assert forall j | 0 <= j < |clients| :: Names(t[j], side, id) == Names(clients[j], side, id);
    if Names(clients[i], side, id) { PlaceIs(clients, i); }
  }

  lemma AppendRows(clients: seq<Client>, c: Client, side: Side, id: nat)
    requires c.starts == 0
    ensures RowStarts(clients + [c], side, id) == RowStarts(clients, side, id)
  {
    var more, k := clients + [c], Place(clients, side, id);
    assert forall j | 0 <= j < |clients| :: more[j] == clients[j];
    assert k < |clients| ==> Place(more, side, id) == k;
  }

  // ------------------------------------------------------------------ activity keys

  lemma KeyIsUnique(a: Side, x: Id, b: Side, y: Id)
    requires Key(a, x) == Key(b, y)
    ensures a == b && x == y
  {
  }

  lemma SlotsAreDistinct(clients: seq<Client>, keys: seq<nat>, i: nat, j: nat)
    requires KeysOk(clients, keys) && Distinct(clients) && i < |clients| && j < |clients| && i != j
    ensures clients[i].slot != clients[j].slot
  {
    if clients[i].slot == clients[j].slot {
      KeyIsUnique(clients[i].side, clients[i].id, clients[j].side, clients[j].id);
    }
  }

  lemma AddKeepsKeys(clients: seq<Client>, keys: seq<nat>, c: Client)
    requires KeysOk(clients, keys) && c.slot < TABLE && keys[c.slot] == 0
    ensures KeysOk(clients + [c], keys[c.slot := Key(c.side, c.id)])
  {
    var more, keys' := clients + [c], keys[c.slot := Key(c.side, c.id)];
    forall k | 0 <= k < TABLE && keys'[k] != 0 ensures Owned(more, k) {
      if k == c.slot {
        assert more[|clients|].slot == k;
      } else {
        assert Owned(clients, k);
        var i :| 0 <= i < |clients| && clients[i].slot == k;
        assert more[i].slot == k;
      }
    }
  }

  lemma RemoveKeepsKeys(clients: seq<Client>, keys: seq<nat>, i: nat)
    requires KeysOk(clients, keys) && Distinct(clients) && i < |clients|
    ensures KeysOk(Unlist(clients, i), keys[clients[i].slot := 0])
  {
    var rest, keys' := Unlist(clients, i), keys[clients[i].slot := 0];
    forall j | 0 <= j < |rest|
      ensures rest[j].slot < TABLE && keys'[rest[j].slot] == Key(rest[j].side, rest[j].id)
    {
      UnlistAddsNothing(clients, i, j);
      SlotsAreDistinct(clients, keys, i, if j == i then |clients| - 1 else j);
    }
    forall k | 0 <= k < TABLE && keys'[k] != 0 ensures Owned(rest, k) {
      assert Owned(clients, k);
      var j :| 0 <= j < |clients| && clients[j].slot == k;
      UnlistKeepsOthers(clients, i, j);
    }
  }

  lemma SetStartsKeepsKeys(clients: seq<Client>, keys: seq<nat>, i: nat, n: nat)
    requires KeysOk(clients, keys) && i < |clients|
    ensures KeysOk(clients[i := clients[i].(starts := n)], keys)
  {
    var t := clients[i := clients[i].(starts := n)];
    forall k | 0 <= k < TABLE && keys[k] != 0 ensures Owned(t, k) {
      assert Owned(clients, k);
      var j :| 0 <= j < |clients| && clients[j].slot == k;
      assert t[j].slot == k;
    }
  }

  // ------------------------------------------------------------------ counting

  function IdsOf(clients: seq<Client>, side: Side): set<nat> {
    if clients == [] then {}
    else IdsOf(clients[..|clients| - 1], side)
         + if clients[|clients| - 1].side == side then {clients[|clients| - 1].id as nat} else {}
  }

  lemma {:induction false} IdsAreFew(clients: seq<Client>, side: Side)
    ensures |IdsOf(clients, side)| <= |clients|
  {
    if clients != [] { IdsAreFew(clients[..|clients| - 1], side); }
  }

  lemma {:induction false} ListedIdIn(clients: seq<Client>, side: Side, i: nat)
    requires i < |clients| && clients[i].side == side
    ensures clients[i].id in IdsOf(clients, side)
  {
    if i < |clients| - 1 { ListedIdIn(clients[..|clients| - 1], side, i); }
  }

  function EntryIds(entries: seq<Entry>): set<nat> {
    if entries == [] then {} else EntryIds(entries[..|entries| - 1]) + {entries[|entries| - 1].id}
  }

  lemma {:induction false} EntryIdIn(entries: seq<Entry>, x: nat) returns (i: nat)
    requires x in EntryIds(entries)
    ensures i < |entries| && entries[i].id == x
  {
    if x == entries[|entries| - 1].id { i := |entries| - 1; } else { i := EntryIdIn(entries[..|entries| - 1], x); }
  }

  lemma {:induction false} FullTableHasManyIds(entries: seq<Entry>)
    requires Unique(entries) && forall i | 0 <= i < |entries| :: entries[i].starts != 0
    ensures |EntryIds(entries)| == |entries|
  {
    if entries != [] {
      var n := |entries| - 1;
      FullTableHasManyIds(entries[..n]);
      if entries[n].id in EntryIds(entries[..n]) { var i := EntryIdIn(entries[..n], entries[n].id); }
    }
  }

  lemma Smaller(a: set<nat>, b: set<nat>, x: nat)
    requires a <= b && x in b && x !in a
    ensures |a| < |b|
  {
    assert |a| <= |b - {x}| by { SubsetIsSmaller(a, b - {x}); }
  }

  lemma {:induction false} SubsetIsSmaller(a: set<nat>, b: set<nat>)
    requires a <= b
    ensures |a| <= |b|
    decreases |a|
  {
    if a != {} {
      var x :| x in a;
      SubsetIsSmaller(a - {x}, b - {x});
    }
  }

  /** A registered client that has not started always finds a free entry in its device's lifecycle. */
  lemma RoomForRegisteredClient(s: State, side: Side, i: nat)
    requires Consistent(s) && i < |s.clients| && s.clients[i].side == side && s.clients[i].starts == 0
    ensures Free(Of(s, side).entries) < CAPACITY
  {
    var entries := Of(s, side).entries;
    if Free(entries) == CAPACITY {
      FullTableHasManyIds(entries);
      IdsAreFew(s.clients, side);
      ListedIdIn(s.clients, side, i);
      forall x | x in EntryIds(entries) ensures x in IdsOf(s.clients, side) && x != s.clients[i].id {
        var k := EntryIdIn(entries, x);
        StartedIsListed(s, side, k);
      }
      Smaller(EntryIds(entries), IdsOf(s.clients, side), s.clients[i].id);
    }
  }

  lemma StartedIsListed(s: State, side: Side, k: nat)
    requires Consistent(s) && k < CAPACITY && Of(s, side).entries[k].starts != 0
    ensures var x := Of(s, side).entries[k].id;
            x in IdsOf(s.clients, side) && forall i | 0 <= i < |s.clients| && Names(s.clients[i], side, x) :: s.clients[i].starts != 0
  {
    var x := Of(s, side).entries[k].id;
    EntryIsStarts(Of(s, side), x, k);
    assert Listed(s.clients, side, x);
    ListedIdIn(s.clients, side, Place(s.clients, side, x));
  }

  // ------------------------------------------------------------------ steps

  /** Lifecycle l is the side's lifecycle with the starts of one client set to n. */
  ghost predicate Counted(before: Lifecycle, l: Lifecycle, id: nat, n: nat) {
    && L.Inv(l) && l.active + StartsOf(before, id) == before.active + n
    && forall other: nat :: StartsOf(l, other) == if other == id then n else StartsOf(before, other)
  }

  /** Counting a client in its lifecycle and in its row keeps the two in agreement. */
  lemma CountKeepsAgree(clients: seq<Client>, i: nat, before: Lifecycle, l: Lifecycle, n: nat)
    requires Distinct(clients) && i < |clients| && Agree(clients, clients[i].side, before)
    requires Counted(before, l, clients[i].id, n)
    ensures Agree(clients[i := clients[i].(starts := n)], clients[i].side, l)
  {
    var t, side := clients[i := clients[i].(starts := n)], clients[i].side;
    StartsTotalOfUpdate(clients, i, t[i], side);
    PlaceIs(clients, i);
    forall id: nat ensures StartsOf(l, id) == RowStarts(t, side, id) {
      SetStartsRows(clients, i, n, side, id);
      assert StartsOf(before, id) == RowStarts(clients, side, id);
    }
  }

  lemma CountKeepsOtherSide(clients: seq<Client>, i: nat, l: Lifecycle, n: nat, side: Side)
    requires Distinct(clients) && i < |clients| && clients[i].side != side && Agree(clients, side, l)
    ensures Agree(clients[i := clients[i].(starts := n)], side, l)
  {
    var t := clients[i := clients[i].(starts := n)];
    StartsTotalOfUpdate(clients, i, t[i], side);
    forall id: nat ensures StartsOf(l, id) == RowStarts(t, side, id) {
      SetStartsRows(clients, i, n, side, id);
      assert StartsOf(l, id) == RowStarts(clients, side, id);
    }
  }

  lemma CountKeepsTables(clients: seq<Client>, keys: seq<nat>, output: Lifecycle, input: Lifecycle, i: nat, l: Lifecycle, n: nat)
    requires Tables(clients, keys, output, input) && i < |clients|
    requires Counted(if clients[i].side == Output then output else input, l, clients[i].id, n)
    ensures var t := clients[i := clients[i].(starts := n)];
            if clients[i].side == Output then Tables(t, keys, l, input) else Tables(t, keys, output, l)
  {
    SetStartsKeepsKeys(clients, keys, i, n);
    if clients[i].side == Output {
      CountKeepsAgree(clients, i, output, l, n);
      CountKeepsOtherSide(clients, i, input, n, Input);
    } else {
      CountKeepsAgree(clients, i, input, l, n);
      CountKeepsOtherSide(clients, i, output, n, Output);
    }
  }

  lemma CountKeepsTable(s: State, i: nat, l: Lifecycle, n: nat)
    requires TableOk(s) && i < |s.clients| && Counted(Of(s, s.clients[i].side), l, s.clients[i].id, n)
    ensures TableOk(SetStarts(With(s, s.clients[i].side, l), i, n))
  {
    CountKeepsTables(s.clients, s.keys, s.output, s.input, i, l, n);
  }

  lemma StartIsCounted(l: Lifecycle, id: nat)
    requires L.Inv(l)
    ensures Start(l, id).1 ==> Counted(l, Start(l, id).0, id, StartsOf(l, id) + 1)
  {
    StartCounts(l, id, id);
    forall other: nat ensures Start(l, id).1 ==> StartsOf(Start(l, id).0, other) == if other == id then StartsOf(l, id) + 1 else StartsOf(l, other) {
      StartCounts(l, id, other);
    }
  }

  lemma StopIsCounted(l: Lifecycle, id: nat)
    requires L.Inv(l)
    ensures Stop(l, id).1 <==> StartsOf(l, id) > 0
    ensures Stop(l, id).1 ==> Counted(l, Stop(l, id).0, id, StartsOf(l, id) - 1)
  {
    StopCounts(l, id, id);
    forall other: nat ensures Stop(l, id).1 ==> StartsOf(Stop(l, id).0, other) == if other == id then StartsOf(l, id) - 1 else StartsOf(l, other) {
      StopCounts(l, id, other);
    }
  }

  /** A start that is taken back leaves every count as it was. */
  lemma StartThenStop(l: Lifecycle, id: nat)
    requires L.Inv(l) && Start(l, id).1
    ensures Counted(l, Stop(Start(l, id).0, id).0, id, StartsOf(l, id))
  {
    var l1 := Start(l, id).0;
    StartIsCounted(l, id);
    StopIsCounted(l1, id);
  }

  predicate TableEqual(s: State, t: State) {
    t.clients == s.clients && t.keys == s.keys && t.output == s.output && t.input == s.input
  }

  lemma TakenStartTable(s: State, i: nat, started: Lifecycle, undone: Lifecycle, hardware: bool)
    requires HardwareOk(s) && i < |s.clients| && (AnyActive(s) || hardware)
    ensures TableEqual(SetStarts(With(s, s.clients[i].side, started), i, s.clients[i].starts + 1),
                       BeginIO(s, i, started, undone, hardware).0)
  {
  }

  lemma TakenStartKeepsTable(s: State, i: nat, started: Lifecycle, undone: Lifecycle, hardware: bool)
    requires HardwareOk(s) && i < |s.clients| && (AnyActive(s) || hardware)
    requires TableOk(SetStarts(With(s, s.clients[i].side, started), i, s.clients[i].starts + 1))
    ensures TableOk(BeginIO(s, i, started, undone, hardware).0)
  {
    TakenStartTable(s, i, started, undone, hardware);
    SameTable(SetStarts(With(s, s.clients[i].side, started), i, s.clients[i].starts + 1), BeginIO(s, i, started, undone, hardware).0);
  }

  /** Hardware flags do not enter the table. */
  lemma SameTable(s: State, t: State)
    requires TableOk(s) && TableEqual(s, t)
    ensures TableOk(t)
  {
  }

  lemma UndoneStartKeepsTable(s: State, i: nat, started: Lifecycle, undone: Lifecycle)
    requires TableOk(s) && HardwareOk(s) && i < |s.clients| && !AnyActive(s)
    requires Counted(Of(s, s.clients[i].side), undone, s.clients[i].id, s.clients[i].starts)
    ensures TableOk(BeginIO(s, i, started, undone, false).0)
  {
    CountKeepsTable(s, i, undone, s.clients[i].starts);
    assert s.clients[i := s.clients[i].(starts := s.clients[i].starts)] == s.clients;
  }

  lemma CountedStartKeepsTable(s: State, i: nat, started: Lifecycle, undone: Lifecycle, hardware: bool)
    requires TableOk(s) && HardwareOk(s) && i < |s.clients| && (AnyActive(s) || hardware)
    requires Counted(Of(s, s.clients[i].side), started, s.clients[i].id, s.clients[i].starts + 1)
    ensures TableOk(BeginIO(s, i, started, undone, hardware).0)
  {
    CountKeepsTable(s, i, started, s.clients[i].starts + 1);
    TakenStartKeepsTable(s, i, started, undone, hardware);
  }

  lemma StartIOKeepsTable(s: State, side: Side, id: Id, hardware: bool)
    requires Consistent(s)
    ensures TableOk(StartIO(s, side, id, hardware).0)
  {
    var i := Place(s.clients, side, id);
    var (l, ok) := Start(Of(s, side), id);
    if i < |s.clients| && ok {
      RowIsStarts(s, side, i);
      if AnyActive(s) || hardware {
        StartIsCounted(Of(s, side), id);
        CountedStartKeepsTable(s, i, l, Stop(l, id).0, hardware);
      } else {
        StartThenStop(Of(s, side), id);
        UndoneStartKeepsTable(s, i, l, Stop(l, id).0);
      }
    }
  }

  lemma RowIsStarts(s: State, side: Side, i: nat)
    requires TableOk(s) && i < |s.clients| && s.clients[i].side == side
    ensures StartsOf(Of(s, side), s.clients[i].id) == s.clients[i].starts
  {
    PlaceIs(s.clients, i);
  }

  lemma EndIOKeepsTable(s: State, i: nat, stopped: Lifecycle)
    requires TableOk(s) && i < |s.clients| && s.clients[i].starts > 0
    requires Counted(Of(s, s.clients[i].side), stopped, s.clients[i].id, s.clients[i].starts - 1)
    ensures TableOk(EndIO(s, i, stopped))
  {
    CountKeepsTable(s, i, stopped, s.clients[i].starts - 1);
  }

  lemma StopIOKeepsTable(s: State, side: Side, id: Id)
    requires TableOk(s)
    ensures TableOk(StopIO(s, side, id))
  {
    var i := Place(s.clients, side, id);
    var (l, ok) := Stop(Of(s, side), id);
    if i < |s.clients| && ok {
      RowIsStarts(s, side, i);
      StopIsCounted(Of(s, side), id);
      EndIOKeepsTable(s, i, l);
    }
  }

  lemma StartIOKeepsHardware(s: State, side: Side, id: Id, hardware: bool)
    requires HardwareOk(s) && L.Inv(s.output) && L.Inv(s.input)
    ensures HardwareOk(StartIO(s, side, id, hardware).0)
  {
    StartCounts(Of(s, side), id, id);
  }

  lemma StopIOKeepsHardware(s: State, side: Side, id: Id)
    requires HardwareOk(s)
    ensures HardwareOk(StopIO(s, side, id))
  {
  }

  lemma MonitorKeepsConsistent(s: State, current: bool, present: bool, hardware: bool)
    requires Consistent(s)
    ensures Consistent(Monitor(s, current, present, hardware))
  {
  }

  lemma AddKeepsAgree(clients: seq<Client>, c: Client, side: Side, l: Lifecycle)
    requires Agree(clients, side, l) && c.starts == 0
    ensures Agree(clients + [c], side, l)
  {
    assert (clients + [c])[..|clients|] == clients;
    forall id: nat ensures StartsOf(l, id) == RowStarts(clients + [c], side, id) {
      AppendRows(clients, c, side, id);
    }
  }

  lemma AddClientKeepsTable(s: State, side: Side, id: Id)
    requires TableOk(s)
    ensures TableOk(AddClient(s, side, id).0)
  {
    var (t, ok) := AddClient(s, side, id);
    if t != s {
      var c := Client(side, id, 0, FreeKey(s.keys));
      AddKeepsKeys(s.clients, s.keys, c);
      AddKeepsAgree(s.clients, c, Output, s.output);
      AddKeepsAgree(s.clients, c, Input, s.input);
    }
  }

  lemma RemoveKeepsAgree(clients: seq<Client>, i: nat, before: Lifecycle, l: Lifecycle)
    requires Distinct(clients) && i < |clients| && Agree(clients, clients[i].side, before)
    requires Counted(before, l, clients[i].id, 0)
    ensures Agree(Unlist(clients, i), clients[i].side, l)
  {
    var side := clients[i].side;
    StartsTotalOfUnlist(clients, i, side);
    PlaceIs(clients, i);
    forall id: nat ensures StartsOf(l, id) == RowStarts(Unlist(clients, i), side, id) {
      UnlistRows(clients, i, side, id);
      assert StartsOf(before, id) == RowStarts(clients, side, id);
    }
  }

  lemma RemoveKeepsOtherSide(clients: seq<Client>, i: nat, l: Lifecycle, side: Side)
    requires Distinct(clients) && i < |clients| && clients[i].side != side && Agree(clients, side, l)
    ensures Agree(Unlist(clients, i), side, l)
  {
    StartsTotalOfUnlist(clients, i, side);
    forall id: nat ensures StartsOf(l, id) == RowStarts(Unlist(clients, i), side, id) {
      UnlistRows(clients, i, side, id);
      assert StartsOf(l, id) == RowStarts(clients, side, id);
    }
  }

  lemma RemoveIsCounted(l: Lifecycle, id: nat)
    requires L.Inv(l)
    ensures Counted(l, Remove(l, id).0, id, 0) && (Remove(l, id).1 <==> StartsOf(l, id) > 0)
  {
    RemoveCounts(l, id, id);
    forall other: nat ensures StartsOf(Remove(l, id).0, other) == if other == id then 0 else StartsOf(l, other) {
      RemoveCounts(l, id, other);
    }
  }

  lemma RemoveKeepsTables(clients: seq<Client>, keys: seq<nat>, output: Lifecycle, input: Lifecycle, i: nat, l: Lifecycle)
    requires Tables(clients, keys, output, input) && i < |clients|
    requires Counted(if clients[i].side == Output then output else input, l, clients[i].id, 0)
    ensures var rest, keys' := Unlist(clients, i), keys[clients[i].slot := 0];
            if clients[i].side == Output then Tables(rest, keys', l, input) else Tables(rest, keys', output, l)
  {
    RemoveKeepsKeys(clients, keys, i);
    UnlistKeepsDistinct(clients, i);
    if clients[i].side == Output {
      RemoveKeepsAgree(clients, i, output, l);
      RemoveKeepsOtherSide(clients, i, input, Input);
    } else {
      RemoveKeepsAgree(clients, i, input, l);
      RemoveKeepsOtherSide(clients, i, output, Output);
    }
  }

  lemma RemoveClientKeepsTable(s: State, side: Side, id: Id)
    requires TableOk(s)
    ensures TableOk(RemoveClient(s, side, id))
  {
    var i := Place(s.clients, side, id);
    if i < |s.clients| {
      RemoveIsCounted(Of(s, side), id);
      RemoveKeepsTables(s.clients, s.keys, s.output, s.input, i, Remove(Of(s, side), id).0);
    }
  }

  lemma RemoveClientKeepsHardware(s: State, side: Side, id: Id)
    requires HardwareOk(s) && L.Inv(s.output) && L.Inv(s.input)
    ensures HardwareOk(RemoveClient(s, side, id))
  {
    RemoveCounts(Of(s, side), id, id);
  }

  // ------------------------------------------------------------------ what each call does

  function StartsIn(s: State, side: Side, id: nat): nat { StartsOf(Of(s, side), id) }

  /** A start that is done counts one for that client alone and leaves hardware running if it was the first. */
  lemma StartIODoes(s: State, side: Side, id: Id, hardware: bool, side': Side, other: nat)
    requires Consistent(s)
    ensures var (t, reply) := StartIO(s, side, id, hardware);
            && (reply == BadObject ==> t == s)
            && (reply == HardwareFailed ==> !AnyActive(s) && !hardware && !t.session && StartsIn(t, side', other) == StartsIn(s, side', other))
            && (reply == Done ==> AnyActive(t) && t.session == (if AnyActive(s) then s.session else hardware))
            && (reply == Done ==> StartsIn(t, side', other) == StartsIn(s, side', other) + (if side' == side && other == id then 1 else 0))
  {
    var l := Of(s, side);
    StartCounts(l, id, id);
    StartCounts(l, id, other);
    StopCounts(Start(l, id).0, id, other);
  }

  /** A stop takes one start off that client alone, and the session goes with the last start of all. */
  lemma StopIODoes(s: State, side: Side, id: Id, side': Side, other: nat)
    requires Consistent(s) && Listed(s.clients, side, id)
    ensures var t := StopIO(s, side, id);
            && t.session == (s.session && AnyActive(t))
            && StartsIn(t, side', other)
               == StartsIn(s, side', other) - (if side' == side && other == id && StartsIn(s, side, id) > 0 then 1 else 0)
  {
    StopCounts(Of(s, side), id, id);
    StopCounts(Of(s, side), id, other);
  }

  /** Removal unlists that client alone, with all its starts. */
  lemma RemoveClientDoes(s: State, side: Side, id: Id, side': Side, other: nat)
    requires Consistent(s) && Listed(s.clients, side, id)
    ensures var t := RemoveClient(s, side, id);
            && t.session == (s.session && AnyActive(t))
            && (Listed(t.clients, side', other) <==> Listed(s.clients, side', other) && !(side' == side && other == id))
            && StartsIn(t, side', other) == (if side' == side && other == id then 0 else StartsIn(s, side', other))
  {
    RemoveClientEndsSession(s, side, id);
    RemoveClientParts(s, side, id, side');
    RemoveCounts(Of(s, side), id, other);
    UnlistPlaces(s.clients, Place(s.clients, side, id), side', other);
  }

  lemma RemoveClientEndsSession(s: State, side: Side, id: Id)
    requires Consistent(s) && Listed(s.clients, side, id)
    ensures RemoveClient(s, side, id).session == (s.session && AnyActive(RemoveClient(s, side, id)))
  {
    RemoveCounts(Of(s, side), id, id);
  }

  lemma RemoveClientParts(s: State, side: Side, id: Id, side': Side)
    requires Listed(s.clients, side, id)
    ensures var t := RemoveClient(s, side, id);
            && t.clients == Unlist(s.clients, Place(s.clients, side, id))
            && Of(t, side') == if side' == side then Remove(Of(s, side), id).0 else Of(s, side')
  {
  }

  /** Registering lists that client and no other, with no starts. */
  lemma AddClientDoes(s: State, side: Side, id: Id, side': Side, other: nat)
    requires Consistent(s)
    ensures var (t, ok) := AddClient(s, side, id);
            && (Listed(t.clients, side', other) <==> Listed(s.clients, side', other) || (ok && side' == side && other == id))
            && StartsIn(t, side', other) == StartsIn(s, side', other) && t.session == s.session
  {
    AppendPlaces(s.clients, Client(side, id, 0, FreeKey(s.keys)), side', other);
  }

  lemma AppendPlaces(clients: seq<Client>, c: Client, side: Side, id: nat)
    ensures Listed(clients + [c], side, id) <==> Listed(clients, side, id) || Names(c, side, id)
  {
    var more, k := clients + [c], Place(clients, side, id);
    assert k < |clients| ==> Names(more[k], side, id);
    assert Names(c, side, id) ==> Names(more[|clients|], side, id);
  }

  /** While clients are active a monitor turn keeps a current session and otherwise has one exactly if it could open one. */
  lemma MonitorDoes(s: State, current: bool, present: bool, hardware: bool)
    requires Consistent(s)
    ensures var t := Monitor(s, current, present, hardware);
            && t.clients == s.clients && t.output == s.output && t.input == s.input
            && t.session == (AnyActive(s) && ((s.session && current) || (present && hardware)))
  {
  }

  // ------------------------------------------------------------------ runs

  datatype Call =
    | Add(side: Side, id: Id) | Drop(side: Side, id: Id)
    | StartCall(side: Side, id: Id, hardware: bool) | StopCall(side: Side, id: Id)
    | Tick(current: bool, present: bool, hardware: bool)

  function Step(s: State, call: Call): State
    requires HardwareOk(s)
  {
    match call
    case Add(side, id) => AddClient(s, side, id).0
    case Drop(side, id) => RemoveClient(s, side, id)
    case StartCall(side, id, hardware) => StartIO(s, side, id, hardware).0
    case StopCall(side, id) => StopIO(s, side, id)
    case Tick(current, present, hardware) => Monitor(s, current, present, hardware)
  }

  lemma StepKeepsTable(s: State, call: Call)
    requires Consistent(s)
    ensures TableOk(Step(s, call))
  {
    match call
    case Add(side, id) => AddClientKeepsTable(s, side, id);
    case Drop(side, id) => RemoveClientKeepsTable(s, side, id);
    case StartCall(side, id, hardware) => StartIOKeepsTable(s, side, id, hardware);
    case StopCall(side, id) => StopIOKeepsTable(s, side, id);
    case Tick(current, present, hardware) => MonitorKeepsConsistent(s, current, present, hardware);
  }

  lemma StepKeepsHardware(s: State, call: Call)
    requires HardwareOk(s) && L.Inv(s.output) && L.Inv(s.input)
    ensures HardwareOk(Step(s, call))
  {
    match call
    case Add(_, _) =>
    case Drop(side, id) => RemoveClientKeepsHardware(s, side, id);
    case StartCall(side, id, hardware) => StartIOKeepsHardware(s, side, id, hardware);
    case StopCall(side, id) => StopIOKeepsHardware(s, side, id);
    case Tick(_, _, _) =>
  }

  lemma StepKeepsConsistent(s: State, call: Call)
    requires Consistent(s)
    ensures Consistent(Step(s, call))
  {
    StepKeepsTable(s, call);
    StepKeepsHardware(s, call);
  }

  lemma InitialIsConsistent(s: State)
    requires Initial(s)
    ensures Consistent(s)
  {
    IdleInv(s.output);
    IdleInv(s.input);
  }

  ghost predicate Run(states: seq<State>, calls: seq<Call>) {
    && |states| == |calls| + 1 && Initial(states[0])
    && forall i | 0 <= i < |calls| :: HardwareOk(states[i]) ==> states[i + 1] == Step(states[i], calls[i])
  }

  /**
   * In every state the driver can reach: lifecycles and client table agree, client by client and in total; activity
   * keys and clients correspond one to one; an open session has an active client; the input flag is right. So the
   * precondition of Step always holds on the way, and startHardware is never entered with a session open.
   */
  lemma {:induction false} EveryReachableStateIsConsistent(states: seq<State>, calls: seq<Call>, n: nat)
    requires Run(states, calls) && n <= |calls|
    ensures Consistent(states[n])
  {
    if n == 0 {
      InitialIsConsistent(states[0]);
    } else {
      EveryReachableStateIsConsistent(states, calls, n - 1);
      StepKeepsConsistent(states[n - 1], calls[n - 1]);
    }
  }

  /** A registered client's start is refused only when it has already started 2^32 - 1 times. */
  lemma StartIsRefusedOnlyAtTheCounterLimit(s: State, side: Side, id: Id, hardware: bool)
    requires Consistent(s) && Listed(s.clients, side, id)
    ensures StartIO(s, side, id, hardware).1 == BadObject <==> StartsOf(Of(s, side), id) >= 0xffff_ffff
  {
    var i := Place(s.clients, side, id);
    StartCounts(Of(s, side), id, id);
    if s.clients[i].starts == 0 { RoomForRegisteredClient(s, side, i); }
  }

  function SlotsOf(clients: seq<Client>): set<nat> {
    if clients == [] then {} else SlotsOf(clients[..|clients| - 1]) + {clients[|clients| - 1].slot}
  }

  lemma {:induction false} SlotsAreFew(clients: seq<Client>)
    ensures |SlotsOf(clients)| <= |clients|
  {
    if clients != [] { SlotsAreFew(clients[..|clients| - 1]); }
  }

  lemma {:induction false} SlotIn(clients: seq<Client>, i: nat)
    requires i < |clients|
    ensures clients[i].slot in SlotsOf(clients)
  {
    if i < |clients| - 1 { SlotIn(clients[..|clients| - 1], i); }
  }

  lemma {:induction false} FirstSlots(slots: set<nat>, n: nat)
    requires forall k | 0 <= k < n :: k in slots
    ensures |slots| >= n
  {
    if n > 0 { FirstSlots(slots - {n - 1}, n - 1); }
  }

  /** A new client is refused exactly when the table is full; a free activity slot can always be found. */
  lemma AddIsRefusedIffTableIsFull(s: State, side: Side, id: Id)
    requires Consistent(s)
    ensures AddClient(s, side, id).1 <==> Listed(s.clients, side, id) || |s.clients| < 64
  {
    if |s.clients| < TABLE && FreeKey(s.keys) == TABLE {
      forall k | 0 <= k < TABLE ensures k in SlotsOf(s.clients) {
        assert Owned(s.clients, k);
        var i :| 0 <= i < |s.clients| && s.clients[i].slot == k;
        SlotIn(s.clients, i);
      }
      FirstSlots(SlotsOf(s.clients), TABLE);
      SlotsAreFew(s.clients);
    }
  }
}
