/**
 * NS6HALMapping: readers lease the shared mapping while one owner withdraws, replaces and unmaps it.
 * Each atomic operation is one step, atomics are sequentially consistent, and the steps of the owner and of
 * any number of readers interleave freely. Memory 0 is NULL.
 */
module HalMapping {

  /** Where a thread stands between incrementing and decrementing `readers`. */
  datatype Reader = Entered | Loaded(memory: nat) | Leased(memory: nat, session: nat)

  datatype Owner =
    | Published(memory: nat, session: nat)
    | Draining(memory: nat, session: nat)
    | Withdrawn
    | Publishing(memory: nat, session: nat)

  /** The shared fields, the threads inside acquire or holding a lease, what is mapped, and the publications so far. */
  datatype State = State(
    memory: nat, session: nat, readers: nat,
    threads: map<nat, Reader>, owner: Owner, mapped: set<nat>, log: seq<(nat, nat)>)

  datatype Step =
    | Enter(id: nat) | Load(id: nat) | Fail(id: nat) | Take(id: nat) | Release(id: nat)
    | Withdraw | Check | StoreSession(m: nat, sid: nat) | StoreMemory | Map(m: nat) | Unmap(m: nat)

  predicate Enabled(s: State, step: Step) {
    match step
    case Enter(id) => id !in s.threads
    case Load(id) => id in s.threads && s.threads[id].Entered?
    case Fail(id) => id in s.threads && s.threads[id] == Loaded(0)
    case Take(id) => id in s.threads && s.threads[id].Loaded? && s.threads[id].memory != 0
    case Release(id) => id in s.threads && s.threads[id].Leased?
    case Withdraw => s.owner.Published? || s.owner.Withdrawn?
    case Check => s.owner.Draining?
    case StoreSession(m, _) => s.owner.Withdrawn? && m in s.mapped && m != 0
    case StoreMemory => s.owner.Publishing?
    case Map(m) => m !in s.mapped && m != 0
    case Unmap(m) => s.owner.Withdrawn? || (s.owner.Published? && s.owner.memory != m)
  }

  function Leave(s: State, id: nat): State {
    s.(threads := s.threads - {id}, readers := if s.readers == 0 then 0 else s.readers - 1)
  }

  function Apply(s: State, step: Step): State
    requires Enabled(s, step)
  {
    match step
    case Enter(id) => s.(readers := s.readers + 1, threads := s.threads[id := Entered])
    case Load(id) => s.(threads := s.threads[id := Loaded(s.memory)])
    case Fail(id) => Leave(s, id)
    case Take(id) => s.(threads := s.threads[id := Leased(s.threads[id].memory, s.session)])
    case Release(id) => Leave(s, id)
    case Withdraw =>
      s.(memory := 0, owner := if s.owner.Published? then Draining(s.owner.memory, s.owner.session) else Draining(0, 0))
    case Check => if s.readers == 0 then s.(owner := Withdrawn) else s
    case StoreSession(m, sid) => s.(session := sid, owner := Publishing(m, sid))
    case StoreMemory =>
      s.(memory := s.owner.memory, owner := Published(s.owner.memory, s.owner.session),
         log := s.log + [(s.owner.memory, s.owner.session)])
    case Map(m) => s.(mapped := s.mapped + {m})
    case Unmap(m) => s.(mapped := s.mapped - {m})
  }

  predicate Init(s: State) {
    s.memory == 0 && s.session == 0 && s.readers == 0 && s.threads == map[] && s.owner == Withdrawn && s.log == []
  }

  /** The thread has a non-null pointer to the mapping. */
  predicate Holds(r: Reader) { !r.Entered? && r.memory != 0 }

  /** What a thread's pointer must be while the mapping (m, sid) is the one published last. */
  predicate Of(r: Reader, m: nat, sid: nat) {
    Holds(r) ==> r.memory == m && (r.Leased? ==> r.session == sid)
  }

  predicate OwnerOk(s: State) {
    match s.owner
    case Published(m, sid) => s.memory == m && s.session == sid && Current(s, m, sid)
    case Draining(m, sid) => s.memory == 0 && (m != 0 ==> s.session == sid && Current(s, m, sid))
    case Withdrawn => s.memory == 0
    case Publishing(m, sid) => s.memory == 0 && s.session == sid && m != 0 && m in s.mapped
  }

  predicate Current(s: State, m: nat, sid: nat) {
    m != 0 && m in s.mapped && s.log != [] && s.log[|s.log| - 1] == (m, sid)
  }

  ghost predicate ThreadsOk(s: State) {
    forall id | id in s.threads ::
      (s.threads[id].Leased? ==> Holds(s.threads[id])) &&
      match s.owner
      case Published(m, sid) => Of(s.threads[id], m, sid)
      case Draining(m, sid) => Of(s.threads[id], m, sid)
      case _ => !Holds(s.threads[id])
  }

  ghost predicate Inv(s: State) {
    s.readers == |s.threads| && OwnerOk(s) && ThreadsOk(s)
  }

  lemma LeaveCounts(s: State, id: nat)
    requires id in s.threads && s.readers == |s.threads|
    ensures Leave(s, id).readers == |Leave(s, id).threads|
  {
    assert s.threads.Keys == (s.threads - {id}).Keys + {id};
  }

  predicate ByReader(step: Step) { step.Enter? || step.Load? || step.Fail? || step.Take? || step.Release? }

  lemma LeaveKeepsInv(s: State, id: nat)
    requires Inv(s) && id in s.threads
    ensures Inv(Leave(s, id))
  {
    LeaveCounts(s, id);
  }

  lemma EnterKeepsInv(s: State, id: nat)
    requires Inv(s) && Enabled(s, Enter(id))
    ensures Inv(Apply(s, Enter(id)))
  {
    assert s.threads[id := Entered].Keys == s.threads.Keys + {id};
  }

  lemma ReaderKeepsInv(s: State, step: Step)
    requires Inv(s) && Enabled(s, step) && ByReader(step)
    ensures Inv(Apply(s, step))
  {
    match step
    case Fail(id) => LeaveKeepsInv(s, id);
    case Release(id) => LeaveKeepsInv(s, id);
    case Enter(id) => EnterKeepsInv(s, id);
    case Load(id) => assert s.threads[id := Loaded(s.memory)].Keys == s.threads.Keys;
    case Take(id) => assert Apply(s, step).threads.Keys == s.threads.Keys;
  }

  lemma OwnerKeepsInv(s: State, step: Step)
    requires Inv(s) && Enabled(s, step) && !ByReader(step)
    ensures Inv(Apply(s, step))
  {
    if step.Check? { assert s.readers == 0 ==> s.threads.Keys == {}; }
  }

  lemma StepKeepsInv(s: State, step: Step)
    requires Inv(s) && Enabled(s, step)
    ensures Inv(Apply(s, step))
  {
    if ByReader(step) { ReaderKeepsInv(s, step); } else { OwnerKeepsInv(s, step); }
  }

  ghost predicate Run(states: seq<State>, steps: seq<Step>) {
    && |states| == |steps| + 1 && Init(states[0])
    && forall i | 0 <= i < |steps| :: Enabled(states[i], steps[i]) && states[i + 1] == Apply(states[i], steps[i])
  }

  lemma {:induction false} InvOfEveryRun(states: seq<State>, steps: seq<Step>, n: nat)
    requires Run(states, steps) && n <= |steps|
    ensures Inv(states[n]) && states[n].readers == |states[n].threads|
  {
    if n > 0 {
      InvOfEveryRun(states, steps, n - 1);
      StepKeepsInv(states[n - 1], steps[n - 1]);
    }
  }

  /** From the return of withdraw until the next publication completes, no thread has a pointer to any mapping. */
  lemma NoLeaseOutlivesWithdraw(states: seq<State>, steps: seq<Step>, n: nat, id: nat)
    requires Run(states, steps) && n <= |steps| && id in states[n].threads
    requires states[n].owner.Withdrawn? || states[n].owner.Publishing?
    ensures !Holds(states[n].threads[id])
  {
    InvOfEveryRun(states, steps, n);
  }

  /** Every lease is the latest publication, pointer and session id together, and its memory is still mapped. */
  lemma LeasesAreTheLatestPublication(states: seq<State>, steps: seq<Step>, n: nat, id: nat)
    requires Run(states, steps) && n <= |steps| && id in states[n].threads && states[n].threads[id].Leased?
    ensures var lease := states[n].threads[id];
            && lease.memory != 0 && states[n].log != [] && states[n].log[|states[n].log| - 1] == (lease.memory, lease.session)
            && lease.memory in states[n].mapped
  {
    InvOfEveryRun(states, steps, n);
  }

  /** While withdraw spins no thread can gain a pointer, so the wait is only for leases taken before it. */
  lemma DrainingOnlyLosesHolders(s: State, step: Step, id: nat)
    requires Inv(s) && Enabled(s, step) && s.owner.Draining?
    requires id in Apply(s, step).threads && Holds(Apply(s, step).threads[id])
    ensures id in s.threads && Holds(s.threads[id])
  {
  }

  /** Withdraw ends exactly when the last thread has left. */
  lemma WithdrawEndsIffNobodyIsInside(s: State)
    requires Inv(s) && s.owner.Draining?
    ensures Apply(s, Check).owner.Withdrawn? <==> s.threads == map[]
  {
    assert s.threads.Keys == {} <==> s.threads == map[];
  }

  // ------------------------------------------------------------------ what acquire grants

  /** A load finds the mapping exactly while it is published; otherwise acquire can only fail. */
  lemma LoadFindsTheMappingIff(s: State, id: nat)
    requires Inv(s) && Enabled(s, Load(id))
    ensures Enabled(Apply(s, Load(id)), Take(id)) <==> s.owner.Published?
    ensures Enabled(Apply(s, Load(id)), Fail(id)) <==> !s.owner.Published?
  {
  }

  predicate By(step: Step, id: nat) {
    match step
    case Enter(i) => i == id
    case Load(i) => i == id
    case Fail(i) => i == id
    case Take(i) => i == id
    case Release(i) => i == id
    case _ => false
  }

  /** Thread id takes none of the steps i to j. */
  predicate Waits(steps: seq<Step>, i: nat, j: nat, id: nat)
    requires j <= |steps|
  {
    forall k | i <= k < j :: !By(steps[k], id)
  }

  lemma OthersLeaveItAlone(s: State, step: Step, id: nat)
    requires Enabled(s, step) && !By(step, id) && id in s.threads
    ensures id in Apply(s, step).threads && Apply(s, step).threads[id] == s.threads[id]
  {
  }

  /** Thread id has found the mapping (m, sid), which may be being withdrawn by now. */
  predicate Found(s: State, id: nat, m: nat, sid: nat) {
    && id in s.threads && s.threads[id] == Loaded(m)
    && (s.owner == Published(m, sid) || s.owner == Draining(m, sid))
  }

  lemma LoadFinds(s: State, id: nat)
    requires Inv(s) && Enabled(s, Load(id)) && s.owner.Published?
    ensures Found(Apply(s, Load(id)), id, s.owner.memory, s.owner.session)
  {
  }

  /** While it waits, what it found can be withdrawn but not replaced. */
  lemma FoundStays(s: State, step: Step, id: nat, m: nat, sid: nat)
    requires Inv(s) && Found(s, id, m, sid) && Enabled(s, step) && !By(step, id)
    ensures Found(Apply(s, step), id, m, sid)
  {
    OthersLeaveItAlone(s, step, id);
    assert id in s.threads.Keys;
  }

  lemma {:induction false} FoundStaysOnEveryRun(states: seq<State>, steps: seq<Step>, i: nat, j: nat, id: nat)
    requires Run(states, steps) && i < j <= |steps| && steps[i] == Load(id) && Waits(steps, i + 1, j, id)
    requires states[i].owner.Published?
    ensures Found(states[j], id, states[i].owner.memory, states[i].owner.session)
    decreases j
  {
    InvOfEveryRun(states, steps, j - 1);
    assert Enabled(states[j - 1], steps[j - 1]);
    if j == i + 1 {
      LoadFinds(states[i], id);
    } else {
      FoundStaysOnEveryRun(states, steps, i, j - 1, id);
      FoundStays(states[j - 1], steps[j - 1], id, states[i].owner.memory, states[i].owner.session);
    }
  }

  /** A thread that waits after its load keeps what it loaded. */
  lemma {:induction false} LoadedStays(states: seq<State>, steps: seq<Step>, i: nat, j: nat, id: nat)
    requires Run(states, steps) && i < j <= |steps| && steps[i] == Load(id) && Waits(steps, i + 1, j, id)
    ensures id in states[j].threads && id in states[i + 1].threads
    ensures states[j].threads[id] == states[i + 1].threads[id]
    decreases j
  {
    assert Enabled(states[j - 1], steps[j - 1]) && states[j] == Apply(states[j - 1], steps[j - 1]);
    if j > i + 1 {
      LoadedStays(states, steps, i, j - 1, id);
      OthersLeaveItAlone(states[j - 1], steps[j - 1], id);
    }
  }

  /** A thread whose load falls in the publication (m, sid) ends with exactly that lease, whatever happens meanwhile. */
  lemma AcquireLeasesThePublication(states: seq<State>, steps: seq<Step>, i: nat, j: nat, id: nat)
    requires Run(states, steps) && i < j < |steps| && Waits(steps, i + 1, j, id)
    requires steps[i] == Load(id) && steps[j] == Take(id) && states[i].owner.Published?
    ensures id in states[j + 1].threads
    ensures states[j + 1].threads[id] == Leased(states[i].owner.memory, states[i].owner.session)
  {
    FoundStaysOnEveryRun(states, steps, i, j, id);
    InvOfEveryRun(states, steps, j);
    assert Enabled(states[j], steps[j]) && states[j + 1] == Apply(states[j], steps[j]);
  }

  /** A thread that has loaded goes on to a lease if and only if its load fell in a publication; only otherwise it fails. */
  lemma AcquireSucceedsIff(states: seq<State>, steps: seq<Step>, i: nat, j: nat, id: nat)
    requires Run(states, steps) && i < j <= |steps| && steps[i] == Load(id) && Waits(steps, i + 1, j, id)
    ensures Enabled(states[j], Take(id)) <==> states[i].owner.Published?
    ensures Enabled(states[j], Fail(id)) <==> !states[i].owner.Published?
  {
    LoadedStays(states, steps, i, j, id);
    InvOfEveryRun(states, steps, i);
    assert Enabled(states[i], steps[i]) && states[i + 1] == Apply(states[i], steps[i]);
    LoadFindsTheMappingIff(states[i], id);
  }

  /** Uninterrupted, acquire gives the published lease and release gives it back; unpublished, acquire leaves no trace. */
  lemma AcquireAndRelease(s: State, id: nat)
    requires Inv(s) && id !in s.threads
    ensures var entered := Apply(s, Enter(id));
            Enabled(entered, Load(id)) && entered.readers == s.readers + 1 &&
            var loaded := Apply(entered, Load(id));
            if s.owner.Published? then
              Enabled(loaded, Take(id)) &&
              var leased := Apply(loaded, Take(id));
              && leased == s.(readers := s.readers + 1, threads := s.threads[id := Leased(s.owner.memory, s.owner.session)])
              && Enabled(leased, Release(id)) && Apply(leased, Release(id)) == s
            else Enabled(loaded, Fail(id)) && Apply(loaded, Fail(id)) == s
  {
    var entered := Apply(s, Enter(id));
    var loaded := Apply(entered, Load(id));
    assert loaded.threads - {id} == s.threads;
    if s.owner.Published? {
      var leased := Apply(loaded, Take(id));
      assert leased.threads == s.threads[id := Leased(s.owner.memory, s.owner.session)];
      assert leased.threads - {id} == s.threads;
    }
  }

  /** With nobody inside, withdraw ends at its first look, and mapping and publishing (m, sid) makes that the lease to be had. */
  lemma WithdrawAndPublish(s: State, m: nat, sid: nat)
    requires Inv(s) && Enabled(s, Withdraw) && s.threads == map[] && m != 0 && m !in s.mapped
    ensures var withdrawn := Apply(Apply(s, Withdraw), Check);
            && withdrawn == s.(memory := 0, owner := Withdrawn) && Enabled(withdrawn, Map(m))
            && var mapped := Apply(withdrawn, Map(m));
               Enabled(mapped, StoreSession(m, sid)) &&
               var stored := Apply(mapped, StoreSession(m, sid));
               && Enabled(stored, StoreMemory)
               && Apply(stored, StoreMemory)
                  == State(m, sid, 0, map[], Published(m, sid), s.mapped + {m}, s.log + [(m, sid)])
  {
  }

  /** Withdrawn memory can be unmapped, and then is. */
  lemma UnmapUnmaps(s: State, m: nat)
    requires Inv(s) && s.owner.Withdrawn?
    ensures Enabled(s, Unmap(m)) && Apply(s, Unmap(m)) == s.(mapped := s.mapped - {m}) && m !in Apply(s, Unmap(m)).mapped
  {
  }

  /** What a publication hands out is what its caller stored, whatever the readers do between its two stores. */
  lemma {:induction false} PublicationIsWhatWasStored(states: seq<State>, steps: seq<Step>, i: nat, j: nat)
    requires Run(states, steps) && i < j <= |steps| && steps[i].StoreSession?
    requires forall k | i < k < j :: steps[k] != StoreMemory
    ensures states[j].owner == Publishing(steps[i].m, steps[i].sid)
    ensures j < |steps| && steps[j] == StoreMemory ==> states[j + 1].owner == Published(steps[i].m, steps[i].sid)
    decreases j
  {
    assert Enabled(states[j - 1], steps[j - 1]) && states[j] == Apply(states[j - 1], steps[j - 1]);
    if j > i + 1 { PublicationIsWhatWasStored(states, steps, i, j - 1); }
    if j < |steps| { assert Enabled(states[j], steps[j]) && states[j + 1] == Apply(states[j], steps[j]); }
  }
}
