/**
 * NS6DeviceSession: I/O callbacks are admitted under the active session id while one caller at a time hands
 * the session over with `begin`. Each atomic operation is one step, atomics are sequentially consistent, and
 * any number of callbacks interleave freely. Id 0 is no session.
 */
module DeviceSession {

  const ATTEMPTS: nat := 100000

  /** Where a callback stands between incrementing and decrementing the in-flight counter. */
  datatype Callback = Counted(id: nat) | Admitted(id: nat) | Refused(id: nat)

  datatype Begin =
    | NoBegin
    | Draining(previous: nat, id: nat, attempt: nat)
    | Drained(previous: nat, id: nat)
    | GivingUp(previous: nat, id: nat)

  datatype State = State(activeId: nat, inFlight: nat, callbacks: map<nat, Callback>, begin: Begin)

  datatype Step =
    | Count(t: nat, id: nat) | Test(t: nat) | Uncount(t: nat) | End(t: nat)
    | Exchange(id: nat) | Attempt | StoreNew | Restore

  predicate Enabled(s: State, step: Step) {
    match step
    case Count(t, id) => t !in s.callbacks && id != 0
    case Test(t) => t in s.callbacks && s.callbacks[t].Counted?
    case Uncount(t) => t in s.callbacks && s.callbacks[t].Refused?
    case End(t) => t in s.callbacks && s.callbacks[t].Admitted?
    case Exchange(id) => s.begin.NoBegin? && id != 0
    case Attempt => s.begin.Draining?
    case StoreNew => s.begin.Drained?
    case Restore => s.begin.GivingUp?
  }

  function Leave(s: State, t: nat): State {
    s.(callbacks := s.callbacks - {t}, inFlight := if s.inFlight == 0 then 0 else s.inFlight - 1)
  }

  function Apply(s: State, step: Step): State
    requires Enabled(s, step)
  {
    match step
    case Count(t, id) => s.(inFlight := s.inFlight + 1, callbacks := s.callbacks[t := Counted(id)])
    case Test(t) =>
      var id := s.callbacks[t].id;
      s.(callbacks := s.callbacks[t := if id != 0 && s.activeId == id then Admitted(id) else Refused(id)])
    case Uncount(t) => Leave(s, t)
    case End(t) => Leave(s, t)
    case Exchange(id) => s.(activeId := 0, begin := Draining(s.activeId, id, 0))
    case Attempt =>
      s.(begin := if s.inFlight == 0 then Drained(s.begin.previous, s.begin.id)
                  else if s.begin.attempt + 1 < ATTEMPTS then s.begin.(attempt := s.begin.attempt + 1)
                  else GivingUp(s.begin.previous, s.begin.id))
    case StoreNew => s.(activeId := s.begin.id, begin := NoBegin)
    case Restore => s.(activeId := s.begin.previous, begin := NoBegin)
  }

  predicate Init(s: State) {
    s.activeId == 0 && s.inFlight == 0 && s.callbacks == map[] && s.begin == NoBegin
  }

  predicate BeginOk(s: State) {
    match s.begin
    case NoBegin => true
    case Draining(_, id, attempt) => s.activeId == 0 && id != 0 && attempt < ATTEMPTS
    case Drained(_, id) => s.activeId == 0 && id != 0
    case GivingUp(_, id) => s.activeId == 0 && id != 0
  }

  /** An admitted callback runs under the active session, or under the one a drain is waiting out. */
  ghost predicate AdmittedOk(s: State) {
    forall t | t in s.callbacks && s.callbacks[t].Admitted? ::
      match s.begin
      case NoBegin => s.callbacks[t].id == s.activeId
      case Draining(previous, _, _) => s.callbacks[t].id == previous
      case Drained(_, _) => false
      case GivingUp(previous, _) => s.callbacks[t].id == previous
  }

  ghost predicate Inv(s: State) {
    && s.inFlight == |s.callbacks| && BeginOk(s) && AdmittedOk(s)
    && forall t | t in s.callbacks :: s.callbacks[t].id != 0
  }

  lemma LeaveKeepsInv(s: State, t: nat)
    requires Inv(s) && t in s.callbacks
    ensures Inv(Leave(s, t))
  {
    assert s.callbacks.Keys == (s.callbacks - {t}).Keys + {t};
  }

  lemma StepKeepsInv(s: State, step: Step)
    requires Inv(s) && Enabled(s, step)
    ensures Inv(Apply(s, step))
  {
    match step
    case Count(t, id) => assert s.callbacks[t := Counted(id)].Keys == s.callbacks.Keys + {t};
    case Test(t) => assert Apply(s, step).callbacks.Keys == s.callbacks.Keys;
    case Uncount(t) => LeaveKeepsInv(s, t);
    case End(t) => LeaveKeepsInv(s, t);
    case Attempt => assert s.inFlight == 0 ==> s.callbacks.Keys == {};
    case _ =>
  }

  ghost predicate Run(states: seq<State>, steps: seq<Step>) {
    && |states| == |steps| + 1 && Init(states[0])
    && forall i | 0 <= i < |steps| :: Enabled(states[i], steps[i]) && states[i + 1] == Apply(states[i], steps[i])
  }

  lemma {:induction false} InvOfEveryRun(states: seq<State>, steps: seq<Step>, n: nat)
    requires Run(states, steps) && n <= |steps|
    ensures Inv(states[n])
  {
    if n > 0 {
      InvOfEveryRun(states, steps, n - 1);
      StepKeepsInv(states[n - 1], steps[n - 1]);
    }
  }

  /**
   * In every reachable state each admitted callback's id is the active id, or no session is active and the
   * begin in progress took that id away.
   */
  lemma AdmittedUnderActiveOrDrainingId(states: seq<State>, steps: seq<Step>, n: nat, t: nat)
    requires Run(states, steps) && n <= |steps| && t in states[n].callbacks && states[n].callbacks[t].Admitted?
    ensures var s := states[n];
            var id := s.callbacks[t].id;
            id == s.activeId || (s.activeId == 0 && (s.begin.Draining? || s.begin.GivingUp?) && s.begin.previous == id)
  {
    InvOfEveryRun(states, steps, n);
  }

  /** When begin succeeds no callback is in flight under any id but the new one. */
  lemma SuccessfulBeginIsClean(states: seq<State>, steps: seq<Step>, n: nat, t: nat)
    requires Run(states, steps) && n < |steps| && steps[n] == StoreNew
    requires t in states[n + 1].callbacks
    ensures !states[n + 1].callbacks[t].Admitted?
  {
    InvOfEveryRun(states, steps, n);
  }

  ghost predicate NoExchange(steps: seq<Step>, i: nat, j: nat)
    requires j <= |steps|
  {
    forall k | i <= k < j :: !steps[k].Exchange?
  }

  ghost predicate NoSuccess(steps: seq<Step>, i: nat, j: nat)
    requires j <= |steps|
  {
    forall k | i <= k < j :: !steps[k].StoreNew?
  }

  /** The id the state stands for: the active one, or the one a begin in progress has taken away. */
  function Standing(s: State): nat { if s.begin.NoBegin? then s.activeId else s.begin.previous }

  /** Only a successful begin changes the session; one that drains or gives up does not. */
  lemma {:induction false} SessionLastsUntilNextSuccess(states: seq<State>, steps: seq<Step>, i: nat, j: nat)
    requires Run(states, steps) && i <= j <= |steps| && NoSuccess(steps, i, j)
    ensures Standing(states[j]) == Standing(states[i])
    decreases j
  {
    if i < j {
      SessionLastsUntilNextSuccess(states, steps, i, j - 1);
      assert Enabled(states[j - 1], steps[j - 1]) && states[j] == Apply(states[j - 1], steps[j - 1]);
    }
  }

  /**
   * A callback admitted at any later point carries the id of the latest successful begin, whatever begins have
   * started, are still draining, or have given up since: no earlier session is ever admitted again.
   */
  lemma OnlyTheNewSessionIsAdmitted(states: seq<State>, steps: seq<Step>, i: nat, j: nat, t: nat)
    requires Run(states, steps) && i < j <= |steps| && steps[i] == StoreNew && NoSuccess(steps, i + 1, j)
    requires t in states[j].callbacks && states[j].callbacks[t].Admitted?
    ensures states[j].callbacks[t].id == states[i].begin.id
  {
    assert Enabled(states[i], steps[i]) && states[i + 1] == Apply(states[i], steps[i]);
    SessionLastsUntilNextSuccess(states, steps, i + 1, j);
    InvOfEveryRun(states, steps, j);
  }

  /** Before the first successful begin nothing is admitted. */
  lemma NothingIsAdmittedBeforeABegin(states: seq<State>, steps: seq<Step>, j: nat, t: nat)
    requires Run(states, steps) && j <= |steps| && NoSuccess(steps, 0, j) && t in states[j].callbacks
    ensures !states[j].callbacks[t].Admitted?
  {
    SessionLastsUntilNextSuccess(states, steps, 0, j);
    InvOfEveryRun(states, steps, j);
  }

  lemma {:induction false} BeginRemembersPrevious(states: seq<State>, steps: seq<Step>, i: nat, j: nat)
    requires Run(states, steps) && i < j <= |steps| && steps[i].Exchange? && NoExchange(steps, i + 1, j)
    requires !states[j].begin.NoBegin?
    ensures states[j].begin.previous == states[i].activeId && states[j].begin.id == steps[i].id
    decreases j
  {
    assert Enabled(states[j - 1], steps[j - 1]) && states[j] == Apply(states[j - 1], steps[j - 1]);
    if i + 1 < j { BeginRemembersPrevious(states, steps, i, j - 1); }
  }

  /** A begin that gives up leaves the session that was active before it. */
  lemma FailedBeginRestoresTheSession(states: seq<State>, steps: seq<Step>, i: nat, j: nat)
    requires Run(states, steps) && i < j < |steps| && steps[i].Exchange? && NoExchange(steps, i + 1, j) && steps[j] == Restore
    ensures states[j + 1].activeId == states[i].activeId
  {
    assert Enabled(states[j], steps[j]) && states[j + 1] == Apply(states[j], steps[j]);
    BeginRemembersPrevious(states, steps, i, j);
  }

  // ------------------------------------------------------------------ what io_begin grants

  /**
   * From a successful begin until the next one, a callback that tests is admitted if and only if it carries the new id
   * and no begin is in progress, and is refused otherwise.
   */
  lemma TestAdmitsIff(states: seq<State>, steps: seq<Step>, i: nat, j: nat, t: nat)
    requires Run(states, steps) && i < j < |steps| && steps[i] == StoreNew && NoSuccess(steps, i + 1, j) && steps[j] == Test(t)
    ensures t in states[j].callbacks && t in states[j + 1].callbacks
    ensures var id := states[j].callbacks[t].id;
            states[j + 1].callbacks[t]
            == if id == states[i].begin.id && states[j].begin.NoBegin? then Admitted(id) else Refused(id)
  {
    assert Enabled(states[i], steps[i]) && states[i + 1] == Apply(states[i], steps[i]);
    assert Enabled(states[j], steps[j]) && states[j + 1] == Apply(states[j], steps[j]);
    SessionLastsUntilNextSuccess(states, steps, i + 1, j);
    InvOfEveryRun(states, steps, j);
  }

  lemma {:induction false} NoBeginUntilExchange(states: seq<State>, steps: seq<Step>, i: nat, j: nat)
    requires Run(states, steps) && i <= j <= |steps| && states[i].begin.NoBegin? && NoExchange(steps, i, j)
    ensures states[j].begin.NoBegin? && NoSuccess(steps, i, j)
    decreases j
  {
    if i < j {
      NoBeginUntilExchange(states, steps, i, j - 1);
      assert Enabled(states[j - 1], steps[j - 1]) && states[j] == Apply(states[j - 1], steps[j - 1]);
    }
  }

  /** While a session is undisturbed, its callbacks are admitted and no others. */
  lemma UndisturbedSessionAdmitsItsOwn(states: seq<State>, steps: seq<Step>, i: nat, j: nat, t: nat)
    requires Run(states, steps) && i < j < |steps| && steps[i] == StoreNew && NoExchange(steps, i + 1, j) && steps[j] == Test(t)
    ensures t in states[j].callbacks && t in states[j + 1].callbacks
    ensures states[j + 1].callbacks[t].Admitted? <==> states[j].callbacks[t].id == states[i].begin.id
  {
    assert Enabled(states[i], steps[i]) && states[i + 1] == Apply(states[i], steps[i]);
    NoBeginUntilExchange(states, steps, i + 1, j);
    TestAdmitsIff(states, steps, i, j, t);
  }

  /** A test during a begin in progress always refuses. */
  lemma TestDuringBeginRefuses(states: seq<State>, steps: seq<Step>, j: nat, t: nat)
    requires Run(states, steps) && j < |steps| && steps[j] == Test(t) && !states[j].begin.NoBegin?
    ensures t in states[j].callbacks && t in states[j + 1].callbacks
    ensures states[j + 1].callbacks[t] == Refused(states[j].callbacks[t].id)
  {
    InvOfEveryRun(states, steps, j);
    assert Enabled(states[j], steps[j]) && states[j + 1] == Apply(states[j], steps[j]);
  }

  /** Uninterrupted, a callback is counted, admitted exactly under the active id, and uncounted without a trace. */
  lemma CallbackComesAndGoes(s: State, t: nat, id: nat)
    requires Inv(s) && t !in s.callbacks && id != 0
    ensures var counted := Apply(s, Count(t, id));
            && counted.inFlight == s.inFlight + 1 && Enabled(counted, Test(t))
            && var tested := Apply(counted, Test(t));
               if id == s.activeId then Enabled(tested, End(t)) && Apply(tested, End(t)) == s
               else Enabled(tested, Uncount(t)) && Apply(tested, Uncount(t)) == s
  {
    var counted := Apply(s, Count(t, id));
    var tested := Apply(counted, Test(t));
    assert counted.callbacks - {t} == s.callbacks && tested.callbacks - {t} == s.callbacks;
  }

  /** With nobody in flight, begin succeeds at its first look and makes the new id the active one. */
  lemma IdleBeginSucceeds(s: State, id: nat)
    requires Inv(s) && s.callbacks == map[] && s.begin.NoBegin? && id != 0
    ensures var drained := Apply(Apply(s, Exchange(id)), Attempt);
            Enabled(drained, StoreNew) && Apply(drained, StoreNew) == s.(activeId := id)
  {
  }

  /** How often the begin in progress has looked at the counter in steps i to j. */
  function Looks(steps: seq<Step>, i: nat, j: nat): (n: nat)
    requires i <= j <= |steps|
    decreases j
  {
    if i == j then 0 else Looks(steps, i, j - 1) + if steps[j - 1] == Attempt then 1 else 0
  }

  /** No look in steps i to j found the counter at zero. */
  ghost predicate AllBusy(states: seq<State>, steps: seq<Step>, i: nat, j: nat)
    requires |states| == |steps| + 1 && j <= |steps|
  {
    forall k | i <= k < j && steps[k] == Attempt :: states[k].inFlight != 0
  }

  /** A begin gives up exactly after 100000 looks that all found callbacks in flight, and drains at the first that finds none. */
  lemma {:induction false} BeginGivesUpIff(states: seq<State>, steps: seq<Step>, i: nat, j: nat)
    requires Run(states, steps) && i < j <= |steps| && steps[i].Exchange?
    requires forall k | i < k < j :: steps[k] != StoreNew && steps[k] != Restore
    ensures match states[j].begin
            case NoBegin => false
            case Draining(_, _, attempt) =>
              attempt == Looks(steps, i + 1, j) < 100000 && AllBusy(states, steps, i + 1, j)
            case GivingUp(_, _) => Looks(steps, i + 1, j) == 100000 && AllBusy(states, steps, i + 1, j)
            case Drained(_, _) => Looks(steps, i + 1, j) <= 100000 && !AllBusy(states, steps, i + 1, j)
    decreases j
  {
    assert Enabled(states[j - 1], steps[j - 1]) && states[j] == Apply(states[j - 1], steps[j - 1]);
    if j > i + 1 { BeginGivesUpIff(states, steps, i, j - 1); }
  }
}
