/**
 * NS6AudioDriver's client table, the two device lifecycles and the one USB session they share. Every entry point
 * holds the driver's lock, so each is one step; whether the hardware starts is up to the environment.
 */
module DriverState {
  import opened L = ClientLifecycle

  const TABLE: nat := 64

  datatype Side = Output | Input

  type Id = x: nat | x < 0x1_0000_0000

  datatype Client = Client(side: Side, id: Id, starts: nat, slot: nat)

  /** `keys` are the activity slots; `runtime` is the transport object, `capture` its input flag. */
  datatype State = State(
    clients: seq<Client>, keys: seq<nat>, output: Lifecycle, input: Lifecycle,
    session: bool, runtime: bool, capture: bool)

  /** No clients, no activity, no session. */
  predicate Initial(s: State) {
    && s.clients == [] && |s.keys| == TABLE && (forall k | 0 <= k < TABLE :: s.keys[k] == 0)
    && Idle(s.output) && Idle(s.input) && !s.session && !s.runtime
  }

  /** The activity key of a client: device object 2 or 5 above its id. */
  function Key(side: Side, id: Id): (k: nat)
    ensures k != 0
  {
    (if side == Output then 2 else 5) * 0x1_0000_0000 + id
  }

  /** The id is the low word of the key and the device object the high one. */
  lemma KeyParts(side: Side, id: Id)
    ensures Key(side, id) % 0x1_0000_0000 == id && Key(side, id) / 0x1_0000_0000 == if side == Output then 2 else 5
  {
  }

  function Of(s: State, side: Side): Lifecycle { if side == Output then s.output else s.input }

  function With(s: State, side: Side, l: Lifecycle): State {
    if side == Output then s.(output := l) else s.(input := l)
  }

  predicate AnyActive(s: State) { s.output.active != 0 || s.input.active != 0 }

  predicate Names(c: Client, side: Side, id: nat) { c.side == side && c.id == id }

  /** The client's place in the table, or the length of the table. */
  function Place(clients: seq<Client>, side: Side, id: nat): (i: nat)
    ensures i <= |clients| && (i < |clients| ==> Names(clients[i], side, id))
    ensures forall j | 0 <= j < i :: !Names(clients[j], side, id)
  {
    if clients == [] then 0 else if Names(clients[0], side, id) then 0 else 1 + Place(clients[1..], side, id)
  }

  predicate Listed(clients: seq<Client>, side: Side, id: nat) { Place(clients, side, id) < |clients| }

  function FreeKey(keys: seq<nat>): (i: nat)
    ensures i <= |keys| && (i < |keys| ==> keys[i] == 0)
    ensures forall j | 0 <= j < i :: keys[j] != 0
  {
    if keys == [] then 0 else if keys[0] == 0 then 0 else 1 + FreeKey(keys[1..])
  }

  function SyncCapture(s: State): State {
    if s.runtime then s.(capture := s.input.active != 0) else s
  }

  /** startHardware; it makes a new session, so it must not be entered with one open. */
  function StartHardware(s: State, ok: bool): State
    requires !s.session
  {
    if ok then s.(session := true, runtime := true, capture := s.input.active != 0)
    else s.(session := false, runtime := false)
  }

  /** stopHardware: stopping the transport always succeeds, and the session goes even if closing it fails. */
  function StopHardware(s: State): State {
    s.(session := false, runtime := false)
  }

  function SetStarts(s: State, i: nat, starts: nat): State
    requires i < |s.clients|
  {
    s.(clients := s.clients[i := s.clients[i].(starts := starts)])
  }

  function AddClient(s: State, side: Side, id: Id): (State, bool) {
    if Listed(s.clients, side, id) then (s, true)
    else if |s.clients| >= TABLE || FreeKey(s.keys) == |s.keys| then (s, false)
    else
      var slot := FreeKey(s.keys);
      (s.(clients := s.clients + [Client(side, id, 0, slot)], keys := s.keys[slot := Key(side, id)]), true)
  }

  /** The last client takes the place of the removed one. */
  function Unlist(clients: seq<Client>, i: nat): seq<Client>
    requires i < |clients|
  {
    clients[i := clients[|clients| - 1]][..|clients| - 1]
  }

  function RemoveClient(s: State, side: Side, id: Id): State {
    var i := Place(s.clients, side, id);
    if i == |s.clients| then s
    else
      var (l, wasActive) := Remove(Of(s, side), id);
      var slot := s.clients[i].slot;
      var keys := if slot < |s.keys| then s.keys[slot := 0] else s.keys;
      var t := SyncCapture(With(s, side, l).(keys := keys, clients := Unlist(s.clients, i)));
      if wasActive && !AnyActive(t) then StopHardware(t) else t
  }

  datatype Reply = Done | BadObject | HardwareFailed

  /** startIO once the lifecycle has counted the start as `started`; `undone` is the lifecycle with it taken back. */
  function BeginIO(s: State, i: nat, started: Lifecycle, undone: Lifecycle, hardware: bool): (State, Reply)
    requires i < |s.clients| && (s.session ==> AnyActive(s))
  {
    var side, starts := s.clients[i].side, s.clients[i].starts;
    if AnyActive(s) then (SyncCapture(SetStarts(With(s, side, started), i, starts + 1)), Done)
    else
      var t := StartHardware(With(s, side, started), hardware);
      if hardware then (SyncCapture(SetStarts(t, i, starts + 1)), Done) else (With(t, side, undone), HardwareFailed)
  }

  function StartIO(s: State, side: Side, id: Id, hardware: bool): (State, Reply)
    requires s.session ==> AnyActive(s)
  {
    var i := Place(s.clients, side, id);
    if i == |s.clients| then (s, BadObject)
    else
      var (l, ok) := Start(Of(s, side), id);
      if !ok then (s, BadObject) else BeginIO(s, i, l, Stop(l, id).0, hardware)
  }

  function EndIO(s: State, i: nat, stopped: Lifecycle): State
    requires i < |s.clients|
  {
    var t := SyncCapture(SetStarts(With(s, s.clients[i].side, stopped), i, Less(s.clients[i].starts, 1)));
    if stopped.active == 0 && !AnyActive(t) then StopHardware(t) else t
  }

  function StopIO(s: State, side: Side, id: Id): State {
    var i := Place(s.clients, side, id);
    if i == |s.clients| then s
    else
      var (l, ok) := Stop(Of(s, side), id);
      if !ok then s else EndIO(s, i, l)
  }

  /** One turn of monitorUSB: an outdated session is closed, a missing one reopened while clients are active. */
  function Monitor(s: State, current: bool, present: bool, hardware: bool): State {
    if !AnyActive(s) then s
    else
      var t := if s.session && !current then StopHardware(s) else s;
      if !t.session && present then StartHardware(t, hardware) else t
  }

  // ------------------------------------------------------------------ the invariant

  /** The starts of a client as its row shows them; a client without a row has none. */
  function RowStarts(clients: seq<Client>, side: Side, id: nat): nat {
    var i := Place(clients, side, id);
    if i < |clients| then clients[i].starts else 0
  }

  /** Table and lifecycle of a side agree client by client and in total. */
  ghost predicate Agree(clients: seq<Client>, side: Side, l: Lifecycle) {
    && L.Inv(l) && l.active == StartsTotal(clients, side)
    && forall id: nat {:trigger StartsOf(l, id)} :: StartsOf(l, id) == RowStarts(clients, side, id)
  }

  /** The starts the table shows for one device. */
  function StartsTotal(clients: seq<Client>, side: Side): nat {
    if clients == [] then 0
    else StartsTotal(clients[..|clients| - 1], side)
         + if clients[|clients| - 1].side == side then clients[|clients| - 1].starts else 0
  }

  /** One table row per client. */
  predicate Distinct(clients: seq<Client>) {
    forall i, j | 0 <= i < j < |clients| :: clients[i].side != clients[j].side || clients[i].id != clients[j].id
  }

  /** Activity keys and table rows correspond one to one. */
  ghost predicate KeysOk(clients: seq<Client>, keys: seq<nat>) {
    && |keys| == TABLE
    && (forall i | 0 <= i < |clients| :: clients[i].slot < TABLE && keys[clients[i].slot] == Key(clients[i].side, clients[i].id))
    && (forall k {:trigger Owned(clients, k)} | 0 <= k < TABLE && keys[k] != 0 :: Owned(clients, k))
  }

  predicate Owned(clients: seq<Client>, k: nat) { exists i :: 0 <= i < |clients| && clients[i].slot == k }

  /** An open session has a transport and some active client; the transport's input flag is the input's activity. */
  predicate HardwareOk(s: State) {
    && s.runtime == s.session && (s.session ==> AnyActive(s))
    && (s.runtime ==> s.capture == (s.input.active != 0))
  }

  /** The table, the keys and the two lifecycles agree. */
  ghost predicate Tables(clients: seq<Client>, keys: seq<nat>, output: Lifecycle, input: Lifecycle) {
    && |clients| <= TABLE && Distinct(clients) && KeysOk(clients, keys)
    && Agree(clients, Output, output) && Agree(clients, Input, input)
  }

  ghost predicate TableOk(s: State) { Tables(s.clients, s.keys, s.output, s.input) }

  ghost predicate Consistent(s: State) { TableOk(s) && HardwareOk(s) }
}
