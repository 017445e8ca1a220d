/** NS6AudioDriver's entry points on the driver's state. */
module AudioDriver {
  import opened L = ClientLifecycle
  import opened DriverState
  import opened DriverInvariant

  class Driver {
    const clients: array<Client>
    var clientCount: nat
    const keys: array<nat>
    const output: Device
    const input: Device
    var session: bool
    var runtime: bool
    var capture: bool

    predicate Apart()
    {
      output != input && output.clients != input.clients
    }

    predicate Sized()
      reads this`clientCount
    {
      clients.Length == TABLE && clientCount <= TABLE
    }

    /** The rows in use. */
    ghost function Rows(): seq<Client>
      reads this`clientCount, clients
    {
      if clientCount <= clients.Length then clients[..clientCount] else []
    }

    ghost function Abs(): State
      reads this, clients, keys, output, output.clients, input, input.clients
    {
      State(Rows(), keys[..], output.Abs(), input.Abs(), session, runtime, capture)
    }

    ghost predicate Valid()
      reads this, clients, keys, output, output.clients, input, input.clients
    {
      Apart() && Sized() && Consistent(Abs())
    }

    /** The part of the invariant the entry points themselves rely on. */
    ghost predicate Counting()
      reads this`clientCount, output, output.clients, input, input.clients
    {
      Apart() && Sized() && output.Valid() && input.Valid()
    }

    constructor ()
      ensures Valid() && Initial(Abs())
      ensures fresh(clients) && fresh(keys) && fresh(output) && fresh(output.clients) && fresh(input) && fresh(input.clients)
    {
      clients := new Client[TABLE](_ => Client(Output, 0, 0, 0));
      clientCount := 0;
      keys := new nat[TABLE](_ => 0);
      output := new Device();
      input := new Device();
      session, runtime, capture := false, false, false;
      new;
      InitialIsConsistent(Abs());
    }

    method FindClient(side: Side, id: Id) returns (i: nat)
      requires Sized()
      ensures i == Place(Rows(), side, id)
    {
      i := 0;
      while i < clientCount && !Names(clients[i], side, id)
        invariant i <= clientCount && forall j | 0 <= j < i :: !Names(clients[j], side, id)
      {
        i := i + 1;
      }
      assert forall j | 0 <= j < i :: !Names(Rows()[j], side, id);
    }

    /** Writes the starts of one row in use. */
    method WriteStarts(i: nat, starts: nat)
      requires Sized() && i < clientCount
      modifies clients
      ensures Abs() == SetStarts(old(Abs()), i, starts)
    {
      clients[i] := clients[i].(starts := starts);
      assert Rows() == old(Rows())[i := old(clients[i]).(starts := starts)];
    }

    method FindFreeSlot() returns (slot: nat)
      ensures slot == FreeKey(keys[..])
    {
      slot := 0;
      while slot < keys.Length && keys[slot] != 0
        invariant slot <= keys.Length && forall j | 0 <= j < slot :: keys[j] != 0
      {
        slot := slot + 1;
      }
      assert forall j | 0 <= j < slot :: keys[..][j] != 0;
    }

    method SyncInputCapture()
      modifies this`capture
      ensures Abs() == SyncCapture(old(Abs()))
    {
      if runtime { capture := input.activeStarts != 0; }
    }

    /** startHardware with the outcome of opening the session and starting the transport. */
    method OpenHardware(ok: bool)
      requires !session
      modifies this`session, this`runtime, this`capture
      ensures Abs() == StartHardware(old(Abs()), ok)
    {
      session, runtime := ok, ok;
      if ok { capture := input.activeStarts != 0; }
    }

    method CloseHardware()
      modifies this`session, this`runtime
      ensures Abs() == StopHardware(old(Abs()))
    {
      runtime := false;
      session := false;
    }

    method RegisterClient(side: Side, id: Id) returns (ok: bool)
      requires Sized()
      modifies this`clientCount, clients, keys
      ensures Sized() && (Abs(), ok) == AddClient(old(Abs()), side, id)
    {
      var i := FindClient(side, id);
      if i < clientCount { return true; }
      if clientCount == TABLE { return false; }
      var slot := FindFreeSlot();
      if slot == keys.Length { return false; }
      AddRow(Client(side, id, 0, slot));
      keys[slot] := Key(side, id);
      ok := true;
    }

    method AddRow(c: Client)
      requires Sized() && clientCount < TABLE
      modifies this`clientCount, clients
      ensures Sized() && Abs() == old(Abs()).(clients := old(Rows()) + [c])
    {
      clients[clientCount] := c;
      clientCount := clientCount + 1;
      assert Rows() == old(Rows()) + [c];
    }

    /** Counts a start, or takes one back, in the lifecycle of one side. */
    method Count(side: Side, id: Id) returns (ok: bool)
      requires Counting()
      modifies output, output.clients, input, input.clients
      ensures Abs() == With(old(Abs()), side, L.Start(Of(old(Abs()), side), id).0) && ok == L.Start(Of(old(Abs()), side), id).1
      ensures Counting()
    {
      var t;
      if side == Output { t := output.StartIO(id); } else { t := input.StartIO(id); }
      ok := t != Rejected;
    }

    method Uncount(side: Side, id: Id) returns (ok: bool)
      requires Counting()
      modifies output, output.clients, input, input.clients
      ensures Abs() == With(old(Abs()), side, L.Stop(Of(old(Abs()), side), id).0) && ok == L.Stop(Of(old(Abs()), side), id).1
      ensures Counting()
    {
      var t;
      if side == Output { t := output.StopIO(id); } else { t := input.StopIO(id); }
      ok := t != ClientNotActive;
    }

    method Forget(side: Side, id: Id) returns (ok: bool)
      requires Counting()
      modifies output, output.clients, input, input.clients
      ensures Abs() == With(old(Abs()), side, L.Remove(Of(old(Abs()), side), id).0) && ok == L.Remove(Of(old(Abs()), side), id).1
      ensures Counting()
    {
      var t;
      if side == Output { t := output.RemoveClient(id); } else { t := input.RemoveClient(id); }
      ok := t != ClientNotActive;
    }

    method Idle() returns (idle: bool)
      ensures idle == !AnyActive(Abs())
    {
      idle := output.activeStarts == 0 && input.activeStarts == 0;
    }

    method Begin(side: Side, id: Id, hardware: bool) returns (reply: Reply)
      requires Counting() && HardwareOk(Abs())
      modifies this, clients, output, output.clients, input, input.clients
      ensures Sized() && (Abs(), reply) == StartIO(old(Abs()), side, id, hardware)
    {
      var i := FindClient(side, id);
      if i == clientCount { return BadObject; }
      var wasIdle := Idle();
      ghost var before := Abs();
      var ok := Count(side, id);
      if !ok { return BadObject; }
      assert Of(Abs(), side) == L.Start(Of(before, side), id).0;
      reply := Proceed(side, id, i, wasIdle, hardware, before);
    }

    /** The rest of startIO, once the start has been counted in the side's lifecycle. */
    method Proceed(side: Side, id: Id, i: nat, wasIdle: bool, hardware: bool, ghost before: State) returns (reply: Reply)
      requires Counting() && i < clientCount && clients[i].side == side
      requires wasIdle == !AnyActive(before) && (before.session ==> AnyActive(before))
      requires Abs() == With(before, side, Of(Abs(), side))
      modifies this, clients, output, output.clients, input, input.clients
      ensures Sized()
      ensures var started := old(Of(Abs(), side));
              (Abs(), reply) == BeginIO(before, i, started, L.Stop(started, id).0, hardware)
    {
      if wasIdle {
        OpenHardware(hardware);
        if !hardware {
          var ok := Uncount(side, id);
          return HardwareFailed;
        }
      }
      WriteStarts(i, clients[i].starts + 1);
      SyncInputCapture();
      reply := Done;
    }

    method End(side: Side, id: Id)
      requires Counting()
      modifies this, clients, output, output.clients, input, input.clients
      ensures Sized() && Abs() == StopIO(old(Abs()), side, id)
    {
      var i := FindClient(side, id);
      if i == clientCount { return; }
      ghost var before := Abs();
      var ok := Uncount(side, id);
      if !ok { return; }
      Finish(side, i, before);
    }

    /** The rest of stopIO, once the stop has been counted in the side's lifecycle. */
    method Finish(side: Side, i: nat, ghost before: State)
      requires Sized() && i < clientCount && clients[i].side == side && Abs() == With(before, side, Of(Abs(), side))
      modifies this, clients
      ensures Sized() && Abs() == EndIO(before, i, old(Of(Abs(), side)))
    {
      if clients[i].starts != 0 {
        WriteStarts(i, clients[i].starts - 1);
      } else {
        assert before.clients[i := before.clients[i].(starts := 0)] == before.clients;
      }
      SyncInputCapture();
      CloseIfIdle();
    }

    method CloseIfIdle()
      modifies this`session, this`runtime
      ensures Abs() == if AnyActive(old(Abs())) then old(Abs()) else StopHardware(old(Abs()))
    {
      if output.activeStarts == 0 && input.activeStarts == 0 { CloseHardware(); }
    }

    /** Clears the client's activity key and closes the gap in the table. */
    method DropRow(i: nat)
      requires Sized() && i < clientCount
      modifies this`clientCount, clients, keys
      ensures Sized()
      ensures var s := old(Abs());
              var slot := s.clients[i].slot;
              Abs() == s.(keys := if slot < |s.keys| then s.keys[slot := 0] else s.keys, clients := Unlist(s.clients, i))
    {
      if clients[i].slot < keys.Length { keys[clients[i].slot] := 0; }
      CloseGap(i);
    }

    /** The last row takes the place of row i. */
    method CloseGap(i: nat)
      requires Sized() && i < clientCount
      modifies this`clientCount, clients
      ensures Sized() && Abs() == old(Abs()).(clients := Unlist(old(Rows()), i))
    {
      clients[i] := clients[clientCount - 1];
      clientCount := clientCount - 1;
      assert Rows() == Unlist(old(Rows()), i);
    }

    method Unregister(side: Side, id: Id)
      requires Counting()
      modifies this, clients, keys, output, output.clients, input, input.clients
      ensures Sized() && Abs() == RemoveClient(old(Abs()), side, id)
    {
      var i := FindClient(side, id);
      if i == clientCount { return; }
      var wasActive := Forget(side, id);
      DropRow(i);
      SyncAndClose(wasActive);
    }

    method SyncAndClose(wasActive: bool)
      modifies this`capture, this`session, this`runtime
      ensures var t := SyncCapture(old(Abs()));
              Abs() == if wasActive && !AnyActive(t) then StopHardware(t) else t
    {
      SyncInputCapture();
      if wasActive { CloseIfIdle(); }
    }

    method Watch(current: bool, present: bool, hardware: bool)
      modifies this`session, this`runtime, this`capture
      ensures Abs() == Monitor(old(Abs()), current, present, hardware)
    {
      var idle := Idle();
      if idle { return; }
      if session && !current { CloseHardware(); }
      if !session && present { OpenHardware(hardware); }
    }

    /** Any entry point of the driver keeps everything the driver promises. */
    method Handle(call: Call)
      requires Valid()
      modifies this, clients, keys, output, output.clients, input, input.clients
      ensures Valid() && Abs() == Step(old(Abs()), call)
    {
      StepKeepsConsistent(Abs(), call);
      match call
      case Add(side, id) => var ok := RegisterClient(side, id);
      case Drop(side, id) => Unregister(side, id);
      case StartCall(side, id, hardware) => var reply := Begin(side, id, hardware);
      case StopCall(side, id) => End(side, id);
      case Tick(current, present, hardware) => Watch(current, present, hardware);
    }
  }
}
