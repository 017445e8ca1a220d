/** What the two readers make of a completed read, and what they publish. */
module InputReaders {
  import opened Samples24
  import opened Runs
  import opened MidiMessages
  import opened MidiInputParser
  import R = ReadQueue

  type Block = seq<Byte>
  type Read = R.Outcome<Block>

  const AUDIO_SLOTS: nat := 8
  const MIDI_SLOTS: nat := 4

  datatype Status = Success | NoDevice | Stalled | OtherError

  /** How a USB read came back; `cleared` is whether a stall could be cleared. */
  datatype UsbRead = UsbRead(status: Status, cleared: bool, data: Block)

  /** A lost device, or a stall that cannot be cleared. */
  predicate EndsAudio(u: UsbRead) { u.status.NoDevice? || (u.status.Stalled? && !u.cleared) }

  predicate FullReport(u: UsbRead) { u.status.Success? && |u.data| == REPORT }

  /** AudioInputReader hands on what succeeded, and gives up only on a lost device or an uncleared stall. */
  function AudioRead(u: UsbRead): (r: Read)
    ensures r.data == u.data && (r.ok <==> u.status.Success?) && (r.keep <==> !EndsAudio(u))
  {
    R.Outcome(u.status.Success?, !u.status.NoDevice? && (u.status.Stalled? ==> u.cleared), u.data)
  }

  /** MIDIInputReader hands on full reports and gives up on anything else. */
  function MidiRead(u: UsbRead): (r: Read)
    ensures r.data == u.data && (r.ok <==> FullReport(u)) && (r.keep <==> FullReport(u)) && IsMidiRead(r)
  {
    var ok := u.status == Success && |u.data| == REPORT;
    R.Outcome(ok, ok, u.data)
  }

  predicate IsMidiRead(r: Read) { r.keep == r.ok && (r.ok ==> |r.data| == REPORT) }

  /** The data handed on for a delivered read. */
  function DataOf(r: Read): seq<Block> { if r.ok then [r.data] else [] }

  function Published(delivered: seq<Read>): seq<Block> { Concat(DataOf, delivered) }

  /** The MIDI reader feeds successful reports to its parser, also those that complete after an error. */
  function MidiStep(p: seq<Byte>, r: Read): (seq<Byte>, seq<seq<Byte>>) {
    if r.ok then FeedReport(p, r.data) else (p, [])
  }

  /** The results of the first n reads, in submission order. */
  function InOrder(results: map<nat, Read>, n: nat): seq<Read>
    requires forall j: nat | j < n :: j in results
  {
    seq(n, j requires 0 <= j < n => results[j])
  }

  lemma {:induction false} ResultsAreMidi(n: nat, worlds: seq<R.World<Block>>, events: seq<R.Event<Block>>, accepts: R.Accepts, k: nat)
    requires R.Run(n, worlds, events, accepts) && k <= |events|
    requires forall i | 0 <= i < k && events[i].Completion? :: IsMidiRead(events[i].outcome)
    ensures forall j | j in worlds[k].results :: IsMidiRead(worlds[k].results[j])
  {
    if k > 0 {
      ResultsAreMidi(n, worlds, events, accepts, k - 1);
      assert worlds[k] == R.Apply(worlds[k - 1], events[k - 1], accepts);
    }
  }

  lemma MidiStepIsReport(p: seq<Byte>, r: Read)
    ensures MidiStep(p, r) == Run(FeedReport, p, DataOf(r))
  {
    if r.ok {
      RunThen(FeedReport, p, [], p, r.data);
      assert [] + [r.data] == DataOf(r);
    }
  }

  lemma MidiStepsAreReports(p: seq<Byte>, done: seq<Read>)
    ensures Run(MidiStep, p, done) == Run(FeedReport, p, Published(done))
  {
    forall t, r ensures MidiStep(t, r) == Run(FeedReport, t, DataOf(r)) { MidiStepIsReport(t, r); }
    RunVia(MidiStep, FeedReport, DataOf, p, done);
  }

  lemma {:induction false} PublishedAreReports(done: seq<Read>)
    requires forall i | 0 <= i < |done| :: IsMidiRead(done[i])
    ensures forall i | 0 <= i < |Published(done)| :: |Published(done)[i]| == REPORT
  {
    if done != [] {
      var n := |done| - 1;
      PublishedAreReports(done[..n]);
      assert IsMidiRead(done[n]) && Published(done) == Published(done[..n]) + DataOf(done[n]);
    }
  }

  /** Whatever order the reads complete in, what is handed on is the successful data in submission order. */
  lemma PublishedInSubmissionOrder(n: nat, worlds: seq<R.World<Block>>, events: seq<R.Event<Block>>, accepts: R.Accepts, k: nat)
    requires R.Run(n, worlds, events, accepts) && k <= |events|
    ensures var s := worlds[k].reader;
            && (forall j: nat | j < s.nextProcess :: j in worlds[k].results)
            && s.delivered == InOrder(worlds[k].results, s.nextProcess)
  {
    R.EveryRunIsGood(n, worlds, events, accepts, k);
  }

  /**
   * The MIDI published on any run is one pass, without filler, over the payloads of the successful reports in
   * submission order, whatever order they completed in.
   */
  lemma MidiIsParsedInSubmissionOrder(n: nat, worlds: seq<R.World<Block>>, events: seq<R.Event<Block>>, accepts: R.Accepts, k: nat)
    requires R.Run(n, worlds, events, accepts) && k <= |events|
    requires forall i | 0 <= i < k && events[i].Completion? :: IsMidiRead(events[i].outcome)
    ensures var s := worlds[k].reader;
            && (forall j: nat | j < s.nextProcess :: j in worlds[k].results)
            && var reports := Published(InOrder(worlds[k].results, s.nextProcess));
               Run(MidiStep, [], s.delivered) == Run(FeedByte, [], Keep(NotFiller, Concat(Payload, reports)))
  {
    PublishedInSubmissionOrder(n, worlds, events, accepts, k);
    ResultsAreMidi(n, worlds, events, accepts, k);
    var s := worlds[k].reader;
    MidiStepsAreReports([], s.delivered);
    PublishedAreReports(s.delivered);
    ReportsAreOneStream([], Published(s.delivered));
  }

  // ------------------------------------------------------------------ what ends the reading

  /** The data of those of the first n reads that satisfy `hand`, in submission order. */
  function Handed(hand: UsbRead -> bool, usb: nat -> UsbRead, n: nat): seq<Block> {
    if n == 0 then [] else Handed(hand, usb, n - 1) + if hand(usb(n - 1)) then [usb(n - 1).data] else []
  }

  lemma {:induction false} PublishedIsHanded(hand: UsbRead -> bool, usb: nat -> UsbRead, delivered: seq<Read>)
    requires forall j | 0 <= j < |delivered| :: delivered[j].ok == hand(usb(j)) && delivered[j].data == usb(j).data
    ensures Published(delivered) == Handed(hand, usb, |delivered|)
  {
    if delivered != [] { PublishedIsHanded(hand, usb, delivered[..|delivered| - 1]); }
  }

  /**
   * The audio reader, with read j coming back as usb(j): it runs exactly until it is stopped, a read is refused,
   * or it has delivered a lost device or an uncleared stall; any other error only loses its own block. What it has
   * published is the data of the successful reads in submission order.
   */
  lemma AudioRunsUntilDeviceIsLost(worlds: seq<R.World<Block>>, events: seq<R.Event<Block>>, accepts: R.Accepts,
                                   usb: nat -> UsbRead, k: nat)
    requires R.Run(8, worlds, events, accepts) && k <= |events|
    requires forall j | j in worlds[k].results :: worlds[k].results[j] == AudioRead(usb(j))
    ensures var s := worlds[k].reader;
            && (s.running <==> !R.Stopped(events, k) && R.AllAccepted(accepts, 8 + s.nextProcess)
                               && forall j: nat | j < s.nextProcess :: !EndsAudio(usb(j)))
            && Published(s.delivered) == Handed((u: UsbRead) => u.status.Success?, usb, s.nextProcess)
  {
    R.ReadingGoesOnExactlyWhile(AUDIO_SLOTS, worlds, events, accepts, k);
    R.EveryRunIsGood(AUDIO_SLOTS, worlds, events, accepts, k);
    var s := worlds[k].reader;
    assert forall j | 0 <= j < |s.delivered| :: s.delivered[j] == AudioRead(usb(j));
    PublishedIsHanded((u: UsbRead) => u.status.Success?, usb, s.delivered);
  }

  /** The MIDI reader runs exactly until it is stopped, a read is refused, or it has delivered anything but a full report. */
  lemma MidiRunsWhileReportsAreFull(worlds: seq<R.World<Block>>, events: seq<R.Event<Block>>, accepts: R.Accepts,
                                    usb: nat -> UsbRead, k: nat)
    requires R.Run(4, worlds, events, accepts) && k <= |events|
    requires forall j | j in worlds[k].results :: worlds[k].results[j] == MidiRead(usb(j))
    ensures var s := worlds[k].reader;
            && (s.running <==> !R.Stopped(events, k) && R.AllAccepted(accepts, 4 + s.nextProcess)
                               && forall j: nat | j < s.nextProcess :: FullReport(usb(j)))
            && Published(s.delivered) == Handed(FullReport, usb, s.nextProcess)
  {
    R.ReadingGoesOnExactlyWhile(MIDI_SLOTS, worlds, events, accepts, k);
    R.EveryRunIsGood(MIDI_SLOTS, worlds, events, accepts, k);
    var s := worlds[k].reader;
    assert forall j | 0 <= j < |s.delivered| :: s.delivered[j] == MidiRead(usb(j));
    PublishedIsHanded(FullReport, usb, s.delivered);
  }
}
