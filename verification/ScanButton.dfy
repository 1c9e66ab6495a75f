/**
 The air window's feed (`air.rs`, `AirFeed`): the scan button with the deadline that ends every busy state,
 and the note that says whether the picture is live.

 Times are seconds of a monotone clock; each event carries the moment the clock was read at.
 */
module ScanButton {
  import opened Prelude

  const SCAN_BUSY_TIMEOUT: nat := 60

  datatype ScanState =
    | Resting
    | Asking
    | Scanning
    | Refused(why: string)
    | LostTrack(why: string)
    | Unsupported(why: string)
  {
    predicate Busy() { Asking? || Scanning? }
  }

  datatype StreamFrame<A, W> =
    | Air(slice: A)
    | Wifi(own: W)
    | Ready(observing: bool)
    | Observing(observing: bool)
    | Error(message: string)
    | Unrecognized(detail: string)
    | Alive

  datatype BridgeMsg<A, W> = Frame(frame: StreamFrame<A, W>) | Offline(reason: string) | Widened(widened: bool) | Scan(state: ScanState)

  /** What happens to the window: a message off the bridge, a press of the button, a drain tick. */
  datatype Event<A, W> = Message(msg: BridgeMsg<A, W>, now: nat) | Press(now: nat) | Tick(now: nat)

  datatype Feed<A, W> = Feed(
    air: Option<A>, own: Option<W>, offline: Option<string>, paused: bool, airUnsupported: bool,
    scan: ScanState, deadline: Option<nat>)

  const NO_ANSWER: string := "no answer and no slice arrived; the scan may still have run"

  class AirFeed<A(==), W(==)> {
    var air: Option<A>
    var own: Option<W>
    var offline: Option<string>
    var paused: bool
    var airUnsupported: bool
    var scan: ScanState
    var scanDeadline: Option<nat>

    ghost function Now(): Feed<A, W>
      reads this
    {
      Feed(air, own, offline, paused, airUnsupported, scan, scanDeadline)
    }

    constructor ()
      ensures Now() == Fresh()
    {
      air, own, offline, paused, airUnsupported, scan, scanDeadline := None, None, None, false, false, Resting, None;
    }

    method SetScan(state: ScanState, now: nat)
      modifies this`scan, this`scanDeadline
      ensures Now() == old(Now()).(scan := state, deadline := if state.Busy() then Some(now + SCAN_BUSY_TIMEOUT) else None)
    {
      scanDeadline := match state
        case Asking => Some(now + SCAN_BUSY_TIMEOUT)
        case Scanning => Some(now + SCAN_BUSY_TIMEOUT)
        case _ => None;
      scan := state;
    }

    method ExpireScan(now: nat) returns (expired: bool)
      modifies this`scan, this`scanDeadline
      ensures Now() == After(old(Now()), Tick(now))
      ensures expired <==> old(scanDeadline.Some? && scanDeadline.value <= now)
    {
      if scanDeadline.None? {
        return false;
      }
      if now < scanDeadline.value {
        return false;
      }
      SetScan(LostTrack(NO_ANSWER), now);
      return true;
    }

    method Apply(msg: BridgeMsg<A, W>, now: nat)
      modifies this
      ensures Now() == After(old(Now()), Message(msg, now))
    {
      match msg {
        case Frame(frame) =>
          match frame {
            case Air(slice) =>
              offline, air := None, Some(slice);
              if scan.Asking? || scan.Scanning? {
                SetScan(Resting, now);
              }
            case Wifi(w) => offline, own := None, Some(w);
            case Ready(observing) => offline, paused := None, !observing;
            case Observing(observing) => offline, paused := None, !observing;
            case Error(message) => offline := Some("daemon: " + message);
            case Unrecognized(detail) => offline := Some("skipped a frame this bar cannot read: " + detail);
            case Alive => offline := None;
          }
        case Offline(reason) => offline := Some(reason);
        case Widened(widened) => airUnsupported := widened;
        case Scan(state) => SetScan(state, now);
      }
    }

    method Handle(event: Event<A, W>)
      modifies this
      ensures Now() == After(old(Now()), event)
    {
      match event {
        case Message(msg, now) => Apply(msg, now);
        case Press(now) => SetScan(Asking, now);
        case Tick(now) => var _ := ExpireScan(now);
      }
    }

    /** A feed driven through a whole run ends where `Run` says, so what is proved of runs is proved of feeds. */
    method HandleAll(events: seq<Event<A, W>>)
      requires Now() == Fresh()
      modifies this
      ensures Now() == Run(events)
    {
      for i := 0 to |events|
        invariant Now() == Run(events[..i])
      {
        assert events[..i + 1][..i] == events[..i];
        Handle(events[i]);
      }
      assert events[..|events|] == events;
    }
  }

  // ------------------------------------------------------------------------------------- what each event does, field by field

  function Fresh<A, W>(): Feed<A, W> {
    Feed(None, None, None, false, false, Resting, None)
  }

  /** What the scan button is told, if the event tells it anything. */
  ghost function ScanWrite<A, W>(f: Feed<A, W>, e: Event<A, W>): Option<ScanState> {
    match e
    case Press(_) => Some(Asking)
    case Tick(now) => if f.deadline.Some? && f.deadline.value <= now then Some(LostTrack(NO_ANSWER)) else None
    case Message(Scan(state), _) => Some(state)
    case Message(Frame(Air(_)), _) => if f.scan.Busy() then Some(Resting) else None
    case Message(_, _) => None
  }

  /** What the event says of the link: that it lives, or why it does not. */
  ghost function LinkWrite<A, W>(e: Event<A, W>): Option<Option<string>> {
    match e
    case Message(Offline(reason), _) => Some(Some(reason))
    case Message(Frame(Error(message)), _) => Some(Some("daemon: " + message))
    case Message(Frame(Unrecognized(detail)), _) => Some(Some("skipped a frame this bar cannot read: " + detail))
    case Message(Frame(_), _) => Some(None)
    case _ => None
  }

  ghost function After<A, W>(f: Feed<A, W>, e: Event<A, W>): Feed<A, W> {
    var write := ScanWrite(f, e);
    var link := LinkWrite(e);
    Feed(
      if e.Message? && e.msg.Frame? && e.msg.frame.Air? then Some(e.msg.frame.slice) else f.air,
      if e.Message? && e.msg.Frame? && e.msg.frame.Wifi? then Some(e.msg.frame.own) else f.own,
      if link.Some? then link.value else f.offline,
      if e.Message? && e.msg.Frame? && (e.msg.frame.Ready? || e.msg.frame.Observing?) then !e.msg.frame.observing else f.paused,
      if e.Message? && e.msg.Widened? then e.msg.widened else f.airUnsupported,
      if write.Some? then write.value else f.scan,
      if write.None? then f.deadline else if write.value.Busy() then Some(e.now + SCAN_BUSY_TIMEOUT) else None)
  }

  ghost function Run<A, W>(events: seq<Event<A, W>>): Feed<A, W> {
    if events == [] then Fresh() else After(Run(events[..|events| - 1]), events[|events| - 1])
  }

  // ------------------------------------------------------------------------------------- over every run

  /** An event that puts the button into a busy state. */
  predicate WritesBusy<A, W>(e: Event<A, W>) {
    e.Press? || (e.Message? && e.msg.Scan? && e.msg.state.Busy())
  }

  /** The last event of `events` to do so is the `i`-th. */
  ghost predicate LastBusy<A, W>(events: seq<Event<A, W>>, i: int) {
    0 <= i < |events| && WritesBusy(events[i]) && forall j :: i < j < |events| ==> !WritesBusy(events[j])
  }

  /**
   In every run a deadline stands exactly while the button is busy, and it is sixty seconds from the last
   event that made the button busy.
   */
  lemma {:induction false} DeadlineWhileBusy<A, W>(events: seq<Event<A, W>>)
    ensures var f := Run(events);
            && (f.scan.Busy() <==> f.deadline.Some?)
            && (f.scan.Busy() ==> exists i :: LastBusy(events, i) && f.deadline == Some(events[i].now + SCAN_BUSY_TIMEOUT))
  {
    if events != [] {
      var front, last := events[..|events| - 1], events[|events| - 1];
      DeadlineWhileBusy(front);
      var f := Run(events);
      if f.scan.Busy() && !WritesBusy(last) {
        var i :| LastBusy(front, i) && f.deadline == Some(front[i].now + SCAN_BUSY_TIMEOUT);
        assert LastBusy(events, i);
      }
      assert WritesBusy(last) ==> LastBusy(events, |front|);
    }
  }

  /** A tick leaves no busy state whose deadline has passed, and never touches a settled one. */
  lemma {:induction false} TickSettles<A, W>(events: seq<Event<A, W>>, now: nat)
    ensures var (before, f) := (Run(events), Run(events + [Tick(now)]));
            && (f.scan.Busy() ==> before == f && f.deadline.Some? && now < f.deadline.value)
            && (!before.scan.Busy() ==> f == before)
            && (before.scan.Busy() && !f.scan.Busy() ==>
                  f.scan == LostTrack(NO_ANSWER) && before.deadline.Some? && before.deadline.value <= now)
  {
    DeadlineWhileBusy(events);
    assert (events + [Tick(now)])[..|events|] == events;
  }

  ghost predicate OnlyTicks<A, W>(events: seq<Event<A, W>>) {
    forall i :: 0 <= i < |events| ==> events[i].Tick?
  }

  /** With nothing but ticks, the button lets go with the first tick at or past its deadline, and stays settled. */
  lemma {:induction false} BusyEnds<A, W>(events: seq<Event<A, W>>, ticks: seq<Event<A, W>>)
    requires OnlyTicks(ticks)
    ensures var (before, f) := (Run(events), Run(events + ticks));
            && (before.scan.Busy() ==> before.deadline.Some?)
            && (f.scan.Busy() <==>
                  before.scan.Busy() && forall i :: 0 <= i < |ticks| ==> ticks[i].now < before.deadline.value)
    ensures Run(events + ticks).scan.Busy() ==> Run(events + ticks) == Run(events)
  {
    DeadlineWhileBusy(events);
    if ticks == [] {
      assert events + ticks == events;
    } else {
      var front, last := ticks[..|ticks| - 1], ticks[|ticks| - 1];
      BusyEnds(events, front);
      TickSettles(events + front, last.now);
      assert events + ticks == (events + front) + [Tick(last.now)];
      DeadlineWhileBusy(events + front);
      assert forall i :: 0 <= i < |front| ==> ticks[i] == front[i];
      assert ticks[|front|] == last;
    }
  }

  /**
   What a busy button waits for: a slice settles it, and of all other messages only one about the scan touches it.
   A press makes it busy for sixty seconds.
   */
  lemma {:induction false} SliceSettles<A, W>(events: seq<Event<A, W>>, e: Event<A, W>)
    ensures var (before, f) := (Run(events), Run(events + [e]));
            && (e.Message? && e.msg.Frame? && e.msg.frame.Air? ==>
                  && f.air == Some(e.msg.frame.slice) && !f.scan.Busy() && f.deadline.None?
                  && f.scan == (if before.scan == Asking || before.scan == Scanning then Resting else before.scan))
            && (e.Press? ==> f.scan == Asking && f.deadline == Some(e.now + 60))
            && (e.Message? && e.msg.Scan? ==> f.scan == e.msg.state)
            && (e.Message? && !e.msg.Scan? && !(e.msg.Frame? && e.msg.frame.Air?) ==>
                  f.scan == before.scan && f.deadline == before.deadline)
  {
    DeadlineWhileBusy(events);
    assert (events + [e])[..|events|] == events;
  }

  /** Each of the other facts is the one last told: the slice, our own radio, the pause, and what the daemon can do. */
  lemma {:induction false} FactsAreLatest<A, W>(events: seq<Event<A, W>>, i: nat)
    requires i < |events| && events[i].Message?
    ensures var (m, f) := (events[i].msg, Run(events));
            && (m.Frame? && m.frame.Air? && Last(events, i, (n: BridgeMsg<A, W>) => n.Frame? && n.frame.Air?) ==>
                  f.air == Some(m.frame.slice))
            && (m.Frame? && m.frame.Wifi? && Last(events, i, (n: BridgeMsg<A, W>) => n.Frame? && n.frame.Wifi?) ==>
                  f.own == Some(m.frame.own))
            && (m.Frame? && (m.frame.Ready? || m.frame.Observing?) && Last(events, i, SaysObserving) ==>
                  f.paused == !m.frame.observing)
            && (m.Widened? && Last(events, i, (n: BridgeMsg<A, W>) => n.Widened?) ==> f.airUnsupported == m.widened)
  {
    var n := |events| - 1;
    if i < n {
      FactsAreLatest(events[..n], i);
    }
  }

  predicate SaysObserving<A, W>(m: BridgeMsg<A, W>) {
    m.Frame? && (m.frame.Ready? || m.frame.Observing?)
  }

  /** No message after the `i`-th is of the kind. */
  ghost predicate Last<A, W>(events: seq<Event<A, W>>, i: nat, kind: BridgeMsg<A, W> -> bool) {
    forall j :: i < j < |events| && events[j].Message? ==> !kind(events[j].msg)
  }

  /** The note says why the link is down, and any frame that can be read and is no error takes it away. */
  lemma {:induction false} NoteMeans<A, W>(events: seq<Event<A, W>>, e: Event<A, W>)
    ensures var (before, f) := (Run(events), Run(events + [e]));
            && (e.Message? && e.msg.Offline? ==> f.offline == Some(e.msg.reason))
            && (e.Message? && e.msg.Frame? ==> (f.offline.None? <==> !e.msg.frame.Error? && !e.msg.frame.Unrecognized?))
            && (!e.Message? || e.msg.Widened? || e.msg.Scan? ==> f.offline == before.offline)
  {
    assert (events + [e])[..|events|] == events;
  }

  /** The note over the picture is what the last event that knew about the link said. */
  lemma {:induction false} NoteIsLatest<A, W>(events: seq<Event<A, W>>, i: nat)
    requires i < |events| && LinkWrite(events[i]).Some?
    requires forall j :: i < j < |events| ==> LinkWrite(events[j]).None?
    ensures Run(events).offline == LinkWrite(events[i]).value
  {
    var n := |events| - 1;
    if i < n {
      NoteIsLatest(events[..n], i);
    }
  }
}
