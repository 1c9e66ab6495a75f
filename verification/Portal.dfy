/**
 The captive-portal prober (`portal.rs`) and its scheduler (`schedule.rs`): route events arm a series of
 attempts, and each due attempt is spent, deferred or withheld while the pause flag and the probing tier
 change underneath it.

 The world is a list of turns of the loop's `select!`. Each read of a shared flag, of the clock and of the
 network is a value the turn carries, so a run may see any interleaving with the threads that write them.
 Times are seconds of a monotone clock.
 */
module Portal {
  import opened Prelude

  const SERIES_DELAYS: seq<nat> := [3, 10, 30, 60]
  const WATCH_INTERVAL: nat := 60
  const WATCH_SKIP_LIMIT: nat := 10
  const PAUSE_RETRY: nat := 15
  const WITHHELD: string := "withheld: passive probing tier"

  datatype Verdict = Clean | Intercepted | Skip

  datatype Phase = Idle | Series(iface: string, attempt: nat) | Watch(iface: string, skips: nat)

  datatype Tier = Passive | Active {
    predicate EmitsCaptiveProbe() { Active? }
  }

  datatype RouteEvent = RouteEvent(kind: string, iface: Option<string>, detail: string)

  /** What `http::read_response` makes of an answer. */
  datatype Reading = Success | Redirect(loginUrl: Option<string>, shape: string) | Unreadable(reason: string)

  datatype PortalSample =
    PortalSample(tsUs: int, iface: string, verdict: Verdict, loginUrl: Option<string>, reason: Option<string>)

  /** The two shared flags. */
  datatype Flags = Flags(observing: bool, tier: Tier)

  /**
   One due attempt as the world lets it go: the shared flags as read before the probe, as they stood while it
   was in flight, and as read after it; and the clock.
   */
  datatype Attempt = Attempt(
    begun: nat, before: Flags, tsUs: int, fetched: Result<seq<Byte>, string>, during: seq<Flags>, after: Flags,
    accepted: bool, ended: nat)
  {
    /** Observation was on and the tier the same at both ends of the probe. */
    predicate Steady() { before.observing && after.observing && before.tier == after.tier }

    /** No pause and no tier switch fell anywhere in it. */
    ghost predicate Undisturbed() { before.observing && after == before && forall f :: f in during ==> f == before }

    /** Something goes on the wire. */
    predicate Probes() { before.observing && before.tier.EmitsCaptiveProbe() }
  }

  /** One turn of the loop: a route event (`None` when the tap closed), or the timer. */
  datatype Turn = Route(event: Option<RouteEvent>, now: nat) | Timer(attempt: Attempt)

  // ------------------------------------------------------------------------------------- the scheduler

  predicate Scheduled(p: Phase) {
    match p
    case Idle => true
    case Series(_, attempt) => attempt < |SERIES_DELAYS|
    case Watch(_, skips) => skips < WATCH_SKIP_LIMIT
  }

  function TargetOf(p: Phase): Option<string> {
    if p.Idle? then None else Some(p.iface)
  }

  /** The phase after an attempt that read `v`. */
  function After(p: Phase, v: Verdict): Phase {
    match (p, v)
    case (Idle, _) => Idle
    case (_, Clean) => Idle
    case (_, Intercepted) => Watch(p.iface, 0)
    case (Series(iface, attempt), Skip) => if attempt + 1 < |SERIES_DELAYS| then Series(iface, attempt + 1) else Idle
    case (Watch(iface, skips), Skip) => if skips + 1 < WATCH_SKIP_LIMIT then Watch(iface, skips + 1) else Idle
  }

  /** The pause a phase has just been entered with. */
  function PauseOf(p: Phase): Option<nat>
    requires Scheduled(p)
  {
    match p
    case Idle => None
    case Series(_, attempt) => Some(SERIES_DELAYS[attempt])
    case Watch(_, _) => Some(WATCH_INTERVAL)
  }

  class Scheduler {
    var phase: Phase

    constructor ()
      ensures phase == Idle
    {
      phase := Idle;
    }

    function Target(): Option<string>
      reads this
    {
      TargetOf(phase)
    }

    method OnTrigger(iface: string) returns (delay: nat)
      modifies this
      ensures phase == Series(iface, 0) && delay == SERIES_DELAYS[0]
    {
      phase := Series(iface, 0);
      return SERIES_DELAYS[0];
    }

    method OnAttemptDone(verdict: Verdict) returns (delay: Option<nat>)
      requires Scheduled(phase)
      modifies this
      ensures phase == After(old(phase), verdict) && Scheduled(phase) && delay == PauseOf(phase)
    {
      var was := phase;
      phase := Idle;
      if verdict.Clean? || was.Idle? {
        return None;
      }
      if verdict.Intercepted? {
        phase := Watch(was.iface, 0);
        return Some(WATCH_INTERVAL);
      }
      match was {
        case Series(iface, attempt) =>
          var next := attempt + 1;
          if next >= |SERIES_DELAYS| {
            return None;
          }
          phase := Series(iface, next);
          return Some(SERIES_DELAYS[next]);
        case Watch(iface, skips) =>
          if skips + 1 >= WATCH_SKIP_LIMIT {
            return None;
          }
          phase := Watch(iface, skips + 1);
          return Some(WATCH_INTERVAL);
      }
    }
  }

  // ------------------------------------------------------------------------------------- what a run amounts to

  predicate StartsWith(s: string, prefix: string) {
    |prefix| <= |s| && s[..|prefix|] == prefix
  }

  /** The interface a route event arms a series on. */
  function SeriesTrigger(e: RouteEvent): Option<string> {
    if e.iface.Some? && StartsWith(e.iface.value, "en") && e.kind == "addr" && e.detail == "RTM_NEWADDR" then e.iface
    else None
  }

  /** `attempt_fields`: an answer as a verdict, a login page and a reason. */
  function AttemptFields(read: seq<Byte> -> Reading, fetched: Result<seq<Byte>, string>)
    : (Verdict, Option<string>, Option<string>)
  {
    match fetched
    case Err(reason) => (Skip, None, Some(reason))
    case Ok(bytes) =>
      match read(bytes)
      case Success => (Clean, None, None)
      case Redirect(loginUrl, shape) => (Intercepted, loginUrl, Some(shape))
      case Unreadable(reason) => (Skip, None, Some(reason))
  }

  /** What one turn came to. */
  datatype Entry =
    | Ignored
    | Armed(at: nat, iface: string)
    | Deferred(iface: string, attempt: Attempt)
    | Delivered(attempt: Attempt, sample: PortalSample)
    | Undelivered(iface: string, attempt: Attempt)
    | Closed
  {
    predicate Attempted() { Deferred? || Delivered? || Undelivered? }

    predicate Ends() { Closed? || Undelivered? }
  }

  /** The scheduler's phase, from triggers and delivered samples alone. */
  function Replay(log: seq<Entry>): (p: Phase)
    ensures Scheduled(p)
  {
    if log == [] then Idle
    else
      var last := log[|log| - 1];
      var before := Replay(log[..|log| - 1]);
      match last
      case Armed(_, iface) => Series(iface, 0)
      case Delivered(_, sample) => After(before, sample.verdict)
      case _ => before
  }

  /** When the next attempt is due: the retry interval after a deferral, else the scheduler's pause. */
  function Due(log: seq<Entry>): Option<nat> {
    if log == [] then None
    else
      var last := log[|log| - 1];
      match last
      case Armed(at, _) => Some(at + SERIES_DELAYS[0])
      case Deferred(_, attempt) => Some(attempt.ended + PAUSE_RETRY)
      case Delivered(attempt, _) =>
        var pause := PauseOf(Replay(log));
        if pause.None? then None else Some(attempt.ended + pause.value)
      case _ => Due(log[..|log| - 1])
  }

  function SamplesOf(log: seq<Entry>): seq<PortalSample> {
    if log == [] then []
    else
      var last := log[|log| - 1];
      SamplesOf(log[..|log| - 1]) + if last.Delivered? then [last.sample] else []
  }

  /** The interfaces probed on the wire. */
  function AskedOf(log: seq<Entry>): seq<string> {
    if log == [] then []
    else
      var last := log[|log| - 1];
      AskedOf(log[..|log| - 1]) +
      match last
      case Deferred(iface, a) => if a.Probes() then [iface] else []
      case Undelivered(iface, a) => if a.Probes() then [iface] else []
      case Delivered(a, sample) => if a.Probes() then [sample.iface] else []
      case _ => []
  }

  /** Whether the loop is still turning. */
  ghost predicate Running(log: seq<Entry>) {
    forall i :: 0 <= i < |log| ==> !log[i].Ends()
  }

  lemma {:induction false} LogOne(log: seq<Entry>, e: Entry)
    ensures (log + [e])[..|log|] == log
    ensures Running(log + [e]) <==> Running(log) && !e.Ends()
  {
    assert (log + [e])[|log|] == e;
    if Running(log + [e]) {
      forall i | 0 <= i < |log| ensures !log[i].Ends() {
        assert (log + [e])[i] == log[i];
      }
    }
  }

  /** What the world's turn comes to after `log`. */
  ghost function EntryFor(read: seq<Byte> -> Reading, log: seq<Entry>, turn: Turn): Entry {
    match turn
    case Route(event, now) =>
      if event.None? then Closed
      else
        var iface := SeriesTrigger(event.value);
        if iface.Some? then Armed(now, iface.value) else Ignored
    case Timer(a) =>
      if Due(log).None? || a.begun < Due(log).value || TargetOf(Replay(log)).None? then Ignored
      else
        var iface := TargetOf(Replay(log)).value;
        if !a.Steady() then Deferred(iface, a)
        else if !a.accepted then Undelivered(iface, a)
        else
          var (verdict, loginUrl, reason) :=
            if a.before.tier.EmitsCaptiveProbe() then AttemptFields(read, a.fetched) else (Skip, None, Some(WITHHELD));
          Delivered(a, PortalSample(a.tsUs, iface, verdict, loginUrl, reason))
  }

  /** The log of a whole run; a turn after the loop has ended comes to nothing. */
  ghost function Trace(read: seq<Byte> -> Reading, turns: seq<Turn>): (log: seq<Entry>)
    ensures |log| == |turns|
  {
    if turns == [] then []
    else
      var before := Trace(read, turns[..|turns| - 1]);
      before + [if Running(before) then EntryFor(read, before, turns[|turns| - 1]) else Ignored]
  }

  // ------------------------------------------------------------------------------------- the loop

  class Prober {
    const sched: Scheduler
    const read: seq<Byte> -> Reading
    var deadline: Option<nat>
    var samples: seq<PortalSample>
    var asked: seq<string>
    ghost var log: seq<Entry>

    /** The loop's variables are what its log says, and a deadline stands exactly while a probe is scheduled. */
    ghost predicate Valid()
      reads this, sched
    {
      && sched.phase == Replay(log)
      && deadline == Due(log)
      && samples == SamplesOf(log)
      && asked == AskedOf(log)
      && (deadline.Some? <==> sched.Target().Some?)
    }

    constructor (read: seq<Byte> -> Reading)
      ensures Valid() && log == [] && this.read == read && fresh(sched)
    {
      var scheduler := new Scheduler();
      sched := scheduler;
      this.read := read;
      deadline, samples, asked, log := None, [], [], [];
    }

    method OnRoute(event: Option<RouteEvent>, now: nat) returns (running: bool)
      requires Valid() && Running(log)
      modifies this, sched
      ensures Valid() && log == old(log) + [EntryFor(read, old(log), Route(event, now))]
      ensures running <==> Running(log)
    {
      ghost var e := EntryFor(read, log, Route(event, now));
      LogOne(log, e);
      log := log + [e];
      if event.None? {
        return false;
      }
      var iface := SeriesTrigger(event.value);
      if iface.Some? {
        var delay := sched.OnTrigger(iface.value);
        deadline := Some(now + delay);
      }
      return true;
    }

    method OnTimer(a: Attempt) returns (running: bool)
      requires Valid() && Running(log)
      requires deadline.Some? && deadline.value <= a.begun
      modifies this, sched
      ensures Valid() && log == old(log) + [EntryFor(read, old(log), Timer(a))]
      ensures running <==> Running(log)
    {
      ghost var e := EntryFor(read, log, Timer(a));
      LogOne(log, e);
      log := log + [e];
      var target := sched.Target();
      if target.None? {
        // The source clears the deadline here; `Valid` says it never gets the chance.
        assert false;
      }
      var iface := target.value;
      if !a.before.observing {
        deadline := Some(a.ended + PAUSE_RETRY);
        return true;
      }
      var verdict, loginUrl, reason := Skip, None, Some(WITHHELD);
      if a.before.tier.EmitsCaptiveProbe() {
        asked := asked + [iface];
        var fields := AttemptFields(read, a.fetched);
        verdict, loginUrl, reason := fields.0, fields.1, fields.2;
      }
      if !a.after.observing || a.after.tier != a.before.tier {
        deadline := Some(a.ended + PAUSE_RETRY);
        return true;
      }
      if !a.accepted {
        return false;
      }
      samples := samples + [PortalSample(a.tsUs, iface, verdict, loginUrl, reason)];
      var delay := sched.OnAttemptDone(verdict);
      deadline := if delay.Some? then Some(a.ended + delay.value) else None;
      return true;
    }

    /** One turn of the loop, if it is still turning; a timer that is not due does not fire. */
    method Take(turn: Turn, running: bool) returns (still: bool)
      requires Valid() && (running <==> Running(log))
      modifies this, sched
      ensures Valid() && (still <==> Running(log))
      ensures log == old(log) + [if running then EntryFor(read, old(log), turn) else Ignored]
    {
      if running && turn.Route? {
        still := OnRoute(turn.event, turn.now);
      } else if running && deadline.Some? && deadline.value <= turn.attempt.begun {
        still := OnTimer(turn.attempt);
      } else {
        LogOne(log, Ignored);
        log := log + [Ignored];
        still := running;
      }
    }

    /** Drive the prober through the turns the world takes, until the pipeline goes away. */
    method Run(turns: seq<Turn>)
      requires Valid() && log == []
      modifies this, sched
      ensures Valid() && log == Trace(read, turns)
    {
      var running := true;
      for i := 0 to |turns|
        invariant Valid() && log == Trace(read, turns[..i])
        invariant running <==> Running(log)
      {
        TraceNext(read, turns, i);
        running := Take(turns[i], running);
      }
      assert turns[..|turns|] == turns;
    }
  }

  lemma {:induction false} TraceNext(read: seq<Byte> -> Reading, turns: seq<Turn>, i: nat)
    requires i < |turns|
    ensures var before := Trace(read, turns[..i]);
            Trace(read, turns[..i + 1]) == before + [if Running(before) then EntryFor(read, before, turns[i]) else Ignored]
  {
    assert turns[..i + 1][..i] == turns[..i];
  }

  // ------------------------------------------------------------------------------------- over every run

  /** An armed series is never lost: in every run a deadline stands exactly while a probe is scheduled. */
  lemma {:induction false} DueWhileScheduled(read: seq<Byte> -> Reading, turns: seq<Turn>)
    ensures var log := Trace(read, turns); Due(log).Some? <==> Replay(log) != Idle
  {
    if turns != [] {
      var before := Trace(read, turns[..|turns| - 1]);
      var log := Trace(read, turns);
      DueWhileScheduled(read, turns[..|turns| - 1]);
      assert log[..|log| - 1] == before;
    }
  }

  lemma {:induction false} TraceAt(read: seq<Byte> -> Reading, turns: seq<Turn>, i: nat)
    requires i < |turns|
    ensures Trace(read, turns)[..i] == Trace(read, turns[..i])
    ensures Trace(read, turns)[i] ==
              if Running(Trace(read, turns[..i])) then EntryFor(read, Trace(read, turns[..i]), turns[i]) else Ignored
  {
    var n := |turns| - 1;
    assert Trace(read, turns)[..n] == Trace(read, turns[..n]);
    if i < n {
      TraceAt(read, turns[..n], i);
      assert turns[..n][..i] == turns[..i];
      assert Trace(read, turns)[..i] == Trace(read, turns[..n])[..i];
    }
  }

  /**
   A sample lands in the record only from a probe that saw observation on and one tier at both its ends; on
   the passive tier it is the withheld SKIP and nothing went on the wire.
   */
  lemma {:induction false} SamplesAreSteady(read: seq<Byte> -> Reading, turns: seq<Turn>, i: nat)
    requires i < |turns| && Trace(read, turns)[i].Delivered?
    ensures turns[i].Timer? && turns[i].attempt.Steady() && turns[i].attempt.accepted
    ensures var (a, sample) := (turns[i].attempt, Trace(read, turns)[i].sample);
            && Trace(read, turns)[i].attempt == a
            && sample.tsUs == a.tsUs
            && TargetOf(Replay(Trace(read, turns[..i]))) == Some(sample.iface)
            && (a.after.tier.Passive? ==> !a.Probes() && sample.verdict.Skip? && sample.reason == Some(WITHHELD))
            && (a.after.tier.Active? ==> a.Probes())
            && (a.after.tier.Active? ==> SaysWhatWasRead(read, a.fetched, sample))
  {
    TraceAt(read, turns, i);
  }

  /** What a sample says of the answer: clean or a portal exactly if it read so, and otherwise why there is no reading. */
  ghost predicate SaysWhatWasRead(read: seq<Byte> -> Reading, fetched: Result<seq<Byte>, string>, s: PortalSample) {
    var answer := if fetched.Ok? then read(fetched.value) else Unreadable(fetched.error);
    && (s.verdict == Clean <==> answer == Success)
    && (s.verdict == Intercepted <==> exists login, shape :: answer == Redirect(login, shape))
    && (answer.Redirect? ==> s.loginUrl == answer.loginUrl && s.reason == Some(answer.shape))
    && (answer.Unreadable? ==> s.verdict == Skip && s.loginUrl == None && s.reason == Some(answer.reason))
    && (answer.Success? ==> s.loginUrl == None && s.reason == None)
  }

  /**
   A due attempt is delivered exactly when it is steady and its sample has a reader; otherwise nothing of the
   schedule is spent.
   */
  lemma {:induction false} SteadyIsDelivered(read: seq<Byte> -> Reading, turns: seq<Turn>, a: Attempt)
    requires Running(Trace(read, turns)) && Replay(Trace(read, turns)) != Idle
    requires Due(Trace(read, turns)).Some? ==> Due(Trace(read, turns)).value <= a.begun
    ensures var log := Trace(read, turns + [Timer(a)]);
            && (log[|turns|].Delivered? <==> a.Steady() && a.accepted)
            && (log[|turns|].Deferred? <==> !a.Steady())
            && (if log[|turns|].Delivered?
                then Some(log[|turns|].sample.iface) == TargetOf(Replay(Trace(read, turns)))
                  && Replay(log) == After(Replay(Trace(read, turns)), log[|turns|].sample.verdict)
                else Replay(log) == Replay(Trace(read, turns)))
            && (a.Undisturbed() && a.accepted ==> log[|turns|].Delivered?)
  {
    DueWhileScheduled(read, turns);
    assert (turns + [Timer(a)])[..|turns|] == turns;
    var log := Trace(read, turns + [Timer(a)]);
    assert log[..|turns|] == Trace(read, turns);
  }

  /**
   The source means to drop every probe a pause or a tier switch fell into, but it compares the ends: a probe
   is kept though it was disturbed when both flags are back by the time they are read again.
   */
  lemma {:induction false} DisturbedYetDelivered(read: seq<Byte> -> Reading)
    returns (turns: seq<Turn>)
    ensures |turns| == 2 && turns[1].Timer? && !turns[1].attempt.Undisturbed()
    ensures Trace(read, turns)[1].Delivered?
  {
    var on, paused := Flags(true, Active), Flags(false, Active);
    var a := Attempt(3, on, 0, Err("timed out"), [paused], on, true, 4);
    var trigger := Route(Some(RouteEvent("addr", Some("en0"), "RTM_NEWADDR")), 0);
    assert paused in a.during;
    ArmedBy(read, trigger, "en0");
    SteadyIsDelivered(read, [trigger], a);
    turns := [trigger] + [Timer(a)];
  }

  /** What a run has come to: the phase, whether an attempt is due, the samples delivered and the interfaces probed. */
  function Standing(log: seq<Entry>): (Phase, bool, seq<PortalSample>, seq<string>) {
    (Replay(log), Due(log).Some?, SamplesOf(log), AskedOf(log))
  }

  /**
   The source says that the series still advances through a pause; the code spends nothing of it. However many
   attempts fall due while observation is off, the phase is where the pause found it, and a deadline still stands.
   */
  lemma {:induction false} PauseSpendsNothing(read: seq<Byte> -> Reading, turns: seq<Turn>, from: nat)
    requires from <= |turns|
    requires forall i :: from <= i < |turns| ==> turns[i].Timer? && !turns[i].attempt.before.observing
    ensures Standing(Trace(read, turns)) == Standing(Trace(read, turns[..from]))
  {
    if from < |turns| {
      var n := |turns| - 1;
      PauseSpendsNothing(read, turns[..n], from);
      assert turns[..n][..from] == turns[..from];
      PausedNext(read, turns);
    } else {
      assert turns[..from] == turns;
    }
  }

  lemma {:induction false} PausedNext(read: seq<Byte> -> Reading, turns: seq<Turn>)
    requires turns != [] && turns[|turns| - 1].Timer? && !turns[|turns| - 1].attempt.before.observing
    ensures Standing(Trace(read, turns)) == Standing(Trace(read, turns[..|turns| - 1]))
  {
    var n := |turns| - 1;
    var before := Trace(read, turns[..n]);
    StandsStill(before, if Running(before) then EntryFor(read, before, turns[n]) else Ignored);
  }

  /** A turn that comes to nothing, or a due attempt deferred with nothing on the wire, changes nothing. */
  lemma {:induction false} StandsStill(log: seq<Entry>, e: Entry)
    requires e.Ignored? || (e.Deferred? && !e.attempt.Probes() && Due(log).Some?)
    ensures Standing(log + [e]) == Standing(log)
  {
    var more := log + [e];
    assert more[..|log|] == log && more[|log|] == e;
    assert SamplesOf(log) + [] == SamplesOf(log) && AskedOf(log) + [] == AskedOf(log);
  }

  lemma {:induction false} ArmedBy(read: seq<Byte> -> Reading, trigger: Turn, iface: string)
    requires trigger.Route? && trigger.event.Some? && SeriesTrigger(trigger.event.value) == Some(iface)
    ensures Trace(read, [trigger]) == [Armed(trigger.now, iface)]
    ensures Replay([Armed(trigger.now, iface)]) == Series(iface, 0)
    ensures Due([Armed(trigger.now, iface)]) == Some(trigger.now + SERIES_DELAYS[0])
  {
    assert [trigger][..0] == [];
  }

  /** A series is armed by a fresh address on a physical interface and by nothing else. */
  lemma {:induction false} FreshAddressArms(read: seq<Byte> -> Reading, turns: seq<Turn>, i: nat)
    requires i < |turns| && Running(Trace(read, turns[..i]))
    ensures Trace(read, turns)[i].Armed? <==>
              && turns[i].Route? && turns[i].event.Some? && turns[i].event.value.iface.Some?
              && var e := turns[i].event.value;
                 && e.kind == "addr" && e.detail == "RTM_NEWADDR"
                 && |e.iface.value| >= 2 && e.iface.value[0] == 'e' && e.iface.value[1] == 'n'
    ensures Trace(read, turns)[i].Armed? ==>
              Trace(read, turns)[i] == Armed(turns[i].now, turns[i].event.value.iface.value)
  {
    TraceAt(read, turns, i);
  }

  /** From entry `from` on, every entry delivered a SKIP. */
  ghost predicate OnlySkips(log: seq<Entry>, from: nat) {
    forall i :: from <= i < |log| ==> log[i].Delivered? && log[i].sample.verdict.Skip?
  }

  /** The series after a trigger: attempts 3, 10, 30 and 60 s apart as long as there is no reading, and then none. */
  lemma {:induction false} SeriesSchedule(log: seq<Entry>, from: nat)
    requires 0 < from <= |log| <= from + 4 && log[from - 1].Armed? && OnlySkips(log, from)
    ensures Due(log) == if |log| == from + 4 then None else Some(EndedAt(log[|log| - 1]) + [3, 10, 30, 60][|log| - from])
    ensures Replay(log) == if |log| == from + 4 then Idle else Series(log[from - 1].iface, |log| - from)
  {
    if from < |log| {
      SeriesSchedule(log[..|log| - 1], from);
    }
  }

  /** The watch after a portal was read: every 60 s on the same interface, until ten attempts in a row had no reading. */
  lemma {:induction false} WatchSchedule(log: seq<Entry>, from: nat, iface: string)
    requires 0 < from <= |log| <= from + 10 && log[from - 1].Delivered? && log[from - 1].sample.verdict.Intercepted?
    requires TargetOf(Replay(log[..from - 1])) == Some(iface) && OnlySkips(log, from)
    ensures Due(log) == if |log| == from + 10 then None else Some(EndedAt(log[|log| - 1]) + 60)
    ensures Replay(log) == if |log| == from + 10 then Idle else Watch(iface, |log| - from)
  {
    if from < |log| {
      assert log[..|log| - 1][..from - 1] == log[..from - 1];
      WatchSchedule(log[..|log| - 1], from, iface);
    } else {
      assert log[..|log| - 1] == log[..from - 1];
    }
  }

  /** A clean answer ends whatever was scheduled. */
  lemma {:induction false} CleanEnds(log: seq<Entry>)
    requires log != [] && log[|log| - 1].Delivered? && log[|log| - 1].sample.verdict.Clean?
    ensures Replay(log) == Idle && Due(log) == None
  {
  }

  /** The pause an entry puts before the next attempt. */
  function PauseAfter(log: seq<Entry>): nat
    requires log != []
  {
    var last := log[|log| - 1];
    if last.Armed? then SERIES_DELAYS[0]
    else if last.Deferred? then PAUSE_RETRY
    else if last.Delivered? && PauseOf(Replay(log)).Some? then PauseOf(Replay(log)).value
    else 0
  }

  function EndedAt(e: Entry): nat {
    match e
    case Armed(at, _) => at
    case Deferred(_, a) => a.ended
    case Undelivered(_, a) => a.ended
    case Delivered(a, _) => a.ended
    case _ => 0
  }

  predicate Timed(e: Entry) {
    e.Armed? || e.Attempted()
  }

  lemma {:induction false} DueSince(log: seq<Entry>, i: nat)
    requires i < |log| && (log[i].Armed? || log[i].Deferred? || log[i].Delivered?)
    requires forall k :: i < k < |log| ==> !Timed(log[k])
    requires Due(log).Some?
    ensures Due(log) == Some(EndedAt(log[i]) + PauseAfter(log[..i + 1]))
  {
    var n := |log| - 1;
    if i < n {
      DueSince(log[..n], i);
      assert log[..n][..i + 1] == log[..i + 1];
    } else {
      assert log[..i + 1] == log;
    }
  }

  /** Whatever becomes of it, no attempt begins before the pause its predecessor left has passed. */
  lemma {:induction false} AttemptsArePaced(read: seq<Byte> -> Reading, turns: seq<Turn>, i: nat, j: nat)
    requires i < j < |turns|
    requires Timed(Trace(read, turns)[i]) && Trace(read, turns)[j].Attempted()
    requires forall k :: i < k < j ==> !Timed(Trace(read, turns)[k])
    ensures turns[j].Timer?
    ensures turns[j].attempt.begun >= EndedAt(Trace(read, turns)[i]) + PauseAfter(Trace(read, turns)[..i + 1])
    ensures PauseAfter(Trace(read, turns)[..i + 1]) >= SERIES_DELAYS[0]
  {
    var all := Trace(read, turns);
    TraceAt(read, turns, j);
    var log := all[..j];
    assert log[i] == all[i];
    assert !all[i].Undelivered?;
    DueSince(log, i);
    assert log[..i + 1] == all[..i + 1];
    SamePhase(log, i);
    DueWhileScheduled(read, turns[..j]);
    DueAtOne(all[..i + 1]);
  }

  lemma {:induction false} DueAtOne(log: seq<Entry>)
    requires log != [] && Timed(log[|log| - 1]) && !log[|log| - 1].Undelivered?
    requires log[|log| - 1].Delivered? ==> Replay(log) != Idle
    ensures PauseAfter(log) >= SERIES_DELAYS[0]
  {
  }

  lemma {:induction false} SamePhase(log: seq<Entry>, i: nat)
    requires i < |log| && forall k :: i < k < |log| ==> !Timed(log[k])
    ensures Replay(log) == Replay(log[..i + 1])
  {
    var n := |log| - 1;
    if i < n {
      SamePhase(log[..n], i);
      assert log[..n][..i + 1] == log[..i + 1];
    } else {
      assert log[..i + 1] == log;
    }
  }

  /** How many more samples without a reading a phase allows. */
  function Left(p: Phase): nat
    requires Scheduled(p)
  {
    match p
    case Idle => 0
    case Series(_, attempt) => |SERIES_DELAYS| - attempt
    case Watch(_, skips) => WATCH_SKIP_LIMIT - skips
  }

  /** From entry `from` on there is no trigger and no sample that read a portal. */
  ghost predicate Quiet(log: seq<Entry>, from: nat) {
    forall i :: from <= i < |log| ==> !log[i].Armed? && !(log[i].Delivered? && log[i].sample.verdict.Intercepted?)
  }

  /**
   Every series ends. Whatever pauses and tier edges fall in it, a stretch with no trigger and no portal
   reading delivers at most what its phase allows; exactly that much fewer remain if every sample was a SKIP.
   */
  lemma {:induction false} SeriesAreBounded(read: seq<Byte> -> Reading, turns: seq<Turn>, from: nat)
    requires from <= |turns| && Quiet(Trace(read, turns), from)
    ensures var (all, start) := (Trace(read, turns), Trace(read, turns[..from]));
            && all[..from] == start
            && |SamplesOf(all)| >= |SamplesOf(start)|
            && |SamplesOf(all)| - |SamplesOf(start)| + Left(Replay(all)) <= Left(Replay(start))
            && ((forall i :: from <= i < |all| && all[i].Delivered? ==> all[i].sample.verdict.Skip?) ==>
                  |SamplesOf(all)| - |SamplesOf(start)| + Left(Replay(all)) == Left(Replay(start)))
  {
    var n := |turns| - 1;
    var all := Trace(read, turns);
    if from < |turns| {
      var before := Trace(read, turns[..n]);
      assert all[..n] == before;
      assert turns[..n][..from] == turns[..from];
      forall i | from <= i < n ensures all[i] == before[i] {
        assert all[..n][i] == all[i];
      }
      SeriesAreBounded(read, turns[..n], from);
      assert all[..from] == all[..n][..from];
      SamplesNext(read, turns);
    } else {
      assert turns[..from] == turns;
      assert all[..from] == all;
    }
  }

  lemma {:induction false} SamplesNext(read: seq<Byte> -> Reading, turns: seq<Turn>)
    requires turns != []
    requires !Trace(read, turns)[|turns| - 1].Armed?
    ensures var (before, all) := (Trace(read, turns[..|turns| - 1]), Trace(read, turns));
            var last := all[|turns| - 1];
            && |SamplesOf(all)| == |SamplesOf(before)| + (if last.Delivered? then 1 else 0)
            && (!last.Delivered? ==> Replay(all) == Replay(before))
            && (last.Delivered? && !last.sample.verdict.Intercepted? ==> Left(Replay(all)) + 1 <= Left(Replay(before)))
            && (last.Delivered? && last.sample.verdict.Skip? ==> Left(Replay(all)) + 1 == Left(Replay(before)))
  {
    var n := |turns| - 1;
    assert Trace(read, turns)[..n] == Trace(read, turns[..n]);
  }

  /** On the passive tier one trigger is good for four SKIP samples and no packet, whatever else happens. */
  lemma {:induction false} PassiveSeries(read: seq<Byte> -> Reading, turns: seq<Turn>, from: nat)
    requires 0 < from <= |turns| && Trace(read, turns)[from - 1].Armed?
    requires forall i :: from <= i < |turns| && turns[i].Timer? ==> turns[i].attempt.before.tier.Passive?
    requires forall i :: from <= i < |turns| && turns[i].Route? && turns[i].event.Some? ==> SeriesTrigger(turns[i].event.value).None?
    ensures var (all, start) := (Trace(read, turns), Trace(read, turns[..from]));
            && AskedOf(all) == AskedOf(start)
            && |SamplesOf(all)| - |SamplesOf(start)| + Left(Replay(all)) == |SERIES_DELAYS|
  {
    var all := Trace(read, turns);
    forall i | from <= i < |turns|
      ensures !all[i].Armed? && (all[i].Delivered? ==> all[i].sample.verdict.Skip?)
      ensures all[i].Deferred? || all[i].Undelivered? || all[i].Delivered? ==> !all[i].attempt.Probes()
    {
      TraceAt(read, turns, i);
    }
    SeriesAreBounded(read, turns, from);
    assert Replay(all[..from]) == Series(all[from - 1].iface, 0) by {
      assert all[..from][from - 1] == all[from - 1];
    }
    NothingAsked(all, from);
  }

  lemma {:induction false} NothingAsked(log: seq<Entry>, from: nat)
    requires from <= |log|
    requires forall i :: from <= i < |log| ==> log[i].Attempted() ==> !log[i].attempt.Probes()
    ensures AskedOf(log) == AskedOf(log[..from])
  {
    var n := |log| - 1;
    if from < |log| {
      NothingAsked(log[..n], from);
      assert log[..n][..from] == log[..from];
    } else {
      assert log[..from] == log;
    }
  }
}
