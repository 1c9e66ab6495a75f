/**
 The passive listener's event source (`source.rs`): a reader thread walks the capture stream into a
 bounded channel, and each `Next` drains the channel into one window until the flush deadline.

 The reader thread advances in atomic steps (`Capture.ThreadStep`), and `Next` lets it take any number
 of them before each of its own, so what is proved holds for every interleaving of the two.
 */
module AnnounceSource {
  import opened Prelude
  import opened Pcap

  type Frame = seq<Byte>
  type Mac = seq<Byte>

  const FRAME_QUEUE: nat := 4096

  /** Why the listener stopped: the stream ended, the thread was gone, or it could not be started. */
  datatype Reason = Stream(outcome: Outcome) | ThreadGone | NotStarted

  datatype Feed = Frame(bytes: Frame) | End(outcome: Outcome)

  /** The segment's key and the interface's own MAC, read once as a window opens. */
  datatype Identity = Identity(networkKey: Option<string>, ownMac: Option<Mac>)

  datatype Sample =
    | Flush(tsUs: int, identity: Identity, iface: Option<string>, frames: seq<Frame>)
    | Bracket(tsUs: int, networkKey: Option<string>, iface: Option<string>, reason: Reason)

  /** The accumulator of one flush window, as far as the source sees it: what was absorbed. */
  datatype Window = Window(identity: Identity, iface: Option<string>, frames: seq<Frame>) {
    function Absorb(bytes: Frame): Window { this.(frames := frames + [bytes]) }

    function IsEmpty(): bool { frames == [] }

    function Flushed(tsUs: int): Sample { Flush(tsUs, identity, iface, frames) }
  }

  function Datas(records: seq<Record>): (r: seq<Frame>)
    ensures |r| == |records|
  {
    if records == [] then [] else [records[0].data] + Datas(records[1..])
  }

  /** The messages that announce `frames`. */
  function Framed(frames: seq<Frame>): (r: seq<Feed>)
    ensures |r| == |frames|
    ensures forall i :: 0 <= i < |r| ==> r[i] == Frame(frames[i])
  {
    seq(|frames|, i requires 0 <= i < |frames| => Frame(frames[i]))
  }

  /** All the thread has to say about a stream: its records, and then how it ended. */
  function Script(read: (seq<Record>, Outcome)): seq<Feed> {
    Framed(Datas(read.0)) + [End(read.1)]
  }

  /** What a stream still has to say begins with what its next record says. */
  lemma {:induction false} ScriptStep(c: Cursor)
    ensures match Next(c)
            case (Ok(Some(record)), c') => Script(ReadAll(c)) == [Frame(record.data)] + Script(ReadAll(c'))
            case (Ok(None), _) => Script(ReadAll(c)) == [End(CleanEnd)]
            case (Err(e), _) => Script(ReadAll(c)) == [End(Broken(e))]
  {
    match Next(c)
    case (Ok(Some(record)), c') =>
      var (records, outcome) := ReadAll(c');
      assert ReadAll(c) == ([record] + records, outcome);
      ScriptCons(record, records, outcome);
    case _ =>
  }

  lemma {:induction false} ScriptCons(record: Record, records: seq<Record>, outcome: Outcome)
    ensures Script(([record] + records, outcome)) == [Frame(record.data)] + Script((records, outcome))
  {
    assert ([record] + records)[1..] == records;
  }

  datatype Received = Got(feed: Feed) | Timeout | Disconnected

  /** The thread is given at least two steps, and does not panic in any. */
  predicate Steps(steps: seq<bool>) {
    |steps| >= 2 && forall i :: 0 <= i < |steps| ==> !steps[i]
  }

  /** What is unsent once the message in hand is gone. */
  ghost function AfterHand(hand: Feed, unsent: seq<Feed>, script: seq<Feed>): (rest: seq<Feed>)
    requires unsent == if hand.Frame? then [hand] + script else [hand]
    ensures unsent == [hand] + rest && rest == if hand.Frame? then script else []
  {
    unsent[1..]
  }

  /** The channel and the reader thread that feeds it. */
  class Capture {
    const stream: PcapStream
    var queue: seq<Feed>
    /** The message the thread is about to send, or is blocked sending. */
    var hand: Option<Feed>
    /** The thread has returned or died, and its end of the channel is gone. */
    var gone: bool
    /** The thread died on its own account, without announcing an end. */
    ghost var died: bool
    /** The messages the thread has not sent yet. */
    ghost var unsent: seq<Feed>

    ghost predicate Valid()
      reads this, stream, stream.reader
    {
      && |queue| <= FRAME_QUEUE
      && (if gone then hand == None && (died || unsent == []) else !died && UnsentFollows())
    }

    /** What is unsent is the message in hand and then whatever the stream still holds. */
    ghost predicate UnsentFollows()
      reads this, stream, stream.reader
    {
      match hand
      case None => unsent == Script(ReadAll(stream.At()))
      case Some(Frame(bytes)) => unsent == [Frame(bytes)] + Script(ReadAll(stream.At()))
      case Some(feed) => unsent == [feed]
    }

    /** How many steps the thread needs until there is something to receive, or nothing left to send. */
    ghost function Near(): nat
      reads this
    {
      if queue != [] || gone then 0 else if hand.Some? then 1 else 2
    }

    /** There is nothing to receive, but the thread is still at work. */
    ghost predicate Silent()
      reads this
    {
      queue == [] && !gone
    }

    /** The thread has died without a word, and nothing of it is left to receive. */
    ghost predicate Lost()
      reads this
    {
      queue == [] && gone && died
    }

    /** Every message still to come. */
    ghost function ToCome(): seq<Feed>
      reads this
    {
      queue + unsent
    }

    constructor (reader: ByteReader)
      ensures Valid() && fresh(this) && fresh(stream) && stream.reader == reader && !died
      ensures ToCome() == Script(ReadStream(reader.rest, reader.end))
    {
      stream := new PcapStream(reader);
      queue, hand, gone, died := [], None, false, false;
      unsent := Script(ReadStream(reader.rest, reader.end));
    }

    /** The thread reads the next record; `panics` kills it inside the read. */
    method ReadStep(panics: bool)
      requires Valid() && !gone && hand.None?
      modifies this, stream, stream.reader
      ensures Valid() && ToCome() == old(ToCome())
      ensures queue == old(queue) && (!panics ==> !died && hand.Some?)
    {
      if panics {
        gone, died := true, true;
        return;
      }
      ScriptStep(stream.At());
      var r := stream.NextRecord();
      match r {
        case Ok(Some(record)) => hand := Some(Frame(record.data));
        case Ok(None) => hand := Some(End(CleanEnd));
        case Err(e) => hand := Some(End(Broken(e)));
      }
    }

    /** The thread sends the message in hand, or stays blocked while the channel is full. */
    method SendStep()
      requires Valid() && !gone && hand.Some?
      modifies this
      ensures Valid() && ToCome() == old(ToCome())
      ensures !died && queue != []
    {
      if |queue| < FRAME_QUEUE {
        ghost var rest := AfterHand(hand.value, unsent, Script(ReadAll(stream.At())));
        assert queue + unsent == (queue + [hand.value]) + rest;
        queue := queue + [hand.value];
        gone := hand.value.End?;
        hand := None;
        unsent := rest;
      }
    }

    /** One atomic step of the reader thread. */
    method ThreadStep(panics: bool)
      requires Valid()
      modifies this, stream, stream.reader
      ensures Valid() && ToCome() == old(ToCome())
      ensures !panics ==> died == old(died) && Near() <= if old(Near()) > 0 then old(Near()) - 1 else 0
    {
      if gone {
      } else if hand.None? {
        ReadStep(panics);
      } else {
        SendStep();
      }
    }

    /** Any number of steps of the reader thread; two without a panic leave something to receive while there is anything. */
    method ThreadRuns(steps: seq<bool>)
      requires Valid()
      modifies this, stream, stream.reader
      ensures Valid() && ToCome() == old(ToCome())
      ensures Steps(steps) && !old(died) ==> !died && (ToCome() != [] ==> queue != [])
    {
      for i := 0 to |steps|
        invariant Valid() && ToCome() == old(ToCome())
        invariant Steps(steps) && !old(died) ==> !died && Near() <= if i < 2 then 2 - i else 0
      {
        ThreadStep(steps[i]);
      }
    }

    /**
     Receive until the deadline. The steps the thread takes in the meantime have been taken, so an empty
     channel is one that stays empty until then.
     */
    method Recv() returns (r: Received)
      requires Valid()
      modifies `queue
      ensures Valid()
      ensures r.Got? <==> old(queue) != []
      ensures r.Got? ==> old(ToCome()) == [r.feed] + ToCome()
      ensures !r.Got? ==> ToCome() == old(ToCome())
      ensures r.Disconnected? ==> died || ToCome() == []
      ensures r.Disconnected? ==> gone
      ensures r.Timeout? ==> !gone
    {
      if queue == [] {
        return if gone then Disconnected else Timeout;
      }
      r := Got(queue[0]);
      assert queue + unsent == [queue[0]] + (queue[1..] + unsent);
      queue := queue[1..];
    }
  }

  /** The frames of a run of batches, in the order they were flushed. */
  function Flushed(batches: seq<seq<Sample>>): seq<Frame> {
    if batches == [] then [] else FlushedIn(batches[0]) + Flushed(batches[1..])
  }

  function FlushedIn(batch: seq<Sample>): seq<Frame> {
    if batch == [] then [] else (if batch[0].Flush? then batch[0].frames else []) + FlushedIn(batch[1..])
  }

  lemma {:induction false} FlushedAppend(batches: seq<seq<Sample>>, batch: seq<Sample>)
    ensures Flushed(batches + [batch]) == Flushed(batches) + FlushedIn(batch)
  {
    if batches == [] {
      assert batches + [batch] == [batch];
    } else {
      assert (batches + [batch])[1..] == batches[1..] + [batch];
      FlushedAppend(batches[1..], batch);
    }
  }

  /** A window that ran to its deadline: exactly one flush, an empty one included. */
  ghost predicate Running(batch: seq<Sample>) {
    |batch| == 1 && batch[0].Flush?
  }

  /** The last batch: what the last window heard, if anything, and then the one bracket. */
  ghost predicate Closing(batch: seq<Sample>) {
    || (|batch| == 1 && batch[0].Bracket?)
    || (|batch| == 2 && batch[0].Flush? && batch[0].frames != [] && batch[1].Bracket?)
  }

  /** The shape of everything `Next` has returned so far. */
  ghost predicate WellBracketed(batches: seq<seq<Sample>>, done: bool) {
    && (forall i :: 0 <= i < |batches| - 1 ==> Running(batches[i]))
    && (batches != [] ==> if done then Closing(batches[|batches| - 1]) else Running(batches[|batches| - 1]))
    && (done ==> batches != [])
  }

  /** What one call of `Next` returns: the window, if it is a reading, and the bracket, if it ended. */
  function Batch(window: Window, ended: Option<Reason>, tsUs: int): seq<Sample> {
    (if ended.None? || !window.IsEmpty() then [window.Flushed(tsUs)] else []) +
    (if ended.Some? then [Bracket(tsUs, window.identity.networkKey, window.iface, ended.value)] else [])
  }

  /** Returning a batch flushes exactly its window and keeps the shape of the run. */
  lemma {:induction false} BatchFollows(batches: seq<seq<Sample>>, window: Window, ended: Option<Reason>, tsUs: int)
    requires WellBracketed(batches, false)
    ensures var batches' := batches + [Batch(window, ended, tsUs)];
            && WellBracketed(batches', ended.Some?)
            && Flushed(batches') == Flushed(batches) + window.frames
            && (ended.Some? ==> LastReason(batches') == ended.value)
  {
    var batch := Batch(window, ended, tsUs);
    FlushedAppend(batches, batch);
    if |batch| == 2 {
      assert batch[1..] == [batch[1]] && batch[1..][1..] == [];
      assert FlushedIn(batch[1..]) == FlushedIn([]) == [];
    } else {
      assert batch[1..] == [];
    }
    assert FlushedIn(batch) == window.frames;
  }

  /** The reason given by the bracket that closed the source. */
  ghost function LastReason(batches: seq<seq<Sample>>): Reason
    requires WellBracketed(batches, true)
  {
    var batch := batches[|batches| - 1];
    batch[|batch| - 1].reason
  }

  /** What the world does to one turn of the drain loop: the thread's steps before the receive. */
  datatype Turn = Turn(threadSteps: seq<bool>)

  /** What the world does to one `Next`: the identity read, whether the thread starts, and the turns
      that fit before the deadline. */
  datatype World = World(identity: Identity, canSpawn: bool, turns: seq<Turn>, nowUs: int)

  /** The thread can be started, takes its steps before every receive, and never panics. */
  predicate Lively(world: World) {
    world.canSpawn && forall i :: 0 <= i < |world.turns| ==> Steps(world.turns[i].threadSteps)
  }

  /** What has been heard, then what is to come, is every record of the stream and then its end. */
  ghost predicate Conserved(capture: Capture, heard: seq<Frame>, all: seq<Frame>, ending: Outcome)
    reads capture
  {
    Framed(heard) + capture.ToCome() == Framed(all) + [End(ending)]
  }

  /** The next message is the next record, or the end once every record has been heard. */
  lemma {:induction false} HeadIsNext(heard: seq<Frame>, toCome: seq<Feed>, all: seq<Frame>, ending: Outcome)
    requires Framed(heard) + toCome == Framed(all) + [End(ending)]
    ensures toCome != [] && heard <= all
    ensures toCome[0].Frame? ==> Framed(heard + [toCome[0].bytes]) + toCome[1..] == Framed(all) + [End(ending)]
    ensures toCome[0].End? ==> toCome[0].outcome == ending && heard == all
  {
    var n := |heard|;
    var whole := Framed(all) + [End(ending)];
    assert whole[|all|] == End(ending);
    assert forall i :: 0 <= i < n ==> (Framed(heard) + toCome)[i] == Frame(heard[i]);
    assert (Framed(heard) + toCome)[n..] == toCome;
    forall i | 0 <= i < |heard| && i < |all| ensures heard[i] == all[i] {
      assert (Framed(heard) + toCome)[i] == Frame(heard[i]) && (Framed(all) + [End(ending)])[i] == Frame(all[i]);
    }
  }

  /** What is known of a drain that ended early. */
  ghost predicate EndKnown(reason: Reason, heard: seq<Frame>, all: seq<Frame>, ending: Outcome) {
    match reason
    case NotStarted => false
    case ThreadGone => heard <= all
    case Stream(outcome) => outcome == ending && heard == all
  }

  class AnnounceSource {
    var reader: Option<ByteReader>
    var rx: Option<Capture>
    var iface: Option<string>
    var done: bool
    /** Every record of the capture stream, and how it ends. */
    ghost const all: seq<Frame>
    ghost const ending: Outcome
    /** Every batch returned so far. */
    ghost var batches: seq<seq<Sample>>

    ghost function Owned(): set<object>
      reads this
    {
      (if reader.Some? then {reader.value} else {}) +
      (if rx.Some? then {rx.value, rx.value.stream, rx.value.stream.reader} else {})
    }

    ghost predicate Valid()
      reads this, Owned()
    {
      WellBracketed(batches, done) && if done then Accounted(LastReason(batches)) else Flowing()
    }

    /** Nothing is lost, repeated or reordered: what was flushed, then what is to come, is the stream. */
    ghost predicate Flowing()
      reads this, Owned()
    {
      match rx
      case Some(capture) => capture.Valid() && Conserved(capture, Flushed(batches), all, ending)
      case None =>
        && batches == []
        && reader.Some?
        && Framed(all) + [End(ending)] == Script(ReadStream(reader.value.rest, reader.value.end))
    }

    /**
     A closing reason that names the end of the stream is the true one, given only once every record has
     been flushed. A thread that died leaves a prefix.
     */
    ghost predicate Accounted(reason: Reason)
      reads this, Owned()
    {
      match reason
      case NotStarted => Flushed(batches) == []
      case ThreadGone => Flushed(batches) <= all && rx.Some? && rx.value.Lost()
      case Stream(outcome) => outcome == ending && Flushed(batches) == all
    }

    constructor (reader: ByteReader, iface: Option<string>)
      ensures Valid() && !done && batches == [] && Owned() == {reader} && Healthy()
      ensures all == Datas(ReadStream(reader.rest, reader.end).0)
      ensures ending == ReadStream(reader.rest, reader.end).1
    {
      this.reader, rx, this.iface, done, batches := Some(reader), None, iface, false, [];
      all := Datas(ReadStream(reader.rest, reader.end).0);
      ending := ReadStream(reader.rest, reader.end).1;
    }

    /** The reader thread, if it was started, has not died. */
    ghost predicate Healthy()
      reads this, Owned()
    {
      rx.Some? ==> !rx.value.died
    }

    /** Start the reader thread on first use. */
    method StartFeed(canSpawn: bool) returns (started: bool)
      requires Valid() && !done
      modifies this
      ensures unchanged(`done) && unchanged(`batches) && unchanged(`iface)
      ensures started <==> old(rx).Some? || canSpawn
      ensures fresh(Owned() - old(Owned()))
      ensures if started then Valid() && rx.Some? else rx.None?
      ensures old(Healthy()) ==> Healthy()
    {
      if rx.None? {
        var r := reader.value;
        reader := None;
        if !canSpawn {
          return false;
        }
        var capture := new Capture(r);
        rx := Some(capture);
      }
      return true;
    }

    /** Close without a reader thread. */
    method Refuse(identity: Identity, nowUs: int) returns (refused: seq<Sample>)
      requires WellBracketed(batches, false) && batches == [] && rx.None?
      modifies `done, `batches
      ensures Valid() && done && batches == [refused]
      ensures refused == [Bracket(nowUs, identity.networkKey, iface, NotStarted)]
    {
      var unheard := Window(identity, iface, []);
      BatchFollows(batches, unheard, Some(NotStarted), nowUs);
      done := true;
      refused := Batch(unheard, Some(NotStarted), nowUs);
      batches := batches + [refused];
    }

    /** Feed the window until the deadline or the end of the stream. */
    method Drain(world: World, fresh': Window) returns (window: Window, ended: Option<Reason>)
      requires Flowing() && rx.Some? && fresh'.frames == []
      modifies rx.value, rx.value.stream, rx.value.stream.reader
      ensures window.identity == fresh'.identity && window.iface == fresh'.iface
      ensures rx.value.Valid()
      ensures Lively(world) && !old(rx.value.died) ==>
                !rx.value.died && if ended.None? then |window.frames| == |world.turns| else ended.value.Stream?
      ensures if ended.None? then Conserved(rx.value, Flushed(batches) + window.frames, all, ending)
              else EndKnown(ended.value, Flushed(batches) + window.frames, all, ending)
      ensures ended.None? ==> |window.frames| == |world.turns| || rx.value.Silent()
      ensures ended == Some(ThreadGone) ==> rx.value.Lost()
    {
      var capture := rx.value;
      window, ended := fresh', None;
      assert Flushed(batches) + [] == Flushed(batches);
      var t := 0;
      while t < |world.turns| && ended.None?
        invariant capture.Valid() && 0 <= t <= |world.turns|
        invariant window.identity == fresh'.identity && window.iface == fresh'.iface
        invariant Lively(world) && !old(rx.value.died) ==>
                    !capture.died && if ended.None? then |window.frames| == t else ended.value.Stream?
        invariant ended.None? ==> |window.frames| == t
        invariant ended == Some(ThreadGone) ==> capture.Lost()
        invariant if ended.None? then Conserved(capture, Flushed(batches) + window.frames, all, ending)
                  else EndKnown(ended.value, Flushed(batches) + window.frames, all, ending)
      {
        capture.ThreadRuns(world.turns[t].threadSteps);
        ghost var heard := Flushed(batches) + window.frames;
        HeadIsNext(heard, capture.ToCome(), all, ending);
        var received := capture.Recv();
        match received {
          case Got(Frame(bytes)) =>
            window := window.Absorb(bytes);
            assert heard + [bytes] == Flushed(batches) + window.frames;
          case Got(End(outcome)) => ended := Some(Stream(outcome));
          case Timeout => return;
          case Disconnected => ended := Some(ThreadGone);
        }
        t := t + 1;
      }
    }

    /** One window served, and whatever closes the source with it. */
    method Serve(world: World) returns (batch: seq<Sample>)
      requires Valid() && !done && rx.Some?
      modifies `done, `batches, rx.value, rx.value.stream, rx.value.stream.reader
      ensures Valid() && batches == old(batches) + [batch]
      ensures Lively(world) && old(Healthy()) ==>
                && Healthy()
                && if done then LastReason(batches).Stream? else |Flushed(batches)| == |Flushed(old(batches))| + |world.turns|
      ensures !done ==> |Flushed(batches)| == |Flushed(old(batches))| + |world.turns| || rx.value.Silent()
      ensures forall s :: s in batch ==> Stamped(s, world, iface)
    {
      var window, ended := Drain(world, Window(world.identity, iface, []));
      BatchFollows(batches, window, ended, world.nowUs);
      batch := Batch(window, ended, world.nowUs);
      done := ended.Some?;
      batches := batches + [batch];
    }

    /**
     The next batch, or `None` once the closing batch has been returned.

     Every batch carries the identity read as its window opened. A window that is not cut short is
     flushed even when it heard nothing.
     */
    method Next(world: World) returns (r: Option<seq<Sample>>)
      requires Valid()
      modifies this, Owned()
      ensures Valid() && fresh(Owned() - old(Owned()))
      ensures old(done) ==> r == None && done && batches == old(batches)
      ensures !old(done) ==> r.Some? && batches == old(batches) + [r.value]
      ensures Lively(world) && old(Healthy()) && !old(done) ==>
                && Healthy()
                && if done then LastReason(batches).Stream? else |Flushed(batches)| == |Flushed(old(batches))| + |world.turns|
      ensures !old(done) && !done ==>
                rx.Some? && (|Flushed(batches)| == |Flushed(old(batches))| + |world.turns| || rx.value.Silent())
      ensures r.Some? ==> forall s :: s in r.value ==> Stamped(s, world, old(iface))
    {
      if done {
        return None;
      }
      var identity := world.identity;
      var started := StartFeed(world.canSpawn);
      var batch;
      if started {
        batch := Serve(world);
      } else {
        batch := Refuse(identity, world.nowUs);
      }
      return Some(batch);
    }
  }

  /** A sample made in a call of `Next` carries the one identity that call read. */
  predicate Stamped(s: Sample, world: World, iface: Option<string>) {
    && s.tsUs == world.nowUs && s.iface == iface
    && match s
       case Flush(_, identity, _, _) => identity == world.identity
       case Bracket(_, networkKey, _, _) => networkKey == world.identity.networkKey
  }

  lemma {:induction false} DatasFor(l: Layout, packets: seq<Packet>)
    ensures |Datas(RecordsFor(l, packets))| == |packets|
    ensures forall i :: 0 <= i < |packets| ==> Datas(RecordsFor(l, packets))[i] == packets[i].data
  {
    if packets != [] {
      DatasFor(l, packets[1..]);
    }
  }

  /** The turns the world gives over a run of calls. */
  function Turns(worlds: seq<World>): nat {
    if worlds == [] then 0 else Turns(worlds[..|worlds| - 1]) + |worlds[|worlds| - 1].turns|
  }

  lemma {:induction false} FlushedIsPrefix(source: AnnounceSource)
    requires source.Valid()
    ensures Flushed(source.batches) <= source.all
  {
    if !source.done {
      if source.rx.Some? {
        HeadIsNext(Flushed(source.batches), source.rx.value.ToCome(), source.all, source.ending);
      }
    }
  }

  method Continue(source: AnnounceSource, world: World, ghost n: nat)
    requires source.Valid() && Progressed(source, n) && Lively(world)
    modifies source, source.Owned()
    ensures source.Valid() && Progressed(source, n + |world.turns|) && fresh(source.Owned() - old(source.Owned()))
  {
    if !source.done {
      var _ := source.Next(world);
    }
  }

  /**
   Progress: called often enough while the thread gets its steps and does not panic, the source closes, with the
   stream's own end as its reason and every record flushed.
   */
  method RunToEnd(source: AnnounceSource, worlds: seq<World>)
    requires source.Valid() && source.Healthy() && !source.done && source.batches == []
    requires forall i :: 0 <= i < |worlds| ==> Lively(worlds[i])
    requires Turns(worlds) > |source.all|
    modifies source, source.Owned()
    ensures source.Valid() && source.done
    ensures LastReason(source.batches) == Stream(source.ending) && Flushed(source.batches) == source.all
  {
    for i := 0 to |worlds|
      invariant source.Valid() && fresh(source.Owned() - old(source.Owned()))
      invariant Progressed(source, Turns(worlds[..i]))
    {
      assert worlds[..i + 1][..i] == worlds[..i];
      Continue(source, worlds[i], Turns(worlds[..i]));
    }
    assert worlds[..|worlds|] == worlds;
    EnoughIsAll(source, Turns(worlds));
  }

  lemma {:induction false} EnoughIsAll(source: AnnounceSource, n: nat)
    requires source.Valid() && Progressed(source, n) && n > |source.all|
    ensures source.done && LastReason(source.batches) == Stream(source.ending) && Flushed(source.batches) == source.all
  {
    FlushedIsPrefix(source);
  }

  /** The source has closed with the stream's end, or is healthy and has flushed `n` frames. */
  ghost predicate Progressed(source: AnnounceSource, n: nat)
    requires source.Valid()
    reads source, source.Owned()
  {
    if source.done then LastReason(source.batches).Stream? else source.Healthy() && |Flushed(source.batches)| == n
  }

  lemma {:induction false} CutBodies(l: Layout, packets: seq<Packet>, k: nat, cut: nat)
    requires AllFit(packets) && FallsAfter(l, packets, k, cut) && cut <= |WriteRecords(l, packets)|
    ensures var records := ReadStream(Savefile(l, packets)[..GLOBAL_HEADER + cut], UnexpectedEof).0;
            |Datas(records)| == k && forall i :: 0 <= i < k ==> Datas(records)[i] == packets[i].data
  {
    SavefileCut(l, packets, k, cut, UnexpectedEof);
    TakenDatas(l, packets, k);
  }

  lemma {:induction false} CutEnds(l: Layout, packets: seq<Packet>, k: nat, cut: nat)
    requires AllFit(packets) && FallsAfter(l, packets, k, cut) && cut <= |WriteRecords(l, packets)|
    ensures var outcome := ReadStream(Savefile(l, packets)[..GLOBAL_HEADER + cut], UnexpectedEof).1;
            outcome == CleanEnd <==> cut - |WriteRecords(l, packets[..k])| < RECORD_HEADER
  {
    SavefileCut(l, packets, k, cut, UnexpectedEof);
  }

  lemma {:induction false} TakenDatas(l: Layout, packets: seq<Packet>, k: nat)
    requires k <= |packets|
    ensures var datas := Datas(RecordsFor(l, packets[..k])); |datas| == k && forall i :: 0 <= i < k ==> datas[i] == packets[i].data
  {
    DatasFor(l, packets[..k]);
  }

  /**
   From the capture file to the flushes: however far a capture of `packets` got before its pipe closed, a source
   that read it and closed with the stream's own end has flushed exactly the bodies of the packets that got through
   whole, and says a cut body was no clean end.
   */
  lemma {:induction false} CaptureToFlushes(source: AnnounceSource, l: Layout, packets: seq<Packet>, k: nat, cut: nat)
    requires source.Valid() && source.done && LastReason(source.batches).Stream?
    requires AllFit(packets) && FallsAfter(l, packets, k, cut) && cut <= |WriteRecords(l, packets)|
    requires Reads(source, Savefile(l, packets)[..GLOBAL_HEADER + cut])
    ensures var flushed := Flushed(source.batches);
            && |flushed| == k && (forall i :: 0 <= i < k ==> flushed[i] == packets[i].data)
            && (LastReason(source.batches).outcome == CleanEnd <==> cut - |WriteRecords(l, packets[..k])| < RECORD_HEADER)
  {
    CutBodies(l, packets, k, cut);
    CutEnds(l, packets, k, cut);
  }

  /** The source was opened on a pipe that carried these bytes and then closed. */
  ghost predicate Reads(source: AnnounceSource, bytes: seq<Byte>) {
    source.all == Datas(ReadStream(bytes, UnexpectedEof).0) && source.ending == ReadStream(bytes, UnexpectedEof).1
  }
}
