/**
 The lossy bridge from the subscription thread to the event-log window, and the log it ends in
 (`events.rs`, `bridge_send` and `EventLog::apply`).

 The bridge is a bounded channel. The foreground may drain it at any moment, also between the two
 `try_send`s of one `BridgeSend`, and may go away.
 */
module EventBridge {
  import opened Prelude

  const EVENT_CAP: nat := 1000

  /** The text of an offline note: a count of dropped messages, or anything else worth saying. */
  datatype Reason = Dropped(count: nat) | Because(text: string)

  datatype BridgeMsg<F> = Frame(frame: F) | Offline(reason: Reason) {
    predicate IsNote() { Offline? && reason.Dropped? }
  }

  /** The messages counted by the drop notes among `msgs`. */
  function Noted<F>(msgs: seq<BridgeMsg<F>>): nat {
    if msgs == [] then 0
    else
      var last := msgs[|msgs| - 1];
      Noted(msgs[..|msgs| - 1]) + if last.IsNote() then last.reason.count else 0
  }

  /** The messages that are not drop notes. */
  function Proper<F>(msgs: seq<BridgeMsg<F>>): seq<BridgeMsg<F>> {
    if msgs == [] then []
    else
      var last := msgs[|msgs| - 1];
      Proper(msgs[..|msgs| - 1]) + if last.IsNote() then [] else [last]
  }

  /** The frames, in order. */
  function Frames<F>(msgs: seq<BridgeMsg<F>>): seq<F> {
    if msgs == [] then []
    else
      var last := msgs[|msgs| - 1];
      Frames(msgs[..|msgs| - 1]) + if last.Frame? then [last.frame] else []
  }

  /** The offered messages that got through, given the fate of each. */
  function Kept<F>(offered: seq<BridgeMsg<F>>, fate: seq<bool>): seq<BridgeMsg<F>>
    requires |fate| == |offered|
  {
    if offered == [] then []
    else
      var n := |offered| - 1;
      Kept(offered[..n], fate[..n]) + if fate[n] then [offered[n]] else []
  }

  function Lost(fate: seq<bool>): nat {
    if fate == [] then 0
    else Lost(fate[..|fate| - 1]) + if fate[|fate| - 1] then 0 else 1
  }

  lemma {:induction false} AcceptOne<F>(msgs: seq<BridgeMsg<F>>, msg: BridgeMsg<F>)
    ensures Noted(msgs + [msg]) == Noted(msgs) + if msg.IsNote() then msg.reason.count else 0
    ensures Proper(msgs + [msg]) == Proper(msgs) + if msg.IsNote() then [] else [msg]
    ensures Frames(msgs + [msg]) == Frames(msgs) + if msg.Frame? then [msg.frame] else []
  {
    assert (msgs + [msg])[..|msgs|] == msgs;
  }

  lemma {:induction false} OfferOne<F>(offered: seq<BridgeMsg<F>>, fate: seq<bool>, msg: BridgeMsg<F>, kept: bool)
    requires |fate| == |offered|
    ensures Kept(offered + [msg], fate + [kept]) == Kept(offered, fate) + if kept then [msg] else []
    ensures Lost(fate + [kept]) == Lost(fate) + if kept then 0 else 1
  {
    assert (offered + [msg])[..|offered|] == offered && (fate + [kept])[..|fate|] == fate;
  }

  /** Kept messages are a selection of those offered: with those lost, they are all of them. */
  lemma {:induction false} KeptAndLost<F>(offered: seq<BridgeMsg<F>>, fate: seq<bool>)
    requires |fate| == |offered|
    ensures |Kept(offered, fate)| + Lost(fate) == |offered|
    ensures forall m :: m in Kept(offered, fate) ==> m in offered
  {
    if offered != [] {
      KeptAndLost(offered[..|offered| - 1], fate[..|offered| - 1]);
    }
  }

  function With<T>(xs: seq<T>, more: bool, x: T): seq<T> {
    if more then xs + [x] else xs
  }

  lemma {:induction false} Regroup<T>(a: seq<T>, b: seq<T>, c: seq<T>)
    ensures a + (b + c) == (a + b) + c
  {
  }

  datatype Sending = Sent | Full | Disconnected

  /** Nothing offered is unaccounted for: it got through, is counted by a note that got through, or is still counted. */
  ghost predicate Balanced<F>(accepted: seq<BridgeMsg<F>>, offered: seq<BridgeMsg<F>>, fate: seq<bool>, dropped: nat) {
    |fate| == |offered| && Proper(accepted) == Kept(offered, fate) && Noted(accepted) + dropped == Lost(fate)
  }

  lemma {:induction false} OfferBalances<F>(
      accepted: seq<BridgeMsg<F>>, offered: seq<BridgeMsg<F>>, fate: seq<bool>, dropped: nat, msg: BridgeMsg<F>)
    requires Balanced(accepted, offered, fate, dropped) && !msg.IsNote()
    ensures Balanced(accepted + [msg], offered + [msg], fate + [true], dropped)
    ensures Balanced(accepted, offered + [msg], fate + [false], dropped + 1)
  {
    AcceptOne(accepted, msg);
    OfferOne(offered, fate, msg, true);
    OfferOne(offered, fate, msg, false);
  }

  /** The bridge between the subscription thread and the foreground. */
  class Bridge<F(==)> {
    var queue: seq<BridgeMsg<F>>
    var receiver: bool
    /** Messages dropped because the bridge was full, and not yet reported. */
    var dropped: nat
    /** Everything ever accepted, drop notes included, and what of it the foreground has taken. */
    ghost var accepted: seq<BridgeMsg<F>>
    ghost var drained: seq<BridgeMsg<F>>
    /** Every message offered while the foreground was there, and whether it got through. */
    ghost var offered: seq<BridgeMsg<F>>
    ghost var fate: seq<bool>

    ghost predicate Valid()
      reads this
    {
      && |queue| <= EVENT_CAP
      && (receiver ==> accepted == drained + queue)
      && drained <= accepted
      && Balanced(accepted, offered, fate, dropped)
    }

    constructor ()
      ensures Valid() && queue == [] && receiver && dropped == 0 && offered == [] && drained == []
    {
      queue, receiver, dropped := [], true, 0;
      accepted, drained, offered, fate := [], [], [], [];
    }

    /** `SyncSender::try_send`. */
    method TrySend(msg: BridgeMsg<F>) returns (sending: Sending)
      requires |queue| <= EVENT_CAP
      modifies this`queue, this`accepted
      ensures sending == if !receiver then Disconnected else if old(|queue|) < EVENT_CAP then Sent else Full
      ensures queue == if sending.Sent? then old(queue) + [msg] else old(queue)
      ensures accepted == if sending.Sent? then old(accepted) + [msg] else old(accepted)
    {
      if !receiver {
        return Disconnected;
      }
      if |queue| == EVENT_CAP {
        return Full;
      }
      queue := queue + [msg];
      accepted := accepted + [msg];
      return Sent;
    }

    /** The foreground takes up to `n` messages, or goes away and takes the channel with it. */
    method Foreground(n: nat, leaves: bool) returns (taken: seq<BridgeMsg<F>>)
      requires Valid()
      modifies this`queue, this`receiver, this`drained
      ensures Valid()
      ensures taken == old(queue)[..Min(n, old(|queue|))]
      ensures drained == old(drained) + if old(receiver) then taken else []
      ensures receiver == (old(receiver) && !leaves)
      ensures queue == if leaves then [] else old(queue)[Min(n, old(|queue|))..]
      ensures |queue| == if leaves then 0 else old(|queue|) - Min(n, old(|queue|))
    {
      var k := if n <= |queue| then n else |queue|;
      taken := queue[..k];
      if receiver {
        assert accepted == (drained + taken) + queue[k..];
        drained := drained + taken;
      }
      queue := queue[k..];
      if leaves {
        receiver, queue := false, [];
      }
    }

    /** The first half of `BridgeSend`: report what was dropped, if the note fits. */
    method Report() returns (connected: bool)
      requires Valid()
      modifies this`queue, this`accepted, this`dropped
      ensures Valid()
      ensures old(dropped) > 0 ==> connected == receiver
      ensures old(dropped) == 0 ==> connected
      ensures var told := old(dropped) > 0 && receiver && old(|queue|) < EVENT_CAP;
              && dropped == (if told then 0 else old(dropped))
              && accepted == With(old(accepted), told, Offline(Dropped(old(dropped))))
              && |queue| == old(|queue|) + if told then 1 else 0
    {
      if dropped == 0 {
        return true;
      }
      var note := Offline(Dropped(dropped));
      AcceptOne(accepted, note);
      Regroup(drained, queue, [note]);
      var sending := TrySend(note);
      if sending.Sent? {
        dropped := 0;
      }
      return !sending.Disconnected?;
    }

    /** The second half: the message itself, or one more dropped. */
    method Offer(msg: BridgeMsg<F>) returns (connected: bool)
      requires Valid() && !msg.IsNote()
      modifies this`queue, this`accepted, this`dropped, this`offered, this`fate
      ensures Valid() && connected == receiver
      ensures var fits := old(|queue|) < EVENT_CAP;
              if connected then
                && offered == old(offered) + [msg] && fate == old(fate) + [fits]
                && dropped == old(dropped) + (if fits then 0 else 1)
                && accepted == With(old(accepted), fits, msg)
                && |queue| == old(|queue|) + (if fits then 1 else 0)
              else offered == old(offered) && fate == old(fate) && dropped == old(dropped) && accepted == old(accepted)
    {
      OfferBalances(accepted, offered, fate, dropped, msg);
      Regroup(drained, queue, [msg]);
      var sending := TrySend(msg);
      if sending.Disconnected? {
        return false;
      }
      offered, fate := offered + [msg], fate + [sending.Sent?];
      if sending.Full? {
        dropped := dropped + 1;
      }
      return true;
    }

    method TakeThenOffer(msg: BridgeMsg<F>, between: nat, leaves: bool) returns (ok: bool, taken: seq<BridgeMsg<F>>)
      requires Valid() && !msg.IsNote()
      modifies this
      ensures Valid() && ok == receiver == (old(receiver) && !leaves)
      ensures ok ==> drained == old(drained) + taken
      ensures !ok ==> offered == old(offered) && fate == old(fate)
      ensures ok ==>
                var left := old(|queue|) - Min(between, old(|queue|));
                var fits := left < EVENT_CAP;
                && |taken| == old(|queue|) - left
                && offered == old(offered) + [msg] && fate == old(fate) + [fits]
                && dropped == old(dropped) + (if fits then 0 else 1)
                && accepted == With(old(accepted), fits, msg)
                && |queue| == left + (if fits then 1 else 0)
    {
      taken := Foreground(between, leaves);
      ok := Offer(msg);
    }

    /**
     Forward one message. `between` is how many messages the foreground takes between the two sends, and
     `leaves` whether it goes away there; `taken` is what it took.

     Nothing offered is ever unaccounted for: it got through, or is counted by a note that got through,
     or is in `dropped` (`Valid`). A note is accepted right before its message, and a message gets through
     ahead of the note for earlier losses exactly when the foreground made room between the two sends.
     */
    method BridgeSend(msg: BridgeMsg<F>, between: nat, leaves: bool) returns (ok: bool, taken: seq<BridgeMsg<F>>)
      requires Valid() && !msg.IsNote()
      modifies this
      ensures Valid() && ok == receiver == (old(receiver) && !leaves)
      ensures ok ==> drained == old(drained) + taken
      ensures !ok ==> offered == old(offered) && fate == old(fate)
      ensures ok ==>
                var s := AfterSend(old(|queue|), old(dropped), between);
                && offered == old(offered) + [msg] && fate == old(fate) + [s.through]
                && |queue| == s.queued && dropped == s.dropped && |taken| == s.taken
                && accepted == With(With(old(accepted), s.told, Offline(Dropped(old(dropped)))), s.through, msg)
      ensures ok ==> (fate[|fate| - 1] && dropped > 0 <==>
                        old(dropped) > 0 && old(|queue|) == EVENT_CAP && between > 0)
    {
      Overtakes(|queue|, dropped, between);
      taken := [];
      ok := Report();
      if ok {
        ok, taken := TakeThenOffer(msg, between, leaves);
      }
    }
  }

  datatype Sizes = Sizes(queued: nat, dropped: nat, taken: nat, told: bool, through: bool)

  /** What one send does, to a foreground that takes `between` messages and stays. */
  function AfterSend(queued: nat, dropped: nat, between: nat): Sizes {
    var told := dropped > 0 && queued < EVENT_CAP;
    var held := if told then queued + 1 else queued;
    var left := held - Min(between, held);
    var still := if told then 0 else dropped;
    if left < EVENT_CAP then Sizes(left + 1, still, held - left, told, true)
    else Sizes(left, still + 1, held - left, told, false)
  }

  lemma {:induction false} Overtakes(queued: nat, dropped: nat, between: nat)
    requires queued <= EVENT_CAP
    ensures var s := AfterSend(queued, dropped, between);
            s.through && s.dropped > 0 <==> dropped > 0 && queued == EVENT_CAP && between > 0
  {
  }

  /**
   The source means a message that gets through to come after the note for those lost before it; here one gets
   through while a loss is still untold. The bridge is filled, one message is lost, and the foreground takes one
   between the two sends of the next.
   */
  method AheadOfItsNote<F(==)>(frame: F) returns (bridge: Bridge<F>, ok: bool)
    ensures fresh(bridge) && bridge.Valid() && ok
    ensures |bridge.offered| == EVENT_CAP + 2 && |bridge.fate| == EVENT_CAP + 2
    ensures !bridge.fate[EVENT_CAP] && bridge.fate[EVENT_CAP + 1] && bridge.dropped == 1
  {
    bridge := new Bridge();
    ok := true;
    var taken;
    for i := 0 to EVENT_CAP
      invariant fresh(bridge) && bridge.Valid() && bridge.receiver && ok
      invariant |bridge.queue| == |bridge.offered| == |bridge.fate| == i && bridge.dropped == 0
    {
      ok, taken := bridge.BridgeSend(Frame(frame), 0, false);
    }
    ok, taken := bridge.BridgeSend(Frame(frame), 0, false);
    ok, taken := bridge.BridgeSend(Frame(frame), 1, false);
  }

  /**
   Conservation over any run: every message offered got through once, in order, or was counted once, by
   a note that got through or by the counter still to be reported.
   */
  lemma {:induction false} Conservation<F>(bridge: Bridge<F>)
    requires bridge.Valid()
    ensures |bridge.offered| == |Proper(bridge.accepted)| + Noted(bridge.accepted) + bridge.dropped
    ensures forall m :: m in Proper(bridge.accepted) ==> m in bridge.offered
  {
    KeptAndLost(bridge.offered, bridge.fate);
  }

  /** The last `n` elements. */
  function Tail<T>(xs: seq<T>, n: nat): seq<T> {
    if |xs| <= n then xs else xs[|xs| - n..]
  }

  /** The window's model: the retained frames and the connection note. */
  class EventLog<F> {
    var events: seq<F>
    var offline: Option<Reason>
    /** Every message ever applied. */
    ghost var applied: seq<BridgeMsg<F>>

    /** The log holds exactly the last `EVENT_CAP` frames ever applied, and the last word on the stream. */
    ghost predicate Valid()
      reads this
    {
      && events == Tail(Frames(applied), EVENT_CAP)
      && offline == if applied != [] && applied[|applied| - 1].Offline? then Some(applied[|applied| - 1].reason) else None
    }

    constructor ()
      ensures Valid() && applied == []
    {
      events, offline, applied := [], None, [];
    }

    method Apply(msg: BridgeMsg<F>)
      requires Valid()
      modifies this
      ensures Valid() && applied == old(applied) + [msg]
    {
      AcceptOne(applied, msg);
      applied := applied + [msg];
      match msg {
        case Frame(frame) =>
          offline := None;
          if |events| >= EVENT_CAP {
            events := events[1..];
          }
          events := events + [frame];
        case Offline(reason) => offline := Some(reason);
      }
    }
  }

  /** What the foreground took goes into the log, in order. */
  method TakeIn<F(==)>(log: EventLog<F>, batch: seq<BridgeMsg<F>>)
    requires log.Valid()
    modifies log
    ensures log.Valid() && log.applied == old(log.applied) + batch
  {
    for i := 0 to |batch|
      invariant log.Valid() && log.applied == old(log.applied) + batch[..i]
    {
      log.Apply(batch[i]);
    }
    assert batch[..|batch|] == batch;
  }

  /** One tick that nothing disturbs: everything queued goes into the log, in order. */
  method Drain<F(==)>(bridge: Bridge<F>, log: EventLog<F>)
    requires bridge.Valid() && log.Valid() && bridge.receiver && log.applied == bridge.drained
    modifies bridge, log
    ensures bridge.Valid() && log.Valid() && bridge.receiver && log.applied == bridge.drained
    ensures bridge.queue == [] && bridge.drained == bridge.accepted == old(bridge.accepted)
    ensures bridge.dropped == old(bridge.dropped) && bridge.offered == old(bridge.offered) && bridge.fate == old(bridge.fate)
  {
    var batch := bridge.Foreground(|bridge.queue|, false);
    TakeIn(log, batch);
  }

  /**
   What happens next: the thread sends, with whatever the foreground takes between its two sends; a tick takes some
   messages into its batch, or ends and puts the batch into the log; or the foreground goes away.
   */
  datatype Turn<F> = Send(msg: BridgeMsg<F>, between: nat, leaves: bool) | Take(n: nat) | Apply | Leave

  /**
   Over any run, with the ticks of the foreground and the sends of the thread interleaved as they may: as long as the
   window is open, what the log has been given and what the running tick still holds are exactly what left the bridge,
   in order. So the log holds the last `EVENT_CAP` frames of all but that batch.
   */
  method RunBridge<F(==)>(bridge: Bridge<F>, log: EventLog<F>, turns: seq<Turn<F>>) returns (batch: seq<BridgeMsg<F>>)
    requires bridge.Valid() && log.Valid() && bridge.receiver && log.applied == bridge.drained
    requires forall t :: t in turns && t.Send? ==> !t.msg.IsNote()
    modifies bridge, log
    ensures bridge.Valid() && log.Valid()
    ensures bridge.receiver ==>
              && log.applied + batch == bridge.drained && log.applied + batch + bridge.queue == bridge.accepted
              && log.events == Tail(Frames(bridge.drained[..|bridge.drained| - |batch|]), EVENT_CAP)
    ensures |bridge.offered| == |Proper(bridge.accepted)| + Noted(bridge.accepted) + bridge.dropped
    ensures bridge.receiver <==> forall t :: t in turns ==> !t.Leave? && !(t.Send? && t.leaves)
    ensures bridge.receiver ==> bridge.offered == old(bridge.offered) + SentIn(turns)
    ensures turns != [] && turns[|turns| - 1].Apply? ==> batch == []
  {
    batch := [];
    var open := true;
    for i := 0 to |turns|
      invariant bridge.Valid() && log.Valid() && (bridge.receiver ==> open)
      invariant InStep(bridge, log, batch)
      invariant bridge.receiver <==> forall t :: t in turns[..i] ==> !t.Leave? && !(t.Send? && t.leaves)
      invariant bridge.receiver ==> bridge.offered == old(bridge.offered) + SentIn(turns[..i])
      invariant i > 0 && turns[i - 1].Apply? ==> batch == []
    {
      SentNext(turns, i);
      match turns[i] {
        case Send(msg, between, leaves) =>
          if open {
            open, batch := SendTurn(bridge, log, batch, msg, between, leaves);
          }
        case Take(n) => batch := TakeTurn(bridge, log, batch, n);
        case Apply => batch := ApplyTurn(bridge, log, batch);
        case Leave => batch := LeaveTurn(bridge, log, batch);
      }
    }
    assert turns[..|turns|] == turns;
    Conservation(bridge);
    assert bridge.receiver ==> bridge.drained[..|bridge.drained| - |batch|] == log.applied;
  }

  /** The messages of the sends among the turns. */
  function SentIn<F>(turns: seq<Turn<F>>): seq<BridgeMsg<F>> {
    if turns == [] then []
    else
      var last := turns[|turns| - 1];
      SentIn(turns[..|turns| - 1]) + if last.Send? then [last.msg] else []
  }

  lemma {:induction false} SentNext<F>(turns: seq<Turn<F>>, i: nat)
    requires i < |turns|
    ensures turns[..i + 1] == turns[..i] + [turns[i]]
    ensures SentIn(turns[..i + 1]) == SentIn(turns[..i]) + if turns[i].Send? then [turns[i].msg] else []
  {
    assert turns[..i + 1][..i] == turns[..i];
  }

  /** While the window is open, the log and the batch of the running tick hold what left the bridge. */
  ghost predicate InStep<F>(bridge: Bridge<F>, log: EventLog<F>, batch: seq<BridgeMsg<F>>)
    reads bridge, log
  {
    bridge.receiver ==> log.applied + batch == bridge.drained
  }

  method SendTurn<F(==)>(bridge: Bridge<F>, log: EventLog<F>, held: seq<BridgeMsg<F>>, msg: BridgeMsg<F>, between: nat, leaves: bool)
    returns (open: bool, batch: seq<BridgeMsg<F>>)
    requires bridge.Valid() && InStep(bridge, log, held) && !msg.IsNote()
    modifies bridge
    ensures bridge.Valid() && InStep(bridge, log, batch) && open == bridge.receiver == (old(bridge.receiver) && !leaves)
    ensures open ==> bridge.offered == old(bridge.offered) + [msg]
  {
    var taken;
    open, taken := bridge.BridgeSend(msg, between, leaves);
    batch := held + taken;
    Regroup(log.applied, held, taken);
  }

  method TakeTurn<F(==)>(bridge: Bridge<F>, log: EventLog<F>, held: seq<BridgeMsg<F>>, n: nat) returns (batch: seq<BridgeMsg<F>>)
    requires bridge.Valid() && InStep(bridge, log, held)
    modifies bridge
    ensures bridge.Valid() && InStep(bridge, log, batch) && bridge.receiver == old(bridge.receiver)
    ensures bridge.offered == old(bridge.offered)
  {
    var taken := bridge.Foreground(n, false);
    batch := held + taken;
    Regroup(log.applied, held, taken);
  }

  method ApplyTurn<F(==)>(bridge: Bridge<F>, log: EventLog<F>, held: seq<BridgeMsg<F>>) returns (batch: seq<BridgeMsg<F>>)
    requires log.Valid() && InStep(bridge, log, held)
    modifies log
    ensures log.Valid() && InStep(bridge, log, batch) && batch == []
  {
    TakeIn(log, held);
    batch := [];
  }

  method LeaveTurn<F(==)>(bridge: Bridge<F>, log: EventLog<F>, held: seq<BridgeMsg<F>>) returns (batch: seq<BridgeMsg<F>>)
    requires bridge.Valid() && InStep(bridge, log, held)
    modifies bridge
    ensures bridge.Valid() && InStep(bridge, log, batch) && !bridge.receiver
  {
    var taken := bridge.Foreground(0, true);
    batch := held;
  }
}
