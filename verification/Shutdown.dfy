/**
 The cancellation cell shared by a window and its subscription thread (`Shutdown` and
 `run_subscription`, the same in `events.rs` and `air.rs`), as a machine of atomic steps.

 The loop of `air.rs` tells the window whether the daemon had to widen its filter before it arms the cell; that of
 `events.rs` arms it at once. The machine takes either way.

 The window's `trip` is four steps: store the flag, take the lock, empty the slot, close what was in
 it and release. The thread's `arm` holds the lock from its first step to its last but reads the flag
 between them. Steps of the two, and of the peer at the other end of the socket, interleave freely.
 */
module Shutdown {
  import opened Prelude

  type Sock = nat

  datatype Ui = Open | Flagged | Locked | Taken(handle: Option<Sock>) | Tripped

  /** Where the thread is; `handle` says whether `sub.handle()` yielded one for the socket. */
  datatype Pc =
    | Top
    | Subscribing
    | SendWidened(sock: Sock, handle: bool)
    | ArmLock(sock: Sock, handle: bool)
    | ArmCheck(sock: Sock, handle: bool)
    | ArmRefuse(sock: Sock, handle: bool)
    | ArmStore(sock: Sock, handle: bool)
    | SendReady(sock: Sock, handle: bool)
    | Read(sock: Sock, handle: bool)
    | SendFrame(sock: Sock, handle: bool)
    | Disarm(sock: Sock, handle: bool)
    | SendOffline
    | Bottom
    | Sleeping
    | Exited
  {
    predicate HoldsLock() { ArmCheck? || ArmRefuse? || ArmStore? }

    /** The thread is armed and on its way to or from a read of the socket. */
    predicate Reading() { SendReady? || Read? || SendFrame? }
  }

  datatype Holder = Nobody | TheWindow | TheThread

  datatype State = State(
    stop: bool,
    slot: Option<Sock>,
    lock: Holder,
    closed: set<Sock>,    // shut down by this process
    sockets: nat,         // how many have been opened
    buffered: nat,        // frames the current socket holds for the reader
    peerGone: bool,       // the peer of the current socket has closed it, or reading it fails
    ui: Ui,
    pc: Pc)

  ghost predicate Init(s: State) {
    s == State(false, None, Nobody, {}, 0, 0, false, Open, Top)
  }

  datatype Actor = Window | Thread | Peer

  function Close(closed: set<Sock>, sock: Sock, handle: bool): set<Sock> {
    if handle then closed + {sock} else closed
  }

  /** `Shutdown::trip`. */
  ghost predicate WindowStep(s: State, s': State) {
    match s.ui
    case Open => s' == s.(stop := true, ui := Flagged)
    case Flagged => s.lock == Nobody && s' == s.(lock := TheWindow, ui := Locked)
    case Locked => s' == s.(slot := None, ui := Taken(s.slot))
    case Taken(None) => s' == s.(lock := Nobody, ui := Tripped)
    case Taken(Some(sock)) => s' == s.(closed := s.closed + {sock}, lock := Nobody, ui := Tripped)
    case Tripped => false
  }

  /** The thread leaves for the next step, or returns because the receiver is gone. */
  ghost predicate Sends(s: State, s': State, next: Pc) {
    s' == s.(pc := next) || s' == s.(pc := Exited)
  }

  /** `run_subscription`, with `arm` and `disarm` inlined. */
  ghost predicate ThreadStep(s: State, s': State) {
    match s.pc
    case Top => s' == s.(pc := if s.stop then Exited else Subscribing)
    case Subscribing =>
      || s' == s.(pc := SendOffline)
      || (&& (s'.pc.ArmLock? || s'.pc.SendWidened?) && s'.pc.sock == s.sockets
          && s' == s.(pc := s'.pc, sockets := s.sockets + 1, buffered := s'.buffered, peerGone := s'.peerGone))
    case SendWidened(sock, h) => Sends(s, s', ArmLock(sock, h))
    case ArmLock(sock, h) => s.lock == Nobody && s' == s.(lock := TheThread, pc := ArmCheck(sock, h))
    case ArmCheck(sock, h) => s' == s.(pc := if s.stop then ArmRefuse(sock, h) else ArmStore(sock, h))
    case ArmRefuse(sock, h) =>
      s' == s.(closed := Close(s.closed, sock, h), slot := None, lock := Nobody, pc := Exited)
    case ArmStore(sock, h) =>
      s' == s.(slot := if h then Some(sock) else None, lock := Nobody, pc := SendReady(sock, h))
    case SendReady(sock, h) => Sends(s, s', Read(sock, h))
    case Read(sock, h) =>
      // A frame is forwarded, skipped as none of this window's business, or cannot be read and ends the stream.
      if s.buffered > 0 then
        || s' == s.(buffered := s.buffered - 1, pc := SendFrame(sock, h))
        || s' == s.(buffered := s.buffered - 1)
        || s' == s.(buffered := s.buffered - 1, pc := Disarm(sock, h))
      else (s.peerGone || sock in s.closed) && s' == s.(pc := Disarm(sock, h))
    case SendFrame(sock, h) => Sends(s, s', Read(sock, h))
    case Disarm(sock, h) => s.lock == Nobody && s' == s.(slot := None, pc := SendOffline)
    case SendOffline => Sends(s, s', Bottom)
    case Bottom => s' == s.(pc := if s.stop then Exited else Sleeping)
    case Sleeping => s' == s.(pc := Top)
    case Exited => false
  }

  /** The daemon writes to the socket the thread reads, or closes it, while it is still open. */
  ghost predicate PeerStep(s: State, s': State) {
    && s.pc.Reading() && s.pc.sock !in s.closed && !s.peerGone
    && s'.buffered >= s.buffered
    && s' == s.(buffered := s'.buffered, peerGone := s'.peerGone)
  }

  ghost predicate Step(actor: Actor, s: State, s': State) {
    match actor
    case Window => WindowStep(s, s')
    case Thread => ThreadStep(s, s')
    case Peer => PeerStep(s, s')
  }

  /** A run: its states, and who took each step. */
  /** What the world may do of itself: send more, and leave or fail, on the socket being read; nothing else changes by it. */
  lemma {:induction false} PeerOnlySends(s: State, s': State)
    requires Step(Peer, s, s')
    ensures s.pc.Reading() && s.pc.sock !in s.closed && !s.peerGone
    ensures s'.buffered >= s.buffered && s' == s.(buffered := s'.buffered, peerGone := s'.peerGone)
  {
  }

  ghost predicate IsRun(states: seq<State>, actors: seq<Actor>) {
    && |states| == |actors| + 1
    && forall i :: 0 <= i < |actors| ==> Step(actors[i], states[i], states[i + 1])
  }

  // --------------------------------------------------------------------------- what every step keeps

  ghost predicate Inv(s: State) {
    && (s.stop <==> !s.ui.Open?)
    && (s.lock == TheWindow <==> s.ui.Locked? || s.ui.Taken?)
    && (s.lock == TheThread <==> s.pc.HoldsLock())
    && (s.pc.ArmStore? ==> s.ui.Open? || s.ui.Flagged?)
    && (s.pc.ArmRefuse? ==> s.stop)
    && (s.ui.Taken? || s.ui.Tripped? ==> s.slot == None)
    && (forall sock :: sock in s.closed ==> sock < s.sockets)
    && (s.slot.Some? ==> s.slot.value < s.sockets)
    && (s.slot.Some? && !s.pc.Exited? ==>
          (s.pc.Reading() || s.pc.Disarm?) && s.pc.handle && s.slot.value == s.pc.sock)
    && (s.ui.Taken? && s.ui.handle.Some? ==> s.ui.handle.value < s.sockets)
    && (s.pc.SendWidened? || s.pc.ArmLock? || s.pc.HoldsLock() ==> s.pc.sock + 1 == s.sockets && s.pc.sock !in s.closed)
    && (s.ui.Taken? && s.ui.handle.Some? ==>
          s.pc.Exited? || ((s.pc.Reading() || s.pc.Disarm?) && s.pc.handle && s.pc.sock == s.ui.handle.value))
    && (s.pc.Reading() ==> s.pc.sock < s.sockets && (s.pc.sock in s.closed ==> s.pc.handle))
    && (s.pc.Reading() && s.pc.handle ==>
          s.slot == Some(s.pc.sock) || s.ui == Taken(Some(s.pc.sock)) || s.pc.sock in s.closed)
  }

  lemma {:induction false} WindowKeepsInv(s: State, s': State)
    requires Inv(s) && WindowStep(s, s')
    ensures Inv(s')
  {
  }

  lemma {:induction false} ArmKeepsInv(s: State, s': State)
    requires Inv(s) && ThreadStep(s, s') && (s.pc.SendWidened? || s.pc.ArmLock? || s.pc.HoldsLock())
    ensures Inv(s')
  {
  }

  lemma {:induction false} ReadKeepsInv(s: State, s': State)
    requires Inv(s) && ThreadStep(s, s') && (s.pc.Reading() || s.pc.Disarm?)
    ensures Inv(s')
  {
  }

  lemma {:induction false} RetryKeepsInv(s: State, s': State)
    requires Inv(s) && ThreadStep(s, s')
    requires s.pc.Top? || s.pc.Subscribing? || s.pc.SendOffline? || s.pc.Bottom? || s.pc.Sleeping?
    ensures Inv(s')
  {
  }

  lemma {:induction false} StepKeepsInv(actor: Actor, s: State, s': State)
    requires Inv(s) && Step(actor, s, s')
    ensures Inv(s')
  {
    match actor
    case Window => WindowKeepsInv(s, s');
    case Thread =>
      if s.pc.SendWidened? || s.pc.ArmLock? || s.pc.HoldsLock() {
        ArmKeepsInv(s, s');
      } else if s.pc.Reading() || s.pc.Disarm? {
        ReadKeepsInv(s, s');
      } else {
        RetryKeepsInv(s, s');
      }
    case Peer =>
  }

  /** Every state of every run, whatever the interleaving. */
  lemma {:induction false} RunKeepsInv(states: seq<State>, actors: seq<Actor>, n: nat)
    requires IsRun(states, actors) && Init(states[0]) && n < |states|
    ensures Inv(states[n])
  {
    if n > 0 {
      RunKeepsInv(states, actors, n - 1);
      StepKeepsInv(actors[n - 1], states[n - 1], states[n]);
    }
  }

  // ------------------------------------------------------------------------------ once trip is done

  /**
   Once `trip` has completed the slot stays empty, and the socket the thread is reading has been closed
   if and only if the thread had a handle to arm the cell with.
   */
  lemma {:induction false} TrippedClosesTheSocket(states: seq<State>, actors: seq<Actor>, n: nat)
    requires IsRun(states, actors) && Init(states[0]) && n < |states| && states[n].ui.Tripped?
    ensures states[n].slot == None && states[n].stop
    ensures states[n].pc.Reading() ==> (states[n].pc.sock in states[n].closed <==> states[n].pc.handle)
  {
    RunKeepsInv(states, actors, n);
  }

  /** The most steps a thread takes to return after `trip`, from where it is. */
  ghost function StepsLeft(s: State): nat {
    match s.pc
    case Exited => 0
    case Top => 1
    case Bottom => 1
    case ArmRefuse(_, _) => 1
    case Sleeping => 2
    case SendOffline => 2
    case ArmCheck(_, _) => 2
    case ArmStore(_, _) => 2
    case Disarm(_, _) => 3
    case ArmLock(_, _) => 3
    case SendWidened(_, _) => 4
    case Subscribing => 5
    case Read(_, _) => 4 + 2 * s.buffered
    case SendReady(_, _) => 5 + 2 * s.buffered
    case SendFrame(_, _) => 5 + 2 * s.buffered
  }

  /** `trip` has completed, and a thread that reads was armed with a handle. */
  ghost predicate Stoppable(s: State) {
    Inv(s) && s.ui.Tripped? && (s.pc.Reading() ==> s.pc.handle)
  }

  /** After `trip` nothing gives the thread more to do, and each step it takes leaves it less. */
  lemma {:induction false} StepsRunOut(actor: Actor, s: State, s': State)
    requires Stoppable(s) && Step(actor, s, s')
    ensures Stoppable(s') && actor == Thread
    ensures StepsLeft(s') < StepsLeft(s)
    ensures !s.pc.Reading() ==> !s'.pc.Reading()
  {
    StepKeepsInv(actor, s, s');
  }

  /**
   After `trip` only the thread still steps, in any run and however the scheduler behaves: at most `StepsLeft` times,
   which is five and two for each frame its socket holds. One that was not reading never starts another read.
   */
  lemma {:induction false} ThreadReturns(states: seq<State>, actors: seq<Actor>)
    requires IsRun(states, actors) && Stoppable(states[0])
    ensures forall i :: 0 <= i < |actors| ==> actors[i] == Thread
    ensures |actors| <= StepsLeft(states[0]) <= 5 + 2 * states[0].buffered
    ensures !states[0].pc.Reading() ==> forall i :: 0 <= i < |states| ==> !states[i].pc.Reading()
    decreases |actors|
  {
    if actors != [] {
      StepsRunOut(actors[0], states[0], states[1]);
      forall i | 0 <= i < |actors[1..]| ensures Step(actors[1..][i], states[1..][i], states[1..][i + 1]) {
        assert Step(actors[i + 1], states[i + 1], states[i + 2]);
      }
      ThreadReturns(states[1..], actors[1..]);
      assert forall i :: 1 <= i < |states| ==> states[i] == states[1..][i - 1];
    }
  }

  ghost predicate ThreadCanStep(s: State) {
    exists s' :: ThreadStep(s, s')
  }

  /**
   After `trip` the thread is never stuck short of returning, with exactly one exception: it reads a
   silent socket for which there was no handle to arm the cell with.
   */
  lemma {:induction false} StuckOnlyWithoutHandle(s: State)
    requires Inv(s) && s.ui.Tripped? && !s.pc.Exited?
    ensures !ThreadCanStep(s) <==> s.pc.Read? && !s.pc.handle && s.buffered == 0 && !s.peerGone
  {
    if !(s.pc.Read? && !s.pc.handle && s.buffered == 0 && !s.peerGone) {
      var s' := SomeStep(s);
      assert ThreadStep(s, s');
    }
  }

  /** One step the thread can take. */
  ghost function SomeStep(s: State): State {
    match s.pc
    case Top => s.(pc := if s.stop then Exited else Subscribing)
    case Subscribing => s.(pc := SendOffline)
    case ArmLock(sock, h) => s.(lock := TheThread, pc := ArmCheck(sock, h))
    case ArmCheck(sock, h) => s.(pc := if s.stop then ArmRefuse(sock, h) else ArmStore(sock, h))
    case ArmRefuse(sock, h) => s.(closed := Close(s.closed, sock, h), slot := None, lock := Nobody, pc := Exited)
    case ArmStore(sock, h) => s.(slot := if h then Some(sock) else None, lock := Nobody, pc := SendReady(sock, h))
    case Read(sock, h) =>
      if s.buffered > 0 then s.(buffered := s.buffered - 1, pc := SendFrame(sock, h)) else s.(pc := Disarm(sock, h))
    case Disarm(sock, h) => s.(slot := None, pc := SendOffline)
    case Sleeping => s.(pc := Top)
    case Bottom => s.(pc := if s.stop then Exited else Sleeping)
    case _ => s.(pc := Exited)
  }

  /**
   A socket offered to `arm` after `trip` is refused: the thread's next two steps close it, if there is
   a handle to close it by, and return.
   */
  lemma {:induction false} LateArmIsRefused(s: State, s1: State, s2: State)
    requires Inv(s) && s.ui.Tripped? && s.pc.ArmCheck? && ThreadStep(s, s1) && ThreadStep(s1, s2)
    ensures s2.pc.Exited? && s2.slot == None && s2.lock == Nobody
    ensures s2.closed == if s.pc.handle then s.closed + {s.pc.sock} else s.closed
  {
  }

  /** The exception is real: a run that ends with `trip` done and the thread parked for good. */
  lemma {:induction false} HandlelessThreadParks() returns (states: seq<State>, actors: seq<Actor>)
    ensures IsRun(states, actors) && Init(states[0])
    ensures var last := states[|states| - 1]; last.ui.Tripped? && !last.pc.Exited? && !ThreadCanStep(last)
  {
    var reading, armed := HandlelessThreadReads();
    var s6 := reading[6];
    var s7 := s6.(stop := true, ui := Flagged);
    var s8 := s7.(lock := TheWindow, ui := Locked);
    var s9 := s8.(ui := Taken(None));
    var s10 := s9.(lock := Nobody, ui := Tripped);
    assert WindowStep(s6, s7) && WindowStep(s7, s8) && WindowStep(s8, s9) && WindowStep(s9, s10);
    states := reading + [s7, s8, s9, s10];
    actors := armed + [Window, Window, Window, Window];
    forall i | 0 <= i < |actors| ensures Step(actors[i], states[i], states[i + 1]) {
      if i < 6 {
        assert Step(armed[i], reading[i], reading[i + 1]);
      }
    }
  }

  lemma {:induction false} HandlelessThreadReads() returns (states: seq<State>, actors: seq<Actor>)
    ensures |states| == 7 && IsRun(states, actors) && Init(states[0])
    ensures states[6] == State(false, None, Nobody, {}, 1, 0, false, Open, Read(0, false))
  {
    var s0 := State(false, None, Nobody, {}, 0, 0, false, Open, Top);
    var s1 := s0.(pc := Subscribing);
    var s2 := s1.(pc := ArmLock(0, false), sockets := 1);
    var s3 := s2.(lock := TheThread, pc := ArmCheck(0, false));
    var s4 := s3.(pc := ArmStore(0, false));
    var s5 := s4.(lock := Nobody, pc := SendReady(0, false));
    var s6 := s5.(pc := Read(0, false));
    assert ThreadStep(s0, s1) && ThreadStep(s1, s2) && ThreadStep(s2, s3);
    assert ThreadStep(s3, s4) && ThreadStep(s4, s5) && ThreadStep(s5, s6);
    states := [s0, s1, s2, s3, s4, s5, s6];
    actors := [Thread, Thread, Thread, Thread, Thread, Thread];
  }
}
