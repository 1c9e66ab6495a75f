/**
 One flush window of the announce listener (`window.rs`): every frame heard, folded into the devices and
 services it announced, under caps that count whatever they refuse.

 Each method is proved to change the tables as `Tables` says, refusals included; `Reading` is a window from its
 frames to its rows.
 */
module Window {
  import opened Prelude
  import opened Frames
  import opened Tables

  const U32_MAX: nat := 0xffff_ffff

  function SaturatingAdd(a: nat, b: nat): nat {
    Min(a + b, U32_MAX)
  }

  /** The tables after one captured frame: what it says, and what it announces on another host's behalf refused. */
  ghost function AfterFrame(l: Listener, d: Decoders, t: Tables, frame: Option<Frame>): Tables {
    if frame.None? then t
    else
      var u := AfterAll(t, Sayings(l, d, frame.value));
      u.(refused := u.refused + ProxiedBy(l, d, frame.value))
  }

  /** Routable IPv4 first, then routable IPv6, then link-local IPv4, then link-local IPv6. */
  function Rank(ip: IpAddr): nat {
    match ip
    case V4(a) => if a / 0x1_0000 == 0xa9fe then 2 else 0
    case V6(a) => if a / 0x40_0000_0000_0000_0000_0000_0000_0000 == 0x3fa then 3 else 1
  }

  /** The one address a row carries. */
  function Preferred(ips: seq<IpAddr>): (r: Option<IpAddr>)
    ensures r.None? <==> ips == []
    ensures r.Some? ==> exists i :: 0 <= i < |ips| && ips[i] == r.value && FirstBest(ips, i)
  {
    if ips == [] then None
    else
      var best, last := Preferred(ips[..|ips| - 1]), ips[|ips| - 1];
      if best.None? || Rank(last) < Rank(best.value) then
        assert FirstBest(ips, |ips| - 1);
        Some(last)
      else
        assert forall i :: 0 <= i < |ips| - 1 && ips[..|ips| - 1][i] == best.value && FirstBest(ips[..|ips| - 1], i) ==>
          ips[i] == best.value && FirstBest(ips, i);
        best
  }

  /** No address ranks before the `i`-th, and none seen earlier ranks as high. */
  predicate FirstBest(ips: seq<IpAddr>, i: nat)
    requires i < |ips|
  {
    && (forall j :: 0 <= j < |ips| ==> Rank(ips[i]) <= Rank(ips[j]))
    && (forall j :: 0 <= j < i ==> Rank(ips[i]) < Rank(ips[j]))
  }

  /** 169.254.0.0/16 and fe80::/10, by their bounds. */
  predicate LinkLocal(ip: IpAddr) {
    match ip
    case V4(a) => 0xa9fe_0000 <= a <= 0xa9fe_ffff
    case V6(a) => 0xfe80_0000_0000_0000_0000_0000_0000_0000 <= a <= 0xfebf_ffff_ffff_ffff_ffff_ffff_ffff_ffff
  }

  /** `ip` is the first of the addresses of one family that is link-local, or that is not. */
  ghost predicate FirstOf(ips: seq<IpAddr>, v4: bool, local: bool, ip: IpAddr) {
    exists i :: 0 <= i < |ips| && ips[i] == ip && OfKind(ip, v4, local) && forall j :: 0 <= j < i ==> !OfKind(ips[j], v4, local)
  }

  predicate OfKind(ip: IpAddr, v4: bool, local: bool) {
    ip.V4? == v4 && LinkLocal(ip) == local
  }

  ghost predicate AnyOf(ips: seq<IpAddr>, v4: bool, local: bool) {
    exists i :: 0 <= i < |ips| && OfKind(ips[i], v4, local)
  }

  lemma {:induction false} RankOfKind(ip: IpAddr)
    ensures Rank(ip) == 0 <==> OfKind(ip, true, false)
    ensures Rank(ip) == 1 <==> OfKind(ip, false, false)
    ensures Rank(ip) == 2 <==> OfKind(ip, true, true)
    ensures Rank(ip) == 3 <==> OfKind(ip, false, true)
  {
  }

  /**
   The one address a row carries, on the addresses themselves: the first IPv4 that is not link-local; with none, the
   first such IPv6; with none, the first link-local IPv4; and otherwise the first of all.
   */
  lemma {:induction false} PreferredMeans(ips: seq<IpAddr>)
    requires ips != []
    ensures Preferred(ips).Some?
    ensures var ip := Preferred(ips).value;
            if AnyOf(ips, true, false) then FirstOf(ips, true, false, ip)
            else if AnyOf(ips, false, false) then FirstOf(ips, false, false, ip)
            else if AnyOf(ips, true, true) then FirstOf(ips, true, true, ip)
            else ip == ips[0]
  {
    var ip := Preferred(ips).value;
    var i :| 0 <= i < |ips| && ips[i] == ip && FirstBest(ips, i);
    forall j | 0 <= j < |ips|
      ensures Rank(ips[j]) <= 3
      ensures (Rank(ips[j]) == 0 <==> OfKind(ips[j], true, false)) && (Rank(ips[j]) == 1 <==> OfKind(ips[j], false, false))
      ensures (Rank(ips[j]) == 2 <==> OfKind(ips[j], true, true)) && (Rank(ips[j]) == 3 <==> OfKind(ips[j], false, true))
    {
      RankOfKind(ips[j]);
    }
  }

  datatype NeighborRow = NeighborRow(ip: IpAddr, hostname: Option<string>)

  datatype ServiceRow = ServiceRow(ip: Option<IpAddr>, kind: Kind, detail: Detail)

  datatype Sample = Sample(neighbors: map<Mac, NeighborRow>, services: map<(Mac, string), ServiceRow>,
                           heard: nat, own: Option<nat>, dropped: nat)

  lemma {:induction false} OwnSaysNothing(l: Listener, d: Decoders, t: Tables, frame: Frame)
    requires l.IsOwn(frame.srcMac)
    ensures AfterFrame(l, d, t, Some(frame)) == t && Elements(Sayings(l, d, frame)) == {}
  {
    assert Sayings(l, d, frame) == [];
  }

  class Window {
    const listener: Listener
    var heard: nat
    var own: nat
    var undecoded: nat
    var dropped: nat
    var devices: Devices
    var services: Services
    var pendingNames: map<Mac, string>
    /** What was refused, without the 32 bits of `dropped`; and everything said. */
    ghost var refused: nat
    ghost var said: set<Saying>

    ghost function Now(): Tables
      reads this`devices, this`services, this`pendingNames, this`refused
    {
      Tables(devices, services, pendingNames, refused)
    }

    ghost predicate Counted()
      reads this`dropped, this`refused
    {
      dropped == Min(refused, U32_MAX)
    }

    ghost predicate Valid()
      reads this`devices, this`services, this`pendingNames, this`refused, this`dropped, this`said
    {
      Counted() && Fits(Now(), said) && forall s :: s in said ==> !listener.IsOwn(s.mac)
    }

    constructor (listener: Listener)
      ensures Valid() && this.listener == listener && said == {} && Now() == EMPTY
      ensures heard == 0 && own == 0 && undecoded == 0 && dropped == 0
    {
      this.listener := listener;
      heard, own, undecoded, dropped := 0, 0, 0, 0;
      devices, services, pendingNames, refused, said := map[], map[], map[], 0, {};
    }

    method Refuse(n: nat)
      requires Counted()
      modifies this`dropped, this`refused
      ensures Counted() && refused == old(refused) + n
    {
      dropped := SaturatingAdd(dropped, n);
      refused := refused + n;
    }

    /** The device slot for `mac`; refused when the MAC cannot name a device or the window is full. */
    method Slot(mac: Mac) returns (ok: bool)
      requires Counted()
      modifies this`devices, this`dropped, this`refused
      ensures Counted() && (Now(), ok) == Opened(old(Now()), mac)
    {
      if !IsUnicast(mac) {
        return false;
      }
      if mac !in devices && |devices| >= MAX_DEVICES {
        Refuse(1);
        return false;
      }
      if mac !in devices {
        devices := devices[mac := Device([], None, 0)];
      }
      return true;
    }

    /** Record that `mac` was seen using `ip`. */
    method Sight(mac: Mac, ip: IpAddr)
      requires Counted()
      modifies this`devices, this`dropped, this`refused
      ensures Counted() && Now() == AfterSight(old(Now()), mac, ip)
    {
      var ok := Slot(mac);
      if ok {
        var dev := devices[mac];
        if ip !in dev.ips {
          if |dev.ips| >= MAX_IPS_PER_DEVICE {
            Refuse(1);
          } else {
            devices := devices[mac := dev.(ips := dev.ips + [ip])];
          }
        }
      }
    }

    /** Attach a name to `mac`, keeping one already learned. */
    method Name(mac: Mac, name: string)
      requires Counted()
      modifies this`devices, this`dropped, this`refused
      ensures Counted() && Now() == AfterName(old(Now()), mac, name)
    {
      var ok := Slot(mac);
      if ok && devices[mac].hostname.None? {
        devices := devices[mac := devices[mac].(hostname := Some(name))];
      }
    }

    /** A service of a device that has a slot; refused beyond the cap. */
    method ServiceSlot(k: (Mac, string), kind: Kind, detail: Detail) returns (ok: bool)
      requires Counted() && k.0 in devices
      modifies this`devices, this`services, this`dropped, this`refused
      ensures Counted() && (Now(), ok) == ServiceOpened(old(Now()), k, kind, detail)
    {
      if k in services {
        return true;
      }
      if devices[k.0].services >= MAX_SERVICES_PER_DEVICE {
        Refuse(1);
        return false;
      }
      devices := devices[k.0 := devices[k.0].(services := devices[k.0].services + 1)];
      services := services[k := Announced([], kind, detail)];
      return true;
    }

    method AddSource(k: (Mac, string), ip: IpAddr)
      requires Counted() && k in services
      modifies this`services, this`dropped, this`refused
      ensures Counted() && Now() == WithSource(old(Now()), k, ip)
    {
      var slot := services[k];
      if ip in slot.ips {
        return;
      }
      if |slot.ips| >= MAX_IPS_PER_DEVICE {
        Refuse(1);
        return;
      }
      services := services[k := slot.(ips := slot.ips + [ip])];
    }

    /** A service offered by `mac`; a repeat may add an address, and changes nothing else. */
    method Announce(mac: Mac, from: Option<IpAddr>, service: string, kind: Kind, detail: Detail)
      requires Counted()
      modifies this`devices, this`services, this`dropped, this`refused
      ensures Counted() && Now() == AfterOffer(old(Now()), mac, from, service, kind, detail)
    {
      var ok := Slot(mac);
      if ok {
        var listed := ServiceSlot((mac, service), kind, detail);
        if listed && from.Some? {
          AddSource((mac, service), from.value);
        }
      }
    }

    /** Hold a DHCP hostname until the acknowledgement that names its address. */
    method RememberName(client: Mac, name: string)
      requires Counted()
      modifies this`pendingNames, this`dropped, this`refused
      ensures Counted() && Now() == AfterWait(old(Now()), client, name)
    {
      if !IsUnicast(client) || client in pendingNames {
        return;
      }
      if |pendingNames| >= MAX_PENDING_NAMES {
        Refuse(1);
        return;
      }
      pendingNames := pendingNames[client := name];
    }

    /** A name held for `client` is given out with its address. */
    method TakeName(client: Mac)
      requires Counted()
      modifies this`devices, this`pendingNames, this`dropped, this`refused
      ensures Counted() && Now() == AfterTake(old(Now()), client)
    {
      if client in pendingNames {
        var name := pendingNames[client];
        pendingNames := pendingNames - {client};
        Name(client, name);
      }
    }

    method Put(s: Saying)
      requires Counted()
      modifies this`devices, this`services, this`pendingNames, this`dropped, this`refused
      ensures Counted() && Now() == After(old(Now()), s)
    {
      match s {
        case Sighted(mac, ip) => Sight(mac, ip);
        case Named(mac, name) => Name(mac, name);
        case Offers(mac, from, service, kind, detail) => Announce(mac, from, service, kind, detail);
        case Waits(mac, name) => RememberName(mac, name);
        case Granted(mac, ip) =>
          Sight(mac, ip);
          TakeName(mac);
      }
    }

    /** One saying taken in. */
    method Hear(s: Saying)
      requires Valid() && !listener.IsOwn(s.mac)
      modifies this`devices, this`services, this`pendingNames, this`dropped, this`refused, this`said
      ensures Valid() && said == old(said) + {s}
      ensures Now() == After(old(Now()), s)
    {
      AfterFits(Now(), said, s);
      Put(s);
      said := said + {s};
    }

    method HearAll(says: seq<Saying>)
      requires Valid() && forall s :: s in says ==> !listener.IsOwn(s.mac)
      modifies this`devices, this`services, this`pendingNames, this`dropped, this`refused, this`said
      ensures Valid() && said == old(said) + Elements(says)
      ensures Now() == AfterAll(old(Now()), says)
    {
      for i := 0 to |says|
        invariant Valid() && said == old(said) + Elements(says[..i])
        invariant Now() == AfterAll(old(Now()), says[..i])
      {
        assert says[..i + 1][..i] == says[..i];
        Hear(says[i]);
        ElementsSnoc(old(said), says[..i + 1]);
      }
      assert says[..|says|] == says;
    }

    /** A frame of somebody else's; what it announces on another host's behalf is refused. */
    method AbsorbForeign(d: Decoders, frame: Frame)
      requires Valid() && !listener.IsOwn(frame.srcMac)
      modifies this`devices, this`services, this`pendingNames, this`dropped, this`refused, this`said
      ensures Valid() && said == old(said) + Elements(Sayings(listener, d, frame))
      ensures Now() == AfterFrame(listener, d, old(Now()), Some(frame))
    {
      OwnIsNeverSaid(listener, d, frame);
      HearAll(Sayings(listener, d, frame));
      RefusedMore(Now(), said, ProxiedBy(listener, d, frame));
      Refuse(ProxiedBy(listener, d, frame));
    }

    /** Fold one captured frame in; nothing is read of one too short to carry an Ethernet header. */
    method Absorb(d: Decoders, frame: Option<Frame>)
      requires Valid()
      modifies this
      ensures Valid() && heard == SaturatingAdd(old(heard), 1)
      ensures said == old(said) + if frame.Some? then Elements(Sayings(listener, d, frame.value)) else {}
      ensures Now() == AfterFrame(listener, d, old(Now()), frame)
      ensures own == if frame.Some? && listener.IsOwn(frame.value.srcMac) then SaturatingAdd(old(own), 1) else old(own)
      ensures undecoded == if frame.None? then SaturatingAdd(old(undecoded), 1) else old(undecoded)
    {
      heard := SaturatingAdd(heard, 1);
      if frame.None? {
        undecoded := SaturatingAdd(undecoded, 1);
        return;
      }
      if listener.IsOwn(frame.value.srcMac) {
        OwnSaysNothing(listener, d, Now(), frame.value);
        own := SaturatingAdd(own, 1);
        return;
      }
      AbsorbForeign(d, frame.value);
    }

    /** The window as one reading. A device without an address has no row. */
    method Flush() returns (sample: Sample)
      requires Valid()
      ensures sample.heard == heard && sample.dropped == dropped
      ensures sample.own == if listener.own.Some? then Some(own) else None
      ensures forall mac :: mac in sample.neighbors <==> mac in devices && devices[mac].ips != []
      ensures forall mac :: mac in sample.neighbors ==>
                SaidAddress(said, mac, sample.neighbors[mac].ip) && IsUnicast(mac) && !listener.IsOwn(mac)
                && sample.neighbors[mac].hostname == devices[mac].hostname
                && Preferred(devices[mac].ips) == Some(sample.neighbors[mac].ip)
      ensures sample.services.Keys == services.Keys
      ensures forall k :: k in services ==>
                sample.services[k] == ServiceRow(Preferred(services[k].ips), services[k].kind, services[k].detail)
    {
      var neighbors := map mac | mac in devices && devices[mac].ips != [] ::
        NeighborRow(Preferred(devices[mac].ips).value, devices[mac].hostname);
      var rows := map k | k in services :: ServiceRow(Preferred(services[k].ips), services[k].kind, services[k].detail);
      sample := Sample(neighbors, rows, heard, if listener.own.Some? then Some(own) else None, dropped);
    }
  }

  // ------------------------------------------------------------------------------------- what a window means

  /** As long as nothing was refused, a device's addresses are exactly those somebody spoke of. */
  lemma {:induction false} ExactUnlessRefused(w: Window, mac: Mac, ip: IpAddr)
    requires w.Valid() && w.dropped == 0
    ensures mac in w.devices && ip in w.devices[mac].ips <==> IsUnicast(mac) && SaidAddress(w.said, mac, ip)
  {
    if mac in w.devices {
      assert DeviceBounded(w.services, mac, w.devices[mac]) && DeviceSaid(w.said, mac, w.devices[mac]);
    }
    if Sighted(mac, ip) in w.said {
      assert Recorded(Sighted(mac, ip), w.Now());
    } else if Granted(mac, ip) in w.said {
      assert Recorded(Granted(mac, ip), w.Now());
    }
  }

  /** Likewise its services, whichever protocol announced them. */
  lemma {:induction false} ServicesExactUnlessRefused(w: Window, k: (Mac, string))
    requires w.Valid() && w.dropped == 0
    ensures k in w.services <==> IsUnicast(k.0) && exists from, kind, detail :: Offers(k.0, from, k.1, kind, detail) in w.said
  {
    if k in w.services {
      assert ServiceSaid(w.said, k, w.services[k]);
      assert DeviceBounded(w.services, k.0, w.devices[k.0]);
    }
    if from, kind, detail :| Offers(k.0, from, k.1, kind, detail) in w.said {
      assert Recorded(Offers(k.0, from, k.1, kind, detail), w.Now());
    }
  }

  // ------------------------------------------------------------------------------------- a window from its frames

  /** Everything said by the frames that could be sliced. */
  ghost function AllSaid(l: Listener, d: Decoders, frames: seq<Option<Frame>>): set<Saying> {
    if frames == [] then {}
    else
      var last := frames[|frames| - 1];
      AllSaid(l, d, frames[..|frames| - 1]) + if last.Some? then Elements(Sayings(l, d, last.value)) else {}
  }

  lemma {:induction false} SaidByAFrame(l: Listener, d: Decoders, frames: seq<Option<Frame>>, s: Saying)
    ensures s in AllSaid(l, d, frames) <==> exists f :: Some(f) in frames && s in Sayings(l, d, f)
  {
    if frames != [] {
      var front, last := frames[..|frames| - 1], frames[|frames| - 1];
      SaidByAFrame(l, d, front, s);
      assert frames == front + [last];
      if last.Some? && s in Sayings(l, d, last.value) {
        assert Some(last.value) in frames;
      }
      if s in AllSaid(l, d, front) {
        var f :| Some(f) in front && s in Sayings(l, d, f);
        assert Some(f) in frames;
      }
    }
  }

  /** Some frame pairs `ip` with `mac`. */
  ghost predicate Paired(l: Listener, d: Decoders, frames: seq<Option<Frame>>, mac: Mac, ip: IpAddr) {
    exists f :: Some(f) in frames && PairsAddress(l, d, f, mac, ip)
  }

  ghost predicate NamedBy(l: Listener, d: Decoders, frames: seq<Option<Frame>>, mac: Mac, name: string) {
    exists f :: Some(f) in frames && (Named(mac, name) in Sayings(l, d, f) || Waits(mac, name) in Sayings(l, d, f))
  }

  lemma {:induction false} SaidIsPaired(l: Listener, d: Decoders, frames: seq<Option<Frame>>, mac: Mac, ip: IpAddr)
    ensures SaidAddress(AllSaid(l, d, frames), mac, ip) <==> Paired(l, d, frames, mac, ip)
  {
    SaidByAFrame(l, d, frames, Sighted(mac, ip));
    SaidByAFrame(l, d, frames, Granted(mac, ip));
    forall f ensures Sighted(mac, ip) in Sayings(l, d, f) || Granted(mac, ip) in Sayings(l, d, f) <==>
                       PairsAddress(l, d, f, mac, ip) {
      Pairings(l, d, f, mac, ip);
    }
  }

  lemma {:induction false} SaidIsNamed(l: Listener, d: Decoders, frames: seq<Option<Frame>>, mac: Mac, name: string)
    requires SaidName(AllSaid(l, d, frames), mac, name)
    ensures NamedBy(l, d, frames, mac, name)
  {
    SaidByAFrame(l, d, frames, Named(mac, name));
    SaidByAFrame(l, d, frames, Waits(mac, name));
  }

  // ------------------------------------------------------------------------------------- what is refused over a window

  /** The tables of a window from its frames. */
  ghost function AfterFrames(l: Listener, d: Decoders, frames: seq<Option<Frame>>): Tables {
    if frames == [] then EMPTY
    else AfterFrame(l, d, AfterFrames(l, d, frames[..|frames| - 1]), frames[|frames| - 1])
  }

  /** The services announced on another host's behalf. */
  ghost function Proxied(l: Listener, d: Decoders, frames: seq<Option<Frame>>): nat {
    if frames == [] then 0
    else
      var last := frames[|frames| - 1];
      Proxied(l, d, frames[..|frames| - 1]) + if last.Some? then ProxiedBy(l, d, last.value) else 0
  }

  /** The clients waiting for an address after the frames, were there no cap. */
  ghost function WaitingOver(l: Listener, d: Decoders, frames: seq<Option<Frame>>): set<Mac> {
    if frames == [] then {}
    else
      var last, clients := frames[|frames| - 1], WaitingOver(l, d, frames[..|frames| - 1]);
      if last.Some? then WaitingAfter(clients, Sayings(l, d, last.value)) else clients
  }

  ghost predicate NamesFitOver(l: Listener, d: Decoders, frames: seq<Option<Frame>>) {
    frames == [] ||
    var front, last := frames[..|frames| - 1], frames[|frames| - 1];
    NamesFitOver(l, d, front) && (last.Some? ==> NamesFit(WaitingOver(l, d, front), Sayings(l, d, last.value)))
  }

  /** What one frame refuses: what it announces for others, and beyond that something or nothing as there is room. */
  lemma {:induction false} FrameRefuses(l: Listener, d: Decoders, t: Tables, said: set<Saying>, frame: Frame)
    requires Fits(t, said)
    ensures var says, u := Sayings(l, d, frame), AfterFrame(l, d, t, Some(frame));
            && Fits(u, said + Elements(says)) && t.refused + ProxiedBy(l, d, frame) <= u.refused
            && (u.refused == t.refused + ProxiedBy(l, d, frame) ==>
                  NamesFit(t.pending.Keys, says) && u.pending.Keys == WaitingAfter(t.pending.Keys, says))
            && (Room(said + Elements(says)) && NamesFit(t.pending.Keys, says) ==>
                  u.refused == t.refused + ProxiedBy(l, d, frame))
  {
    var says := Sayings(l, d, frame);
    AllFit(t, said, says);
    var u := AfterAll(t, says);
    RefusedMore(u, said + Elements(says), ProxiedBy(l, d, frame));
    if u.refused == t.refused {
      NamesHeld(t, said, says);
    }
    if Room(said + Elements(says)) && NamesFit(t.pending.Keys, says) {
      NoneRefused(t, said, says);
    }
  }

  lemma {:induction false} RefusedMore(t: Tables, said: set<Saying>, n: nat)
    requires Fits(t, said)
    ensures Fits(t.(refused := t.refused + n), said)
  {
    if t.refused + n == 0 {
      assert t.(refused := t.refused + n) == t;
    }
  }

  /** The tables fit what the frames said, and while nothing but the proxied was refused the names held are those waiting. */
  lemma {:induction false} FramesFit(l: Listener, d: Decoders, frames: seq<Option<Frame>>)
    ensures var t := AfterFrames(l, d, frames);
            && Fits(t, AllSaid(l, d, frames)) && Proxied(l, d, frames) <= t.refused
            && (t.refused == Proxied(l, d, frames) ==> NamesFitOver(l, d, frames) && t.pending.Keys == WaitingOver(l, d, frames))
  {
    if frames != [] {
      var front, last := frames[..|frames| - 1], frames[|frames| - 1];
      FramesFit(l, d, front);
      if last.Some? {
        FrameRefuses(l, d, AfterFrames(l, d, front), AllSaid(l, d, front), last.value);
      }
    }
  }

  lemma {:induction false} RoomForFrames(l: Listener, d: Decoders, frames: seq<Option<Frame>>)
    requires Room(AllSaid(l, d, frames)) && NamesFitOver(l, d, frames)
    ensures AfterFrames(l, d, frames).refused == Proxied(l, d, frames)
  {
    if frames != [] {
      var front, last := frames[..|frames| - 1], frames[|frames| - 1];
      RoomShrinks(AllSaid(l, d, front), AllSaid(l, d, frames));
      RoomForFrames(l, d, front);
      FramesFit(l, d, front);
      if last.Some? {
        FrameRefuses(l, d, AfterFrames(l, d, front), AllSaid(l, d, front), last.value);
      }
    }
  }

  /** The frames leave room: what they say is within the caps, and at no moment do too many names wait. */
  ghost predicate LeaveRoom(l: Listener, d: Decoders, frames: seq<Option<Frame>>) {
    Room(AllSaid(l, d, frames)) && NamesFitOver(l, d, frames)
  }

  /** When a window refuses nothing: exactly if its frames leave room and announce nothing for another host. */
  lemma {:induction false} RefusedOverFrames(l: Listener, d: Decoders, frames: seq<Option<Frame>>)
    ensures var refused := AfterFrames(l, d, frames).refused;
            && (refused == 0 <==> LeaveRoom(l, d, frames) && Proxied(l, d, frames) == 0)
            && (LeaveRoom(l, d, frames) ==> refused == Proxied(l, d, frames))
  {
    FramesFit(l, d, frames);
    if AfterFrames(l, d, frames).refused == 0 {
      RecordedHasRoom(AfterFrames(l, d, frames), AllSaid(l, d, frames));
    }
    if LeaveRoom(l, d, frames) {
      RoomForFrames(l, d, frames);
    }
  }

  // ------------------------------------------------------------------------------------- from frames to rows

  /**
   A window opened, fed and flushed: every row is a device some frame paired with the row's address, under a name
   some frame gave it; and if nothing was refused every device paired with an address has a row. That is the case
   exactly when the frames leave room and announce nothing for another host.
   */
  method Reading(l: Listener, d: Decoders, frames: seq<Option<Frame>>) returns (sample: Sample)
    ensures sample.heard == Min(|frames|, U32_MAX)
    ensures forall mac :: mac in sample.neighbors ==>
              && IsUnicast(mac) && !l.IsOwn(mac) && Paired(l, d, frames, mac, sample.neighbors[mac].ip)
              && (sample.neighbors[mac].hostname.Some? ==> NamedBy(l, d, frames, mac, sample.neighbors[mac].hostname.value))
    ensures sample.dropped == 0 ==> forall mac :: mac in sample.neighbors <==> HasPairing(l, d, frames, mac)
    ensures sample.dropped == 0 <==> LeaveRoom(l, d, frames) && Proxied(l, d, frames) == 0
    ensures LeaveRoom(l, d, frames) ==> sample.dropped == Min(Proxied(l, d, frames), U32_MAX)
  {
    var w := new Window(l);
    for i := 0 to |frames|
      invariant fresh(w) && w.Valid() && w.listener == l && w.heard == Min(i, U32_MAX)
      invariant w.said == AllSaid(l, d, frames[..i]) && w.Now() == AfterFrames(l, d, frames[..i])
    {
      assert frames[..i + 1][..i] == frames[..i];
      w.Absorb(d, frames[i]);
    }
    assert frames[..|frames|] == frames;
    sample := w.Flush();
    RowsMean(w, d, frames);
    RefusedOverFrames(l, d, frames);
  }

  /** A device that can be named, and some frame pairs with an address. */
  ghost predicate HasPairing(l: Listener, d: Decoders, frames: seq<Option<Frame>>, mac: Mac) {
    IsUnicast(mac) && exists ip :: Paired(l, d, frames, mac, ip)
  }

  lemma {:induction false} RowsMean(w: Window, d: Decoders, frames: seq<Option<Frame>>)
    requires w.Valid() && w.said == AllSaid(w.listener, d, frames)
    ensures forall mac, ip :: SaidAddress(w.said, mac, ip) ==> Paired(w.listener, d, frames, mac, ip)
    ensures forall mac :: mac in w.devices && w.devices[mac].hostname.Some? ==>
              NamedBy(w.listener, d, frames, mac, w.devices[mac].hostname.value)
    ensures w.dropped == 0 ==>
              forall mac :: mac in w.devices && w.devices[mac].ips != [] <==> HasPairing(w.listener, d, frames, mac)
  {
    forall mac, ip ensures SaidAddress(w.said, mac, ip) <==> Paired(w.listener, d, frames, mac, ip) {
      SaidIsPaired(w.listener, d, frames, mac, ip);
    }
    forall mac | mac in w.devices && w.devices[mac].hostname.Some?
      ensures NamedBy(w.listener, d, frames, mac, w.devices[mac].hostname.value) {
      assert DeviceSaid(w.said, mac, w.devices[mac]);
      SaidIsNamed(w.listener, d, frames, mac, w.devices[mac].hostname.value);
    }
    if w.dropped == 0 {
      forall mac ensures mac in w.devices && w.devices[mac].ips != [] <==> HasPairing(w.listener, d, frames, mac) {
        HasAddress(w, d, frames, mac);
      }
    }
  }

  lemma {:induction false} HasAddress(w: Window, d: Decoders, frames: seq<Option<Frame>>, mac: Mac)
    requires w.Valid() && w.dropped == 0 && w.said == AllSaid(w.listener, d, frames)
    ensures mac in w.devices && w.devices[mac].ips != [] <==> HasPairing(w.listener, d, frames, mac)
  {
    if mac in w.devices && w.devices[mac].ips != [] {
      var ip := w.devices[mac].ips[0];
      ExactUnlessRefused(w, mac, ip);
      SaidIsPaired(w.listener, d, frames, mac, ip);
    }
    if HasPairing(w.listener, d, frames, mac) {
      var ip :| Paired(w.listener, d, frames, mac, ip);
      SaidIsPaired(w.listener, d, frames, mac, ip);
      ExactUnlessRefused(w, mac, ip);
    }
  }
}
