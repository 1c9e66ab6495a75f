/**
 Which devices the segment map draws (`map.rs`, `announced_overlay` and `partition`): the gateway in the
 centre, the neighbours of the last reading around it, then the devices only their own announcements name.
 */
module StarMap {
  import opened Prelude

  const MAX_RING: nat := 12
  const ANNOUNCE_STALE_US: int := 600_000_000
  const I64_MIN: int := -0x8000_0000_0000_0000
  const I64_MAX: int := 0x7fff_ffff_ffff_ffff

  /** `chip` is the text `node_label` makes of the device. */
  datatype Neighbor = Neighbor(mac: string, chip: string, ip: string)

  datatype Announced = Announced(mac: string, chip: string, ip: string, lastSeenUs: int)

  datatype MapNode = MapNode(mac: string, chip: string, ip: string, announced: bool)

  function FromObs(n: Neighbor): MapNode {
    MapNode(n.mac, n.chip, n.ip, false)
  }

  function FromAnnounced(a: Announced): MapNode {
    MapNode(a.mac, a.chip, a.ip, true)
  }

  function Saturated(x: int): int {
    if x < I64_MIN then I64_MIN else if x > I64_MAX then I64_MAX else x
  }

  predicate IsPresent(a: Announced, nowUs: int) {
    Saturated(nowUs - a.lastSeenUs) <= ANNOUNCE_STALE_US
  }

  predicate Scanned(mac: string, neighbors: seq<Neighbor>) {
    exists i :: 0 <= i < |neighbors| && EqIgnoreCase(neighbors[i].mac, mac)
  }

  /** The announced devices still present that the reading does not carry. */
  function Overlay(announced: seq<Announced>, neighbors: seq<Neighbor>, nowUs: int): seq<Announced> {
    Filter((a: Announced) => IsPresent(a, nowUs) && !Scanned(a.mac, neighbors), announced)
  }

  method AnnouncedOverlay(announced: seq<Announced>, neighbors: seq<Neighbor>, nowUs: int) returns (r: seq<Announced>)
    ensures r == Overlay(announced, neighbors, nowUs)
  {
    r := [];
    for i := 0 to |announced|
      invariant r == Overlay(announced[..i], neighbors, nowUs)
    {
      var a := announced[i];
      FilterConcat((a: Announced) => IsPresent(a, nowUs) && !Scanned(a.mac, neighbors), announced[..i], [a]);
      assert announced[..i + 1] == announced[..i] + [a] && [a][1..] == [];
      if IsPresent(a, nowUs) && !Scanned(a.mac, neighbors) {
        r := r + [a];
      }
    }
    assert announced[..|announced|] == announced;
  }

  predicate IsKey(key: Option<string>, mac: string) {
    key.Some? && EqIgnoreCase(key.value, mac)
  }

  /** The devices in the order the source takes them: the reading, then the overlay. */
  function Candidates(neighbors: seq<Neighbor>, announced: seq<Announced>): (r: seq<MapNode>)
    ensures |r| == |neighbors| + |announced|
    ensures forall i :: 0 <= i < |neighbors| ==> r[i] == FromObs(neighbors[i])
    ensures forall i :: 0 <= i < |announced| ==> r[|neighbors| + i] == FromAnnounced(announced[i])
  {
    seq(|neighbors|, i requires 0 <= i < |neighbors| => FromObs(neighbors[i])) +
    seq(|announced|, i requires 0 <= i < |announced| => FromAnnounced(announced[i]))
  }

  /** `k` is the place of the gateway among `nodes`: the first whose MAC is the key, or none. */
  ghost predicate GatewayAt(nodes: seq<MapNode>, key: Option<string>, k: Option<nat>) {
    match k
    case None => forall i :: 0 <= i < |nodes| ==> !IsKey(key, nodes[i].mac)
    case Some(n) => n < |nodes| && IsKey(key, nodes[n].mac) && forall i :: 0 <= i < n ==> !IsKey(key, nodes[i].mac)
  }

  function Without(nodes: seq<MapNode>, k: Option<nat>): seq<MapNode>
    requires k.Some? ==> k.value < |nodes|
  {
    if k.None? then nodes else nodes[..k.value] + nodes[k.value + 1..]
  }

  /** `nodes` have been seated: the gateway, at place `k`, in the centre, everybody else on the ring in order. */
  ghost predicate Seated(nodes: seq<MapNode>, key: Option<string>, gateway: Option<MapNode>, ring: seq<MapNode>, k: Option<nat>) {
    && GatewayAt(nodes, key, k)
    && gateway == (if k.None? then None else Some(nodes[k.value]))
    && ring == Without(nodes, k)
  }

  /** The next device taken into the picture as the loops of the source do. */
  method Seat(node: MapNode, key: Option<string>, gateway0: Option<MapNode>, ring0: seq<MapNode>, ghost nodes: seq<MapNode>,
              ghost n: nat, ghost k0: Option<nat>)
    returns (gateway: Option<MapNode>, ring: seq<MapNode>, ghost k: Option<nat>)
    requires n < |nodes| && nodes[n] == node && Seated(nodes[..n], key, gateway0, ring0, k0)
    ensures Seated(nodes[..n + 1], key, gateway, ring, k)
  {
    assert nodes[..n + 1] == nodes[..n] + [node];
    gateway, ring, k := gateway0, ring0, k0;
    if gateway.None? && IsKey(key, node.mac) {
      gateway, k := Some(node), Some(n);
    } else {
      ring := ring + [node];
    }
  }

  method SeatAll(key: Option<string>, neighbors: seq<Neighbor>, announced: seq<Announced>)
    returns (gateway: Option<MapNode>, ring: seq<MapNode>, ghost k: Option<nat>)
    ensures Seated(Candidates(neighbors, announced), key, gateway, ring, k)
  {
    ghost var nodes := Candidates(neighbors, announced);
    gateway, ring, k := None, [], None;
    for i := 0 to |neighbors|
      invariant Seated(nodes[..i], key, gateway, ring, k)
    {
      gateway, ring, k := Seat(FromObs(neighbors[i]), key, gateway, ring, nodes, i, k);
    }
    for i := 0 to |announced|
      invariant Seated(nodes[..|neighbors| + i], key, gateway, ring, k)
    {
      gateway, ring, k := Seat(FromAnnounced(announced[i]), key, gateway, ring, nodes, |neighbors| + i, k);
    }
    assert nodes[..|nodes|] == nodes;
  }

  /** What is drawn: the gateway, as much of the ring as has a place, and how many have none. */
  ghost predicate Drawn(nodes: seq<MapNode>, k: Option<nat>, cap: nat, gateway: Option<MapNode>, ring: seq<MapNode>, dropped: nat)
    requires k.Some? ==> k.value < |nodes|
  {
    && gateway == (if k.None? then None else Some(nodes[k.value]))
    && ring <= Without(nodes, k)
    && |ring| <= cap
    && (dropped > 0 ==> |ring| == cap)
    && (if gateway.Some? then 1 else 0) + |ring| + dropped == |nodes|
  }

  /** The gateway, the ring, and how many the ring has no place for. */
  method Partition(key: Option<string>, neighbors: seq<Neighbor>, announced: seq<Announced>, capacity: nat)
    returns (gateway: Option<MapNode>, ring: seq<MapNode>, dropped: nat)
    ensures var nodes := Candidates(neighbors, announced);
            exists k :: GatewayAt(nodes, key, k) && Drawn(nodes, k, Min(capacity, MAX_RING), gateway, ring, dropped)
  {
    ghost var k;
    gateway, ring, k := SeatAll(key, neighbors, announced);
    var cap := Min(capacity, MAX_RING);
    dropped := if |ring| > cap then |ring| - cap else 0;
    ring := ring[..|ring| - dropped];
    assert Drawn(Candidates(neighbors, announced), k, cap, gateway, ring, dropped);
  }

  // ------------------------------------------------------------------------------------- theorems

  /** An announced device takes the centre only when no scanned one carries the key. */
  lemma {:induction false} ReadingOutranks(key: Option<string>, neighbors: seq<Neighbor>, announced: seq<Announced>, k: nat)
    requires GatewayAt(Candidates(neighbors, announced), key, Some(k))
    ensures Candidates(neighbors, announced)[k].announced <==> forall i :: 0 <= i < |neighbors| ==> !IsKey(key, neighbors[i].mac)
  {
    var nodes := Candidates(neighbors, announced);
    if k >= |neighbors| {
      assert nodes[k] == FromAnnounced(announced[k - |neighbors|]);
      forall i | 0 <= i < |neighbors| ensures !IsKey(key, neighbors[i].mac) {
        assert nodes[i] == FromObs(neighbors[i]);
      }
    } else {
      assert nodes[k] == FromObs(neighbors[k]);
    }
  }

  /** No scanned device loses its seat to an announced one: if one is seated, every scanned one is drawn. */
  lemma {:induction false} ScannedSeatedFirst(
      key: Option<string>, neighbors: seq<Neighbor>, announced: seq<Announced>, k: Option<nat>, ring: seq<MapNode>, n: nat)
    requires GatewayAt(Candidates(neighbors, announced), key, k)
    requires ring <= Without(Candidates(neighbors, announced), k)
    requires n < |ring| && ring[n].announced
    ensures forall i :: 0 <= i < |neighbors| ==> FromObs(neighbors[i]) in ring || k == Some(i)
  {
    var nodes := Candidates(neighbors, announced);
    var place := if k.Some? && n >= k.value then n + 1 else n;
    assert ring[n] == nodes[place];
    forall i | 0 <= i < |neighbors| && k != Some(i) ensures FromObs(neighbors[i]) in ring {
      var seat := if k.Some? && i > k.value then i - 1 else i;
      assert nodes[i] == FromObs(neighbors[i]);
      assert ring[seat] == Without(nodes, k)[seat] == nodes[i];
    }
  }

  ghost predicate DistinctMacs(macs: seq<string>) {
    forall i, j :: 0 <= i < j < |macs| ==> !EqIgnoreCase(macs[i], macs[j])
  }

  function MacsOf(nodes: seq<MapNode>): (r: seq<string>)
    ensures |r| == |nodes| && forall i :: 0 <= i < |r| ==> r[i] == nodes[i].mac
  {
    seq(|nodes|, i requires 0 <= i < |nodes| => nodes[i].mac)
  }

  ghost predicate Unlike(announced: seq<Announced>) {
    forall i, j :: 0 <= i < j < |announced| ==> !EqIgnoreCase(announced[i].mac, announced[j].mac)
  }

  lemma {:induction false} OverlayUnlike(announced: seq<Announced>, neighbors: seq<Neighbor>, nowUs: int)
    requires Unlike(announced)
    ensures Unlike(Overlay(announced, neighbors, nowUs))
    ensures forall a :: a in Overlay(announced, neighbors, nowUs) ==> a in announced && !Scanned(a.mac, neighbors)
  {
    if announced != [] {
      OverlayUnlike(announced[1..], neighbors, nowUs);
      var rest := Overlay(announced[1..], neighbors, nowUs);
      forall j | 0 <= j < |rest| ensures !EqIgnoreCase(announced[0].mac, rest[j].mac) {
        assert rest[j] in announced[1..];
        var i :| 0 <= i < |announced[1..]| && announced[1..][i] == rest[j];
        assert announced[i + 1] == rest[j];
      }
      assert forall a :: a in announced[1..] ==> a in announced;
    }
  }

  /**
   With the overlay taken from the same reading, no two devices drawn share a MAC, whatever its case, if the
   reading and the record each name a device once.
   */
  lemma {:induction false} NoTwoChipsForOneMac(neighbors: seq<Neighbor>, announced: seq<Announced>, nowUs: int)
    requires forall i, j :: 0 <= i < j < |neighbors| ==> !EqIgnoreCase(neighbors[i].mac, neighbors[j].mac)
    requires Unlike(announced)
    ensures DistinctMacs(MacsOf(Candidates(neighbors, Overlay(announced, neighbors, nowUs))))
  {
    var overlay := Overlay(announced, neighbors, nowUs);
    OverlayUnlike(announced, neighbors, nowUs);
    var macs := MacsOf(Candidates(neighbors, overlay));
    forall i, j | 0 <= i < j < |macs| ensures !EqIgnoreCase(macs[i], macs[j]) {
      TwoChipsUnlike(neighbors, overlay, i, j);
    }
  }

  lemma {:induction false} TwoChipsUnlike(neighbors: seq<Neighbor>, overlay: seq<Announced>, i: nat, j: nat)
    requires forall i, j :: 0 <= i < j < |neighbors| ==> !EqIgnoreCase(neighbors[i].mac, neighbors[j].mac)
    requires Unlike(overlay) && forall a :: a in overlay ==> !Scanned(a.mac, neighbors)
    requires i < j < |Candidates(neighbors, overlay)|
    ensures !EqIgnoreCase(Candidates(neighbors, overlay)[i].mac, Candidates(neighbors, overlay)[j].mac)
  {
    var n := |neighbors|;
    ChipMac(neighbors, overlay, i);
    ChipMac(neighbors, overlay, j);
    if i < n <= j {
      assert overlay[j - n] in overlay && !Scanned(overlay[j - n].mac, neighbors);
    }
  }

  lemma {:induction false} ChipMac(neighbors: seq<Neighbor>, announced: seq<Announced>, i: nat)
    requires i < |Candidates(neighbors, announced)|
    ensures Candidates(neighbors, announced)[i].mac ==
              if i < |neighbors| then neighbors[i].mac else announced[i - |neighbors|].mac
  {
  }

  /** A device is of the overlay exactly if it was last heard at most ten minutes ago and the reading does not carry it. */
  lemma {:induction false} HeardLately(announced: seq<Announced>, neighbors: seq<Neighbor>, nowUs: int, a: Announced)
    requires I64_MIN <= nowUs <= I64_MAX && I64_MIN <= a.lastSeenUs <= I64_MAX
    ensures a in Overlay(announced, neighbors, nowUs) <==>
              a in announced && nowUs <= a.lastSeenUs + 600_000_000 && !Scanned(a.mac, neighbors)
  {
    FilterMember((a: Announced) => IsPresent(a, nowUs) && !Scanned(a.mac, neighbors), announced, a);
  }

  /** A device is drawn as its row says: with its MAC, its chip and its address, marked if only announced. */
  lemma {:induction false} DrawnAsListed(neighbors: seq<Neighbor>, announced: seq<Announced>, i: nat)
    requires i < |Candidates(neighbors, announced)|
    ensures var node := Candidates(neighbors, announced)[i];
            if i < |neighbors| then
              var row := neighbors[i];
              node.mac == row.mac && node.chip == row.chip && node.ip == row.ip && !node.announced
            else
              var row := announced[i - |neighbors|];
              node.mac == row.mac && node.chip == row.chip && node.ip == row.ip && node.announced
  {
  }

  // ------------------------------------------------------------------------------------- the ring's radius

  const CHIP_W: real := 118.0
  const CHIP_H: real := 40.0
  const CHIP_GAP: real := 8.0
  const MAP_MIN_H: real := 232.0

  /** The square root the source takes: `floor` is the ring radius below which it does not go. */
  ghost predicate MinRingRadius(floor: real) {
    floor > 0.0 && floor * floor == (CHIP_W + CHIP_GAP) * (CHIP_W + CHIP_GAP) + (CHIP_H + CHIP_GAP) * (CHIP_H + CHIP_GAP)
  }

  datatype Plot = Plot(w: real, h: real, r: real)

  /** The largest radius that keeps a whole chip inside the box, and never less than the floor. */
  function PlotFor(w: real, h: real, floor: real): Plot {
    var w' := RealMax(w, CHIP_W + CHIP_GAP);
    var h' := RealMax(h, MAP_MIN_H);
    var fit := RealMin(w' / 2.0 - CHIP_W / 2.0, h' / 2.0 - CHIP_H / 2.0);
    Plot(w', h', RealMax(fit, floor))
  }

  /** A chip centred `dx`, `dy` from the middle of the star is on the ring. */
  ghost predicate OnRing(p: Plot, dx: real, dy: real) {
    dx * dx + dy * dy == p.r * p.r
  }

  function Size(x: real): real {
    if x < 0.0 then -x else x
  }

  /** It does not touch the chip in the middle. */
  ghost predicate ClearsCentre(dx: real, dy: real) {
    Size(dx) >= CHIP_W + CHIP_GAP || Size(dy) >= CHIP_H + CHIP_GAP
  }

  lemma {:induction false} SquareLess(x: real, a: real)
    requires Size(x) < a
    ensures x * x < a * a
  {
    var less, more := a - x, a + x;
    assert less > 0.0 && more > 0.0;
    assert less * more == a * a - x * x;
  }

  lemma {:induction false} SquareAtLeast(x: real, a: real)
    requires x >= a >= 0.0
    ensures x * x >= a * a
  {
    assert (x - a) * (x + a) >= 0.0;
  }

  /** Whatever the window's size, no neighbour's chip at any angle touches the gateway's. */
  lemma {:induction false} RingClearsCentre(w: real, h: real, floor: real, dx: real, dy: real)
    requires MinRingRadius(floor) && OnRing(PlotFor(w, h, floor), dx, dy)
    ensures ClearsCentre(dx, dy)
  {
    SquareAtLeast(PlotFor(w, h, floor).r, floor);
    if Size(dx) < CHIP_W + CHIP_GAP {
      SquareLess(dx, CHIP_W + CHIP_GAP);
      if Size(dy) < CHIP_H + CHIP_GAP {
        SquareLess(dy, CHIP_H + CHIP_GAP);
        assert false;
      }
    }
  }

  /** The floor is no larger than it must be: on any smaller ring some angle touches. */
  lemma {:induction false} FloorIsTight(floor: real, r: real) returns (dx: real, dy: real)
    requires MinRingRadius(floor) && 0.0 <= r < floor
    ensures dx * dx + dy * dy == r * r && !ClearsCentre(dx, dy)
  {
    var a, b, t := CHIP_W + CHIP_GAP, CHIP_H + CHIP_GAP, r / floor;
    assert t * floor == r && (1.0 - t) * floor == floor - r;
    dx, dy := t * a, t * b;
    calc {
      dx * dx + dy * dy;
      t * t * (a * a + b * b);
      t * t * (floor * floor);
      (t * floor) * (t * floor);
    }
  }

  /** The whole chip centred there is inside the box. */
  ghost predicate InBox(p: Plot, dx: real, dy: real) {
    Size(dx) + CHIP_W / 2.0 <= p.w / 2.0 && Size(dy) + CHIP_H / 2.0 <= p.h / 2.0
  }

  lemma {:induction false} WithinRadius(dx: real, dy: real, r: real)
    requires r >= 0.0 && dx * dx + dy * dy == r * r
    ensures Size(dx) <= r
  {
    assert dy * dy >= 0.0 && Size(dx) * Size(dx) == dx * dx;
    RootNotLarger(Size(dx), r);
  }

  lemma {:induction false} RootNotLarger(a: real, r: real)
    requires a >= 0.0 && r >= 0.0 && a * a <= r * r
    ensures a <= r
  {
    if a > r {
      SquareLess(r, a);
    }
  }

  /** At every angle a chip of the ring is inside the box exactly when the box leaves room for the floor. */
  lemma {:induction false} ChipsInsideTheBox(w: real, h: real, floor: real)
    requires MinRingRadius(floor)
    ensures var p := PlotFor(w, h, floor);
            (forall dx, dy :: OnRing(p, dx, dy) ==> InBox(p, dx, dy)) <==>
              floor + CHIP_W / 2.0 <= p.w / 2.0 && floor + CHIP_H / 2.0 <= p.h / 2.0
  {
    var p := PlotFor(w, h, floor);
    assert OnRing(p, p.r, 0.0) && OnRing(p, 0.0, p.r);
    forall dx, dy | OnRing(p, dx, dy) ensures Size(dx) <= p.r && Size(dy) <= p.r {
      WithinRadius(dx, dy, p.r);
      WithinRadius(dy, dx, p.r);
    }
    if forall dx, dy :: OnRing(p, dx, dy) ==> InBox(p, dx, dy) {
      assert InBox(p, p.r, 0.0) && InBox(p, 0.0, p.r);
    }
  }

  /** The ring is as large as it can be: beyond the floor, on any larger one some chip leaves the box. */
  lemma {:induction false} RingIsLargest(w: real, h: real, floor: real, r: real) returns (dx: real, dy: real)
    requires MinRingRadius(floor) && r > PlotFor(w, h, floor).r
    ensures dx * dx + dy * dy == r * r && !InBox(PlotFor(w, h, floor), dx, dy)
  {
    var p := PlotFor(w, h, floor);
    if r + CHIP_W / 2.0 > p.w / 2.0 {
      dx, dy := r, 0.0;
    } else {
      dx, dy := 0.0, r;
    }
  }

  /** The box is the window's, or the least that holds a chip with its gap and a map of the least height. */
  lemma {:induction false} BoxIsTheWindow(w: real, h: real, floor: real)
    ensures var p := PlotFor(w, h, floor);
            && p.w >= w && p.w >= 126.0 && (p.w == w || p.w == 126.0)
            && p.h >= h && p.h >= 232.0 && (p.h == h || p.h == 232.0)
  {
  }
}
