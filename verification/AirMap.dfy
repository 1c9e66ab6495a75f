/**
 One Wi-Fi scan as the sections of the channel map (`air.rs`, `group` and `ring_marks`): grouped by band,
 ranked against our own channel, cut to the rows a section can show.

 A signal strength is an `i32` in the source and an integer here.
 */
module AirMap {
  import opened Prelude
  import opened StableSort
  import opened Channels

  const MAX_ROWS_PER_BAND: nat := 24

  datatype Observation = Observation(
    channel: Option<int>, band: Option<Band>, widthMhz: Option<int>, rssiDbm: Option<int>,
    phyMode: Option<string>, security: Option<string>)

  datatype LaneOverlap = OwnChannelUnknown | OwnBandElsewhere(band: Band) | Computed(hypothesis: Hypothesis)

  datatype Lane = Lane(
    span: ChannelSpan, rssiDbm: Option<int>, phyMode: Option<string>, security: Option<string>, overlap: LaneOverlap)

  datatype BandGroup = BandGroup(
    band: Band, own: Option<ChannelSpan>, ownElsewhere: Option<Band>, lanes: seq<Lane>, dropped: nat)

  function SpanOf(ap: Observation): Option<ChannelSpan> {
    NewSpan(ap.channel, ap.band, ap.widthMhz)
  }

  function OverlapWith(own: Option<ChannelSpan>, span: ChannelSpan, rssiDbm: Option<int>): LaneOverlap {
    if own.None? then OwnChannelUnknown
    else if own.value.band == span.band then Computed(OverlapHypothesis(own.value, span, rssiDbm))
    else OwnBandElsewhere(own.value.band)
  }

  function LaneFor(own: Option<ChannelSpan>, ap: Observation): Lane
    requires SpanOf(ap).Some?
  {
    var span := SpanOf(ap).value;
    Lane(span, ap.rssiDbm, ap.phyMode, ap.security, OverlapWith(own, span, ap.rssiDbm))
  }

  predicate KeyAtMost(a: (int, int), b: (int, int)) {
    a.0 < b.0 || (a.0 == b.0 && a.1 <= b.1)
  }

  function Loudness(l: Lane): int {
    if l.rssiDbm.Some? then l.rssiDbm.value else I32_MIN
  }

  /** The comparator of the source: whether `a` may stand before `b`. */
  predicate Ranks(a: Lane, b: Lane) {
    if a.overlap.Computed? && b.overlap.Computed?
    then KeyAtMost(b.overlap.hypothesis.RankKey(), a.overlap.hypothesis.RankKey())
    else Loudness(b) <= Loudness(a)
  }

  // ------------------------------------------------------------------------------------- what a section shows

  /** The access points heard in one band, in report order. */
  function LanesOf(own: Option<ChannelSpan>, aps: seq<Observation>, band: Band): seq<Lane> {
    if aps == [] then []
    else
      var last := aps[|aps| - 1];
      LanesOf(own, aps[..|aps| - 1], band) +
      if SpanOf(last).Some? && SpanOf(last).value.band == band then [LaneFor(own, last)] else []
  }

  function OwnIn(own: Option<ChannelSpan>, band: Band): Option<ChannelSpan> {
    if own.Some? && own.value.band == band then own else None
  }

  function ElsewhereFor(own: Option<ChannelSpan>, band: Band): Option<Band> {
    if own.Some? && own.value.band != band then Some(own.value.band) else None
  }

  /** A band's section before it is ranked. */
  function Collected(own: Option<ChannelSpan>, aps: seq<Observation>, band: Band): BandGroup {
    BandGroup(band, OwnIn(own, band), ElsewhereFor(own, band), LanesOf(own, aps, band), 0)
  }

  /** The band's section as it is shown: ranked, and the lowest ranks beyond the limit dropped. */
  function Section(own: Option<ChannelSpan>, aps: seq<Observation>, band: Band): BandGroup {
    var g := Collected(own, aps, band);
    var ranked := Sort(Ranks, g.lanes);
    if |ranked| > MAX_ROWS_PER_BAND then g.(lanes := ranked[..MAX_ROWS_PER_BAND], dropped := |ranked| - MAX_ROWS_PER_BAND)
    else g.(lanes := ranked)
  }

  /** A band has a section: we are on it, or somebody was heard there. */
  predicate Shown(own: Option<ChannelSpan>, aps: seq<Observation>, band: Band) {
    OwnIn(own, band).Some? || LanesOf(own, aps, band) != []
  }

  /** One group for each band, in any order. */
  ghost predicate OnePerBand(groups: seq<BandGroup>, own: Option<ChannelSpan>, aps: seq<Observation>) {
    && (forall i, j :: 0 <= i < j < |groups| ==> groups[i].band != groups[j].band)
    && (forall band :: Shown(own, aps, band) <==> HasBand(groups, band))
  }

  ghost predicate HasBand(groups: seq<BandGroup>, band: Band) {
    exists g :: g in groups && g.band == band
  }

  /** Each band's section, from the lowest band up. */
  ghost predicate Sections(groups: seq<BandGroup>, own: Option<ChannelSpan>, aps: seq<Observation>) {
    && OnePerBand(groups, own, aps)
    && (forall g :: g in groups ==> g == Section(own, aps, g.band))
    && (forall i, j :: 0 <= i < j < |groups| ==> groups[i].band.Index() < groups[j].band.Index())
  }

  ghost predicate AllCollected(groups: seq<BandGroup>, own: Option<ChannelSpan>, aps: seq<Observation>) {
    forall i :: 0 <= i < |groups| ==> groups[i] == Collected(own, aps, groups[i].band)
  }

  // ------------------------------------------------------------------------------------- grouping

  method FindGroup(groups: seq<BandGroup>, band: Band) returns (k: nat)
    ensures k <= |groups|
    ensures k < |groups| ==> groups[k].band == band
    ensures k == |groups| <==> !HasBand(groups, band)
  {
    k := 0;
    while k < |groups| && groups[k].band != band
      invariant k <= |groups| && forall j :: 0 <= j < k ==> groups[j].band != band
    {
      k := k + 1;
    }
    if k < |groups| {
      assert groups[k] in groups;
    }
  }

  /** One more access point put into its band's group, a new one if it is the first there. */
  method AddToBand(groups: seq<BandGroup>, own: Option<ChannelSpan>, ghost seen: seq<Observation>, ap: Observation)
    returns (r: seq<BandGroup>)
    requires OnePerBand(groups, own, seen) && AllCollected(groups, own, seen)
    ensures OnePerBand(r, own, seen + [ap]) && AllCollected(r, own, seen + [ap])
  {
    assert (seen + [ap])[..|seen|] == seen;
    var span := SpanOf(ap);
    if span.None? {
      return groups;
    }
    var lane := LaneFor(own, ap);
    var band := span.value.band;
    var k := FindGroup(groups, band);
    if k < |groups| {
      LaneJoins(groups, own, seen, ap, k);
      r := groups[k := groups[k].(lanes := groups[k].lanes + [lane])];
    } else {
      BandOpens(groups, own, seen, ap);
      r := groups + [BandGroup(band, None, if own.Some? then Some(own.value.band) else None, [lane], 0)];
    }
  }

  lemma {:induction false} LaneJoins(groups: seq<BandGroup>, own: Option<ChannelSpan>, seen: seq<Observation>, ap: Observation, k: nat)
    requires OnePerBand(groups, own, seen) && AllCollected(groups, own, seen)
    requires SpanOf(ap).Some? && k < |groups| && groups[k].band == SpanOf(ap).value.band
    ensures var r := groups[k := groups[k].(lanes := groups[k].lanes + [LaneFor(own, ap)])];
            OnePerBand(r, own, seen + [ap]) && AllCollected(r, own, seen + [ap])
  {
    var r := groups[k := groups[k].(lanes := groups[k].lanes + [LaneFor(own, ap)])];
    assert (seen + [ap])[..|seen|] == seen;
    SameBands(groups, r);
    SameBands(r, groups);
    assert groups[k] in groups;
  }

  lemma {:induction false} BandOpens(groups: seq<BandGroup>, own: Option<ChannelSpan>, seen: seq<Observation>, ap: Observation)
    requires OnePerBand(groups, own, seen) && AllCollected(groups, own, seen)
    requires SpanOf(ap).Some? && !HasBand(groups, SpanOf(ap).value.band)
    ensures var r := groups + [Collected(own, seen + [ap], SpanOf(ap).value.band)];
            OnePerBand(r, own, seen + [ap]) && AllCollected(r, own, seen + [ap])
    ensures Collected(own, seen + [ap], SpanOf(ap).value.band) ==
              BandGroup(SpanOf(ap).value.band, None, if own.Some? then Some(own.value.band) else None, [LaneFor(own, ap)], 0)
  {
    var band := SpanOf(ap).value.band;
    assert (seen + [ap])[..|seen|] == seen;
    assert !Shown(own, seen, band);
    var r := groups + [Collected(own, seen + [ap], band)];
    assert r[|groups|] in r;
    forall i | 0 <= i < |groups| ensures groups[i].band != band {
      assert groups[i] in groups;
    }
    assert forall b :: HasBand(r, b) <==> HasBand(groups, b) || b == band;
  }

  lemma {:induction false} SameBands(gs: seq<BandGroup>, hs: seq<BandGroup>)
    requires |gs| == |hs| && forall i :: 0 <= i < |gs| ==> gs[i].band == hs[i].band
    ensures forall b :: HasBand(gs, b) ==> HasBand(hs, b)
  {
    forall b | HasBand(gs, b) ensures HasBand(hs, b) {
      var g :| g in gs && g.band == b;
      var i :| 0 <= i < |gs| && gs[i] == g;
      assert hs[i] in hs;
    }
  }

  /** Group one scan into per-band sections. */
  method Group(aps: seq<Observation>, own: Option<ChannelSpan>) returns (groups: seq<BandGroup>)
    ensures Sections(groups, own, aps)
  {
    groups := [];
    if own.Some? {
      groups := [BandGroup(own.value.band, own, None, [], 0)];
      assert groups[0] in groups;
    }
    for i := 0 to |aps|
      invariant OnePerBand(groups, own, aps[..i]) && AllCollected(groups, own, aps[..i])
    {
      groups := AddToBand(groups, own, aps[..i], aps[i]);
      assert aps[..i] + [aps[i]] == aps[..i + 1];
    }
    assert aps[..|aps|] == aps;
    groups := RankAndCut(groups, own, aps);
    ghost var unordered := groups;
    groups := Sort(ByBand, groups);
    Ordered(unordered, own, aps);
  }

  method RankAndCut(groups: seq<BandGroup>, own: Option<ChannelSpan>, ghost aps: seq<Observation>) returns (r: seq<BandGroup>)
    requires OnePerBand(groups, own, aps) && AllCollected(groups, own, aps)
    ensures OnePerBand(r, own, aps) && forall i :: 0 <= i < |r| ==> r[i] == Section(own, aps, r[i].band)
  {
    r := groups;
    for i := 0 to |groups|
      invariant |r| == |groups| && r[i..] == groups[i..]
      invariant forall j :: 0 <= j < |r| ==> r[j].band == groups[j].band
      invariant forall j :: 0 <= j < i ==> r[j] == Section(own, aps, r[j].band)
    {
      assert r[i] == groups[i] == r[i..][0];
      var lanes := Sort(Ranks, r[i].lanes);
      var dropped := 0;
      if |lanes| > MAX_ROWS_PER_BAND {
        dropped := |lanes| - MAX_ROWS_PER_BAND;
        lanes := lanes[..MAX_ROWS_PER_BAND];
      }
      r := r[i := r[i].(lanes := lanes, dropped := dropped)];
    }
    SameBands(groups, r);
    SameBands(r, groups);
  }

  const ByBand: (BandGroup, BandGroup) -> bool := (g: BandGroup, h: BandGroup) => g.band.Index() <= h.band.Index()

  lemma {:induction false} Ordered(groups: seq<BandGroup>, own: Option<ChannelSpan>, aps: seq<Observation>)
    requires OnePerBand(groups, own, aps) && forall i :: 0 <= i < |groups| ==> groups[i] == Section(own, aps, groups[i].band)
    ensures Sections(Sort(ByBand, groups), own, aps)
  {
    var r := Sort(ByBand, groups);
    SortSorts(ByBand, groups);
    SameMembers(groups, r);
    forall i, j | 0 <= i < j < |r| ensures r[i].band.Index() < r[j].band.Index() {
      assert ByBand(r[i], r[j]);
      if r[i].band == r[j].band {
        BandsStayDistinct(groups, r, i, j);
      }
    }
  }

  lemma {:induction false} SameMembers(gs: seq<BandGroup>, hs: seq<BandGroup>)
    requires multiset(gs) == multiset(hs)
    ensures forall g :: g in hs <==> g in gs
    ensures forall b :: HasBand(gs, b) <==> HasBand(hs, b)
  {
    forall g ensures g in hs <==> g in gs {
      assert g in multiset(hs) <==> g in multiset(gs);
    }
  }

  lemma {:induction false} BandsStayDistinct(groups: seq<BandGroup>, r: seq<BandGroup>, i: nat, j: nat)
    requires multiset(groups) == multiset(r) && i < j < |r|
    requires forall i, j :: 0 <= i < j < |groups| ==> groups[i].band != groups[j].band
    ensures r[i].band != r[j].band
  {
    if r[i].band == r[j].band {
      assert r[i] in multiset(groups) && r[j] in multiset(groups);
      assert r[i] == r[j];
      assert r == r[..i] + [r[i]] + r[i + 1..];
      assert r[i + 1..][j - i - 1] == r[i];
      assert multiset(r)[r[i]] >= 2;
      OccursOnce(groups, r[i]);
    }
  }

  lemma {:induction false} OccursOnce(groups: seq<BandGroup>, g: BandGroup)
    requires forall i, j :: 0 <= i < j < |groups| ==> groups[i].band != groups[j].band
    ensures multiset(groups)[g] <= 1
  {
    if groups != [] {
      assert groups == [groups[0]] + groups[1..];
      OccursOnce(groups[1..], g);
      if groups[0] == g {
        assert g !in groups[1..];
      }
    }
  }

  // ------------------------------------------------------------------------------------- what is shown of a scan

  /**
   Inside one band every overlap is computed or none is, so the comparator, which mixes two orders, is a
   total preorder on what it is asked to sort.
   */
  lemma {:induction false} RankingIsTotal(own: Option<ChannelSpan>, aps: seq<Observation>, band: Band)
    ensures TotalPreorder(Ranks, LanesOf(own, aps, band))
    ensures forall l :: l in LanesOf(own, aps, band) ==> (l.overlap.Computed? <==> OwnIn(own, band).Some?) && l.span.band == band
  {
    LanesAreOfBand(own, aps, band);
  }

  lemma {:induction false} LanesAreOfBand(own: Option<ChannelSpan>, aps: seq<Observation>, band: Band)
    ensures forall l :: l in LanesOf(own, aps, band) ==> (l.overlap.Computed? <==> OwnIn(own, band).Some?) && l.span.band == band
  {
    if aps != [] {
      LanesAreOfBand(own, aps[..|aps| - 1], band);
    }
  }

  /**
   What the ranking means against our own channel: more overlap first, as far as a millionth of it tells, and
   among equal overlaps the louder, a lane without a reading last.
   */
  lemma {:induction false} OverlapThenLoudness(own: ChannelSpan, x: Observation, y: Observation)
    requires SpanOf(x).Some? && SpanOf(y).Some? && SpanOf(x).value.band == SpanOf(y).value.band == own.band
    requires x.rssiDbm.Some? ==> x.rssiDbm.value >= I32_MIN
    ensures var (a, b) := (LaneFor(Some(own), x), LaneFor(Some(own), y));
            var (p, q) := (Overlap(own, a.span), Overlap(own, b.span));
            && (p >= q + 0.000001 ==> Ranks(a, b) && !Ranks(b, a))
            && (p == q && x.rssiDbm.Some? && y.rssiDbm.Some? ==> (Ranks(a, b) <==> x.rssiDbm.value >= y.rssiDbm.value))
            && (p == q && y.rssiDbm.None? ==> Ranks(a, b))
  {
    var (p, q) := (Overlap(own, SpanOf(x).value), Overlap(own, SpanOf(y).value));
    assert p >= q + 0.000001 ==> p * 1000000.0 >= q * 1000000.0 + 1.0;
  }

  /** Across bands it would not be: two orders give three lanes a cycle. */
  lemma {:induction false} MixedRankingCycles()
    returns (a: Lane, b: Lane, c: Lane)
    ensures Ranks(a, b) && Ranks(b, c) && !Ranks(a, c)
  {
    var span := ChannelSpan(1, TwoGhz, 20, false);
    var lane := (rssi: int, overlap: LaneOverlap) => Lane(span, Some(rssi), None, None, overlap);
    a := lane(-50, Computed(Hypothesis(0.0, Some(-50), High)));
    b := lane(-60, OwnChannelUnknown);
    c := lane(-70, Computed(Hypothesis(1.0, Some(-70), High)));
  }

  /** What a section shows and what it drops are its band's access points, no kept one ranked below a dropped one. */
  lemma {:induction false} KeptRankHighest(own: Option<ChannelSpan>, aps: seq<Observation>, band: Band)
    returns (dropped: seq<Lane>)
    ensures var g := Section(own, aps, band);
            && |dropped| == g.dropped && |g.lanes| <= MAX_ROWS_PER_BAND
            && (g.dropped > 0 ==> |g.lanes| == MAX_ROWS_PER_BAND)
            && multiset(g.lanes + dropped) == multiset(LanesOf(own, aps, band))
            && SortedBy(Ranks, g.lanes)
            && forall kept, lost :: kept in g.lanes && lost in dropped ==> Ranks(kept, lost)
  {
    RankingIsTotal(own, aps, band);
    var ranked := Sort(Ranks, LanesOf(own, aps, band));
    SortSorts(Ranks, LanesOf(own, aps, band));
    var g := Section(own, aps, band);
    dropped := ranked[|g.lanes|..];
    assert ranked == g.lanes + dropped;
  }

  /** `a` is no quieter than `b`, and a lane without a reading stands behind those with one. */
  ghost predicate NoQuieter(a: Lane, b: Lane) {
    && (a.rssiDbm.Some? && b.rssiDbm.Some? ==> a.rssiDbm.value >= b.rssiDbm.value)
    && (b.rssiDbm.Some? && b.rssiDbm.value > I32_MIN ==> a.rssiDbm.Some?)
  }

  /**
   What `a` before `b` means to the reader: off our channel's band the loudness decides; on it the overlap does, as
   far as a millionth of it tells, and the loudness where the overlaps are equal.
   */
  ghost predicate Before(own: Option<ChannelSpan>, a: Lane, b: Lane) {
    if own.None? || own.value.band != a.span.band then NoQuieter(a, b)
    else
      && Overlap(own.value, a.span) > Overlap(own.value, b.span) - 0.000001
      && (Overlap(own.value, a.span) == Overlap(own.value, b.span) ==> NoQuieter(a, b))
  }

  /** The readings are 32-bit numbers. */
  ghost predicate Readable(aps: seq<Observation>) {
    forall ap :: ap in aps && ap.rssiDbm.Some? ==> ap.rssiDbm.value >= I32_MIN
  }

  lemma {:induction false} LanesAreHeard(own: Option<ChannelSpan>, aps: seq<Observation>, band: Band, l: Lane)
    requires l in LanesOf(own, aps, band)
    ensures exists ap :: ap in aps && SpanOf(ap).Some? && l == LaneFor(own, ap) && l.span.band == band
  {
    var front, last := aps[..|aps| - 1], aps[|aps| - 1];
    assert aps == front + [last];
    if l in LanesOf(own, front, band) {
      LanesAreHeard(own, front, band, l);
    }
  }

  lemma {:induction false} RanksMeansBefore(own: Option<ChannelSpan>, x: Observation, y: Observation)
    requires SpanOf(x).Some? && SpanOf(y).Some? && SpanOf(x).value.band == SpanOf(y).value.band
    requires Readable([x, y]) && Ranks(LaneFor(own, x), LaneFor(own, y))
    ensures Before(own, LaneFor(own, x), LaneFor(own, y))
  {
    assert x in [x, y] && y in [x, y];
    if own.Some? && own.value.band == SpanOf(x).value.band {
      var (p, q) := (Overlap(own.value, SpanOf(x).value), Overlap(own.value, SpanOf(y).value));
      assert q >= p + 0.000001 ==> q * 1000000.0 >= p * 1000000.0 + 1.0;
    }
  }

  /** A section stands in that order, and no access point it drops should have stood before one it keeps. */
  lemma {:induction false} SectionInOrder(own: Option<ChannelSpan>, aps: seq<Observation>, band: Band)
    returns (dropped: seq<Lane>)
    requires Readable(aps)
    ensures var g := Section(own, aps, band);
            && multiset(g.lanes + dropped) == multiset(LanesOf(own, aps, band)) && |dropped| == g.dropped
            && (forall i, j :: 0 <= i < j < |g.lanes| ==> Before(own, g.lanes[i], g.lanes[j]))
            && forall kept, lost :: kept in g.lanes && lost in dropped ==> Before(own, kept, lost)
  {
    dropped := KeptRankHighest(own, aps, band);
    var g := Section(own, aps, band);
    forall l | l in g.lanes + dropped ensures l in LanesOf(own, aps, band) {
      assert l in multiset(g.lanes + dropped);
    }
    forall i, j | 0 <= i < j < |g.lanes| ensures Before(own, g.lanes[i], g.lanes[j]) {
      assert g.lanes[i] in g.lanes + dropped && g.lanes[j] in g.lanes + dropped;
      RankedBefore(own, aps, band, g.lanes[i], g.lanes[j]);
    }
    forall kept, lost | kept in g.lanes && lost in dropped ensures Before(own, kept, lost) {
      assert kept in g.lanes + dropped && lost in g.lanes + dropped;
      RankedBefore(own, aps, band, kept, lost);
    }
  }

  lemma {:induction false} RankedBefore(own: Option<ChannelSpan>, aps: seq<Observation>, band: Band, a: Lane, b: Lane)
    requires Readable(aps) && a in LanesOf(own, aps, band) && b in LanesOf(own, aps, band) && Ranks(a, b)
    ensures Before(own, a, b)
  {
    LanesAreHeard(own, aps, band, a);
    LanesAreHeard(own, aps, band, b);
    var x :| x in aps && SpanOf(x).Some? && a == LaneFor(own, x) && a.span.band == band;
    var y :| y in aps && SpanOf(y).Some? && b == LaneFor(own, y) && b.span.band == band;
    RanksMeansBefore(own, x, y);
  }

  /** What a lane says is what was reported of its access point. */
  ghost predicate Reports(own: Option<ChannelSpan>, l: Lane, ap: Observation) {
    && ap.channel == Some(l.span.channel) && ap.band == Some(l.span.band)
    && l.rssiDbm == ap.rssiDbm && l.phyMode == ap.phyMode && l.security == ap.security
    && match l.overlap
       case OwnChannelUnknown => own.None?
       case OwnBandElsewhere(band) => own.Some? && band == own.value.band != l.span.band
       case Computed(h) => own.Some? && own.value.band == l.span.band && h.overlap == Overlap(own.value, l.span) && h.rssiDbm == ap.rssiDbm
  }

  /** Every lane of a section reports an access point heard in its band. */
  lemma {:induction false} LanesReport(own: Option<ChannelSpan>, aps: seq<Observation>, band: Band, l: Lane)
    requires l in Section(own, aps, band).lanes
    ensures l.span.band == band && exists ap :: ap in aps && Reports(own, l, ap)
  {
    var dropped := KeptRankHighest(own, aps, band);
    assert l in multiset(Section(own, aps, band).lanes + dropped);
    LanesAreHeard(own, aps, band, l);
    var ap :| ap in aps && SpanOf(ap).Some? && l == LaneFor(own, ap) && l.span.band == band;
    assert Reports(own, l, ap);
  }

  /** The sections stand from 2.4 GHz up. */
  lemma {:induction false} LowestBandFirst(own: Option<ChannelSpan>, aps: seq<Observation>, groups: seq<BandGroup>, i: nat, j: nat)
    requires Sections(groups, own, aps) && i < j < |groups|
    ensures (groups[i].band, groups[j].band) in {(TwoGhz, FiveGhz), (TwoGhz, SixGhz), (FiveGhz, SixGhz)}
  {
    assert groups[i].band.Index() < groups[j].band.Index();
  }

  function Total(groups: seq<BandGroup>): nat {
    if groups == [] then 0 else |groups[0].lanes| + groups[0].dropped + Total(groups[1..])
  }

  predicate HeardIn(bands: set<Band>, ap: Observation) {
    SpanOf(ap).Some? && SpanOf(ap).value.band in bands
  }

  lemma {:induction false} LanesCount(own: Option<ChannelSpan>, aps: seq<Observation>, band: Band)
    ensures |LanesOf(own, aps, band)| == |Filter((ap: Observation) => HeardIn({band}, ap), aps)|
  {
    if aps != [] {
      var front, last := aps[..|aps| - 1], aps[|aps| - 1];
      LanesCount(own, front, band);
      assert aps == front + [last];
      FilterConcat((ap: Observation) => HeardIn({band}, ap), front, [last]);
      assert [last][1..] == [];
    }
  }

  ghost function BandsOf(groups: seq<BandGroup>): set<Band> {
    set g | g in groups :: g.band
  }

  lemma {:induction false} TotalCounts(own: Option<ChannelSpan>, aps: seq<Observation>, groups: seq<BandGroup>)
    requires forall g :: g in groups ==> g == Section(own, aps, g.band)
    requires forall i, j :: 0 <= i < j < |groups| ==> groups[i].band != groups[j].band
    ensures Total(groups) == |Filter((ap: Observation) => HeardIn(BandsOf(groups), ap), aps)|
  {
    if groups == [] {
      NoneHeard(aps);
    } else {
      var g, rest := groups[0], groups[1..];
      assert g in groups;
      TotalCounts(own, aps, rest);
      LanesCount(own, aps, g.band);
      var dropped := KeptRankHighest(own, aps, g.band);
      assert |g.lanes + dropped| == |multiset(g.lanes + dropped)| == |multiset(LanesOf(own, aps, g.band))|;
      assert g.band !in BandsOf(rest);
      assert BandsOf(groups) == {g.band} + BandsOf(rest) by {
        assert groups == [g] + rest;
      }
      CountSplit((ap: Observation) => HeardIn({g.band}, ap), (ap: Observation) => HeardIn(BandsOf(rest), ap),
                 (ap: Observation) => HeardIn(BandsOf(groups), ap), aps);
    }
  }

  lemma {:induction false} NoneHeard(aps: seq<Observation>)
    ensures Filter((ap: Observation) => HeardIn(BandsOf([]), ap), aps) == []
  {
    if aps != [] {
      NoneHeard(aps[1..]);
    }
  }

  /** Every access point that can be placed is shown or counted as dropped, once. */
  lemma {:induction false} EveryPlaceableCounted(own: Option<ChannelSpan>, aps: seq<Observation>, groups: seq<BandGroup>)
    requires Sections(groups, own, aps)
    ensures Total(groups) == |Filter((ap: Observation) => SpanOf(ap).Some?, aps)|
  {
    TotalCounts(own, aps, groups);
    forall ap | ap in aps && SpanOf(ap).Some? ensures HeardIn(BandsOf(groups), ap) {
      var band := SpanOf(ap).value.band;
      HeardIsShown(own, aps, ap);
      assert Shown(own, aps, band) && HasBand(groups, band);
    }
    SameSelection((ap: Observation) => HeardIn(BandsOf(groups), ap), (ap: Observation) => SpanOf(ap).Some?, aps);
  }

  lemma {:induction false} HeardIsShown(own: Option<ChannelSpan>, aps: seq<Observation>, ap: Observation)
    requires ap in aps && SpanOf(ap).Some?
    ensures LanesOf(own, aps, SpanOf(ap).value.band) != []
  {
    var front, last := aps[..|aps| - 1], aps[|aps| - 1];
    assert aps == front + [last];
    if ap != last {
      HeardIsShown(own, front, ap);
    }
  }

  /** What `Sections` asks for is one list only, so a scan has one picture. */
  lemma {:induction false} SectionsAreOne(own: Option<ChannelSpan>, aps: seq<Observation>, gs: seq<BandGroup>, hs: seq<BandGroup>)
    requires Sections(gs, own, aps) && Sections(hs, own, aps)
    ensures gs == hs
  {
    forall band ensures HasBand(gs, band) <==> HasBand(hs, band) {
      assert Shown(own, aps, band) <==> HasBand(gs, band);
    }
    forall g ensures g in gs <==> g in hs {
      SameSection(own, aps, gs, hs, g);
      SameSection(own, aps, hs, gs, g);
    }
    SameMembersSameOrder(gs, hs);
  }

  lemma {:induction false} SameSection(
      own: Option<ChannelSpan>, aps: seq<Observation>, gs: seq<BandGroup>, hs: seq<BandGroup>, g: BandGroup)
    requires Sections(gs, own, aps) && Sections(hs, own, aps) && forall band :: HasBand(gs, band) ==> HasBand(hs, band)
    ensures g in gs ==> g in hs
  {
    if g in gs {
      assert HasBand(gs, g.band);
      var h :| h in hs && h.band == g.band;
    }
  }

  ghost predicate Climbing(gs: seq<BandGroup>) {
    forall i, j :: 0 <= i < j < |gs| ==> gs[i].band.Index() < gs[j].band.Index()
  }

  lemma {:induction false} HeadIsNotInTail(gs: seq<BandGroup>)
    requires Climbing(gs) && gs != []
    ensures gs[0] !in gs[1..] && gs == [gs[0]] + gs[1..]
  {
    assert forall i :: 0 <= i < |gs[1..]| ==> gs[1..][i] == gs[i + 1] && gs[i + 1].band.Index() > gs[0].band.Index();
  }

  lemma {:induction false} SameMembersSameOrder(gs: seq<BandGroup>, hs: seq<BandGroup>)
    requires Climbing(gs) && Climbing(hs) && forall g :: g in gs <==> g in hs
    ensures gs == hs
  {
    assert (gs == [] || gs[0] in gs) && (hs == [] || hs[0] in hs);
    if gs == [] {
    } else {
      assert gs[0] in hs;
      assert hs[0] in gs;
      assert gs[0] == hs[0];
      forall g ensures g in gs[1..] <==> g in hs[1..] {
        HeadIsNotInTail(gs);
        HeadIsNotInTail(hs);
        assert g in gs <==> g == gs[0] || g in gs[1..];
        assert g in hs <==> g == hs[0] || g in hs[1..];
      }
      SameMembersSameOrder(gs[1..], hs[1..]);
    }
  }

  /** Our own channel is marked on exactly one section when it is known, and every other says where we are. */
  lemma {:induction false} OwnMarkedOnce(own: Option<ChannelSpan>, aps: seq<Observation>, groups: seq<BandGroup>)
    requires Sections(groups, own, aps)
    ensures own.None? ==> forall g :: g in groups ==> g.own.None? && g.ownElsewhere.None?
    ensures own.Some? ==> exists g :: g in groups && g.own == own && forall h :: h in groups ==>
              if h == g then h.ownElsewhere.None? else h.own.None? && h.ownElsewhere == Some(own.value.band)
  {
    if own.Some? {
      assert Shown(own, aps, own.value.band);
      var g :| g in groups && g.band == own.value.band;
      assert g.own == own;
    }
  }

  // ------------------------------------------------------------------------------------- the rings

  datatype RingMarks = RingMarks(placed: seq<(Band, Lane)>, unplaceable: seq<(Band, Lane)>)

  function Marked(groups: seq<BandGroup>): seq<(Band, Lane)> {
    if groups == [] then []
    else
      var last := groups[|groups| - 1];
      Marked(groups[..|groups| - 1]) + LabelledLanes(last.band, last.lanes)
  }

  function LabelledLanes(band: Band, lanes: seq<Lane>): (r: seq<(Band, Lane)>)
    ensures |r| == |lanes| && forall i :: 0 <= i < |r| ==> r[i] == (band, lanes[i])
  {
    seq(|lanes|, i requires 0 <= i < |lanes| => (band, lanes[i]))
  }

  predicate Audible(mark: (Band, Lane)) {
    mark.1.rssiDbm.Some?
  }

  predicate Inaudible(mark: (Band, Lane)) {
    mark.1.rssiDbm.None?
  }

  /** The marks so far, split by whether a signal was reported. */
  ghost predicate Split(placed: seq<(Band, Lane)>, unplaceable: seq<(Band, Lane)>, marks: seq<(Band, Lane)>) {
    placed == Filter(Audible, marks) && unplaceable == Filter(Inaudible, marks)
  }

  method MarkLanes(
      placed0: seq<(Band, Lane)>, unplaceable0: seq<(Band, Lane)>, g: BandGroup, ghost before: seq<(Band, Lane)>)
    returns (placed: seq<(Band, Lane)>, unplaceable: seq<(Band, Lane)>)
    requires Split(placed0, unplaceable0, before)
    ensures Split(placed, unplaceable, before + LabelledLanes(g.band, g.lanes))
  {
    placed, unplaceable := placed0, unplaceable0;
    ghost var marks := before;
    for j := 0 to |g.lanes|
      invariant marks == before + LabelledLanes(g.band, g.lanes[..j]) && Split(placed, unplaceable, marks)
    {
      var mark := (g.band, g.lanes[j]);
      MarkOne(placed, unplaceable, marks, mark);
      marks := marks + [mark];
      if g.lanes[j].rssiDbm.Some? {
        placed := placed + [mark];
      } else {
        unplaceable := unplaceable + [mark];
      }
    }
    assert g.lanes[..|g.lanes|] == g.lanes;
  }

  /** The marks are every lane shown, in ranking order: the ones with a signal on rings, the rest named outside. */
  method RingMarksOf(aps: seq<Observation>, own: Option<ChannelSpan>) returns (marks: RingMarks)
    ensures exists groups :: Sections(groups, own, aps)
              && marks.placed == Filter(Audible, Marked(groups)) && marks.unplaceable == Filter(Inaudible, Marked(groups))
              && |marks.placed| + |marks.unplaceable| == |Marked(groups)|
  {
    var gs := Group(aps, own);
    var placed, unplaceable := [], [];
    for i := 0 to |gs|
      invariant Split(placed, unplaceable, Marked(gs[..i]))
    {
      placed, unplaceable := MarkLanes(placed, unplaceable, gs[i], Marked(gs[..i]));
      assert gs[..i + 1][..i] == gs[..i];
    }
    assert gs[..|gs|] == gs;
    CountSplit(Audible, Inaudible, (m: (Band, Lane)) => true, Marked(gs));
    FilterAll(Marked(gs));
    marks := RingMarks(placed, unplaceable);
  }

  lemma {:induction false} MarkOne(
      placed: seq<(Band, Lane)>, unplaceable: seq<(Band, Lane)>, marks: seq<(Band, Lane)>, mark: (Band, Lane))
    requires Split(placed, unplaceable, marks)
    ensures Audible(mark) ==> Split(placed + [mark], unplaceable, marks + [mark])
    ensures !Audible(mark) ==> Split(placed, unplaceable + [mark], marks + [mark])
  {
    FilterConcat(Audible, marks, [mark]);
    FilterConcat(Inaudible, marks, [mark]);
    assert [mark][1..] == [];
  }
}
