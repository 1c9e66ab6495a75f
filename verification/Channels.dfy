/**
 Where a radio sits and how much of our channel it covers (`crates/types/src/air.rs`).

 Frequencies are doubled MHz, as in the source; a fraction is an exact real rather than an `f64`.
 */
module Channels {
  import opened Prelude

  datatype Band = TwoGhz | FiveGhz | SixGhz {
    function Index(): nat {
      match this
      case TwoGhz => 0
      case FiveGhz => 1
      case SixGhz => 2
    }

    /** Centre in MHz of the 20 MHz channel numbered `channel`. */
    function PrimaryCentre(channel: int): Option<int> {
      match this
      case TwoGhz => if channel == 14 then Some(2484) else if 1 <= channel <= 13 then Some(2407 + 5 * channel) else None
      case FiveGhz => Some(5000 + 5 * channel)
      case SixGhz => Some(5950 + 5 * channel)
    }

    function BlockAnchor(): Option<int> {
      match this
      case TwoGhz => None
      case FiveGhz => Some(36)
      case SixGhz => Some(1)
    }
  }

  datatype ChannelSpan = ChannelSpan(channel: int, band: Band, widthMhz: int, widthAssumed: bool)

  /** A span from what the report gave; a missing or senseless width is taken as 20 MHz and flagged. */
  function NewSpan(channel: Option<int>, band: Option<Band>, widthMhz: Option<int>): (r: Option<ChannelSpan>)
    ensures r.Some? ==> r.value.widthMhz > 0
    ensures r.Some? <==> channel.Some? && band.Some?
    ensures r.Some? ==> r.value.channel == channel.value && r.value.band == band.value
    ensures r.Some? && !r.value.widthAssumed ==> widthMhz == Some(r.value.widthMhz)
    ensures r.Some? && r.value.widthAssumed ==> r.value.widthMhz == 20 && (widthMhz.Some? ==> widthMhz.value <= 0)
  {
    if channel.None? || band.None? then None
    else if widthMhz.Some? && widthMhz.value > 0 then Some(ChannelSpan(channel.value, band.value, widthMhz.value, false))
    else Some(ChannelSpan(channel.value, band.value, 20, true))
  }

  /** A stretch of the frequency axis. */
  datatype Extent = Extent(lo: int, hi: int)

  function Around(centre: int, half: int): Extent {
    Extent(2 * centre - half, 2 * centre + half)
  }

  /** The stretches a radio may occupy, and whether that had to be guessed. */
  function CandidateSpans(s: ChannelSpan): (seq<Extent>, bool) {
    var primary := s.band.PrimaryCentre(s.channel);
    var half := s.widthMhz;
    if primary.None? then ([], true)
    else if s.band.TwoGhz? then
      if s.widthMhz <= 20 then ([Around(primary.value, half)], false)
      else
        var offset := s.widthMhz - 20;
        var up, down := 2 * primary.value + offset, 2 * primary.value - offset;
        ([Extent(up - half, up + half), Extent(down - half, down + half)], true)
    else
      var anchor := s.band.BlockAnchor().value;
      var step := s.widthMhz / 5;
      if step <= 0 || s.channel < anchor then ([Around(primary.value, half)], true)
      else
        var blockStart := anchor + (s.channel - anchor) / step * step;
        ([Around(s.band.PrimaryCentre(blockStart + step / 2 - 2).value, half)], false)
  }

  /** Everything the radio may occupy, as it is drawn. */
  function FrequencyExtent(s: ChannelSpan): Option<Extent> {
    var spans := CandidateSpans(s).0;
    if spans == [] then None
    else if |spans| == 1 then Some(spans[0])
    else Some(Extent(Min(spans[0].lo, spans[1].lo), Max(spans[0].hi, spans[1].hi)))
  }

  /** In 5 and 6 GHz a radio of 5 MHz or more is drawn as the block, counted from the band's anchor, its number falls in. */
  lemma {:induction false} BlockExtent(s: ChannelSpan)
    requires !s.band.TwoGhz? && s.widthMhz >= 5 && s.channel >= s.band.BlockAnchor().value
    ensures var anchor, step := s.band.BlockAnchor().value, s.widthMhz / 5;
            var centre := anchor + (s.channel - anchor) / step * step + step / 2 - 2;
            FrequencyExtent(s) == Some(Around(s.band.PrimaryCentre(centre).value, s.widthMhz))
  {
  }

  /** How much two stretches share. */
  function Shared(a: Extent, b: Extent): nat {
    Max(Min(a.hi, b.hi) - Max(a.lo, b.lo), 0)
  }

  /** How much two stretches share, as a part of `narrower`, at most the whole of it. */
  function Fraction(a: Extent, b: Extent, narrower: int): (r: real)
    requires narrower > 0
    ensures 0.0 <= r <= 1.0
    ensures r > 0.0 <==> a.lo < b.hi && b.lo < a.hi && a.lo < a.hi && b.lo < b.hi
  {
    var shared: int := Shared(a, b);
    var part := shared as real / narrower as real;
    if part <= 1.0 then part else 1.0
  }

  function BestAgainst(a: Extent, bs: seq<Extent>, narrower: int): (r: real)
    requires narrower > 0
    ensures 0.0 <= r <= 1.0
  {
    if bs == [] then 0.0
    else
      var best := BestAgainst(a, bs[..|bs| - 1], narrower);
      var fraction := Fraction(a, bs[|bs| - 1], narrower);
      if fraction > best then fraction else best
  }

  /** The largest part any two placements share. */
  function Best(xs: seq<Extent>, ys: seq<Extent>, narrower: int): (r: real)
    requires narrower > 0
    ensures 0.0 <= r <= 1.0
  {
    if xs == [] then 0.0
    else
      var best := Best(xs[..|xs| - 1], ys, narrower);
      var last := BestAgainst(xs[|xs| - 1], ys, narrower);
      if last > best then last else best
  }

  lemma {:induction false} AgainstIsBest(a: Extent, bs: seq<Extent>, narrower: int) returns (j: int)
    requires narrower > 0
    ensures forall i :: 0 <= i < |bs| ==> Fraction(a, bs[i], narrower) <= BestAgainst(a, bs, narrower)
    ensures BestAgainst(a, bs, narrower) > 0.0 ==>
              0 <= j < |bs| && Fraction(a, bs[j], narrower) == BestAgainst(a, bs, narrower)
  {
    if bs == [] {
      j := 0;
    } else {
      var n := |bs| - 1;
      j := AgainstIsBest(a, bs[..n], narrower);
      if Fraction(a, bs[n], narrower) > BestAgainst(a, bs[..n], narrower) {
        j := n;
      }
    }
  }

  /** No two placements share more, and some two share as much unless none share anything. */
  lemma {:induction false} BestIsBest(xs: seq<Extent>, ys: seq<Extent>, narrower: int) returns (i: int, j: int)
    requires narrower > 0
    ensures forall i, j :: 0 <= i < |xs| && 0 <= j < |ys| ==> Fraction(xs[i], ys[j], narrower) <= Best(xs, ys, narrower)
    ensures Best(xs, ys, narrower) > 0.0 ==>
              0 <= i < |xs| && 0 <= j < |ys| && Fraction(xs[i], ys[j], narrower) == Best(xs, ys, narrower)
  {
    if xs == [] {
      i, j := 0, 0;
    } else {
      var n := |xs| - 1;
      i, j := BestIsBest(xs[..n], ys, narrower);
      var k := AgainstIsBest(xs[n], ys, narrower);
      if BestAgainst(xs[n], ys, narrower) > Best(xs[..n], ys, narrower) {
        i, j := n, k;
      }
      forall p, q | 0 <= p < |xs| && 0 <= q < |ys| ensures Fraction(xs[p], ys[q], narrower) <= Best(xs, ys, narrower) {
        if p < n {
          assert Fraction(xs[..n][p], ys[q], narrower) <= Best(xs[..n], ys, narrower);
        }
      }
    }
  }

  /** The part of the narrower channel that the two radios may share. */
  function Overlap(own: ChannelSpan, other: ChannelSpan): real {
    var narrower := Min(own.widthMhz, other.widthMhz) * 2;
    if own.band != other.band || narrower <= 0 then 0.0
    else Best(CandidateSpans(own).0, CandidateSpans(other).0, narrower)
  }

  datatype Confidence = Low | Medium | High

  datatype Hypothesis = Hypothesis(overlap: real, rssiDbm: Option<int>, confidence: Confidence) {
    /** Overlap first, scaled and truncated so that it compares totally; loudness second. */
    function RankKey(): (int, int) {
      ((overlap * 1000000.0).Floor, if rssiDbm.Some? then rssiDbm.value else I32_MIN)
    }
  }

  const I32_MIN: int := -0x8000_0000

  function OverlapHypothesis(own: ChannelSpan, other: ChannelSpan, otherRssiDbm: Option<int>): Hypothesis {
    var guessed := own.band == other.band && (CandidateSpans(own).1 || CandidateSpans(other).1);
    Hypothesis(Overlap(own, other), otherRssiDbm,
               if own.widthAssumed || other.widthAssumed || guessed then Low
               else if otherRssiDbm.None? then Medium else High)
  }

  // ------------------------------------------------------------------------------------- theorems

  lemma {:induction false} FractionFlips(a: Extent, b: Extent, narrower: int)
    requires narrower > 0
    ensures Fraction(a, b, narrower) == Fraction(b, a, narrower)
  {
    assert Min(a.hi, b.hi) - Max(a.lo, b.lo) == Min(b.hi, a.hi) - Max(b.lo, a.lo);
  }

  lemma {:induction false} BestFlips(xs: seq<Extent>, ys: seq<Extent>, narrower: int)
    requires narrower > 0
    ensures Best(xs, ys, narrower) <= Best(ys, xs, narrower)
  {
    var i, j := BestIsBest(xs, ys, narrower);
    var _, _ := BestIsBest(ys, xs, narrower);
    if Best(xs, ys, narrower) > 0.0 {
      FractionFlips(xs[i], ys[j], narrower);
    }
  }

  /** The hypothesis is a fraction, and says the same of two radios whichever of them is ours. */
  lemma {:induction false} OverlapIsMutual(a: ChannelSpan, b: ChannelSpan)
    ensures 0.0 <= Overlap(a, b) <= 1.0 && Overlap(a, b) == Overlap(b, a)
  {
    var narrower := Min(a.widthMhz, b.widthMhz) * 2;
    if a.band == b.band && narrower > 0 {
      BestFlips(CandidateSpans(a).0, CandidateSpans(b).0, narrower);
      BestFlips(CandidateSpans(b).0, CandidateSpans(a).0, narrower);
    }
  }

  predicate Cross(a: Extent, b: Extent) {
    a.lo < b.hi && b.lo < a.hi
  }

  /** Placements are nonempty, and the drawn extent covers nothing that no placement covers. */
  lemma {:induction false} ExtentIsTheUnion(s: ChannelSpan, e: Extent)
    requires s.widthMhz > 0 && e.lo < e.hi
    ensures var spans := CandidateSpans(s).0;
            && |spans| <= 2
            && (forall i :: 0 <= i < |spans| ==> spans[i].lo < spans[i].hi)
            && (FrequencyExtent(s).Some? ==> FrequencyExtent(s).value.lo < FrequencyExtent(s).value.hi)
            && (FrequencyExtent(s).Some? && Cross(FrequencyExtent(s).value, e) <==>
                  exists i :: 0 <= i < |spans| && Cross(spans[i], e))
  {
    var spans := CandidateSpans(s).0;
    if |spans| == 1 {
      assert FrequencyExtent(s).value == spans[0];
    }
    if |spans| == 2 {
      var p := s.band.PrimaryCentre(s.channel).value;
      assert spans[0] == Extent(2 * p - 20, 2 * p + 2 * s.widthMhz - 20);
      assert spans[1] == Extent(2 * p - 2 * s.widthMhz + 20, 2 * p + 20);
      assert FrequencyExtent(s).value == Extent(spans[1].lo, spans[0].hi);
    }
  }

  ghost predicate DrawnCrossing(a: ChannelSpan, b: ChannelSpan) {
    && FrequencyExtent(a).Some? && FrequencyExtent(b).Some?
    && Cross(FrequencyExtent(a).value, FrequencyExtent(b).value)
  }

  lemma {:induction false} PlacementsCross(a: ChannelSpan, b: ChannelSpan, i: nat, j: nat)
    requires a.widthMhz > 0 && b.widthMhz > 0
    requires i < |CandidateSpans(a).0| && j < |CandidateSpans(b).0| && Cross(CandidateSpans(a).0[i], CandidateSpans(b).0[j])
    ensures DrawnCrossing(a, b)
  {
    var x, y := CandidateSpans(a).0[i], CandidateSpans(b).0[j];
    ExtentIsTheUnion(a, Extent(0, 1));
    ExtentIsTheUnion(b, x);
    assert Cross(y, x);
    ExtentIsTheUnion(a, FrequencyExtent(b).value);
  }

  lemma {:induction false} CrossingPlacements(a: ChannelSpan, b: ChannelSpan) returns (i: nat, j: nat)
    requires a.widthMhz > 0 && b.widthMhz > 0 && DrawnCrossing(a, b)
    ensures i < |CandidateSpans(a).0| && j < |CandidateSpans(b).0| && Cross(CandidateSpans(a).0[i], CandidateSpans(b).0[j])
  {
    var xs, ys := CandidateSpans(a).0, CandidateSpans(b).0;
    ExtentIsTheUnion(b, Extent(0, 1));
    ExtentIsTheUnion(a, FrequencyExtent(b).value);
    i :| 0 <= i < |xs| && Cross(xs[i], FrequencyExtent(b).value);
    ExtentIsTheUnion(a, Extent(0, 1));
    ExtentIsTheUnion(b, xs[i]);
    j :| 0 <= j < |ys| && Cross(ys[j], xs[i]);
  }

  lemma {:induction false} Placed(s: ChannelSpan, i: nat)
    requires s.widthMhz > 0 && i < |CandidateSpans(s).0|
    ensures CandidateSpans(s).0[i].lo < CandidateSpans(s).0[i].hi
  {
    ExtentIsTheUnion(s, Extent(0, 1));
  }

  /** The picture and the number agree: an overlap is claimed exactly where the drawn bands cross. */
  lemma {:induction false} OverlapIsDrawn(a: ChannelSpan, b: ChannelSpan)
    requires a.widthMhz > 0 && b.widthMhz > 0
    ensures Overlap(a, b) > 0.0 <==> a.band == b.band && DrawnCrossing(a, b)
  {
    if a.band == b.band {
      var narrower := Min(a.widthMhz, b.widthMhz) * 2;
      var i, j := BestIsBest(CandidateSpans(a).0, CandidateSpans(b).0, narrower);
      if Overlap(a, b) > 0.0 {
        PlacementsCross(a, b, i, j);
      }
      if DrawnCrossing(a, b) {
        var p, q := CrossingPlacements(a, b);
        Placed(a, p);
        Placed(b, q);
        assert Fraction(CandidateSpans(a).0[p], CandidateSpans(b).0[q], narrower) > 0.0;
      }
    }
  }

  /** The doubled MHz of a stretch, one by one. */
  ghost function Cells(e: Extent): (cells: set<int>)
    ensures forall x :: x in cells <==> e.lo <= x < e.hi
    ensures |cells| == Max(e.hi - e.lo, 0)
    decreases e.hi - e.lo
  {
    if e.hi <= e.lo then {} else Cells(Extent(e.lo, e.hi - 1)) + {e.hi - 1}
  }

  lemma {:induction false} SharedCells(a: Extent, b: Extent)
    ensures |Cells(a) * Cells(b)| == Shared(a, b)
  {
    assert Cells(a) * Cells(b) == Cells(Extent(Max(a.lo, b.lo), Min(a.hi, b.hi)));
  }

  lemma {:induction false} PlacementsWide(s: ChannelSpan)
    requires s.widthMhz > 0
    ensures forall i :: 0 <= i < |CandidateSpans(s).0| ==>
              CandidateSpans(s).0[i].hi - CandidateSpans(s).0[i].lo == 2 * s.widthMhz
  {
  }

  lemma {:induction false} SharedWithin(a: Extent, b: Extent, narrower: int)
    requires narrower > 0 && (a.hi - a.lo <= narrower || b.hi - b.lo <= narrower)
    ensures Shared(a, b) <= narrower
  {
  }

  lemma {:induction false} FractionIsPart(a: Extent, b: Extent, narrower: int)
    requires narrower > 0 && (a.hi - a.lo <= narrower || b.hi - b.lo <= narrower)
    ensures Fraction(a, b, narrower) == Shared(a, b) as real / narrower as real
  {
    SharedWithin(a, b, narrower);
    PartOfWhole(Shared(a, b) as real, narrower as real);
  }

  lemma {:induction false} PartOfWhole(part: real, whole: real)
    requires whole > 0.0 && part <= whole
    ensures part / whole <= 1.0 && part / whole * whole == part
  {
    var q := part / whole;
    assert q * whole == part;
    assert (1.0 - q) * whole == whole - part;
    NotNegative(1.0 - q, whole);
  }

  lemma {:induction false} NotNegative(a: real, width: real)
    requires width > 0.0 && a * width >= 0.0
    ensures a >= 0.0
  {
  }

  lemma {:induction false} SmallerPart(x: nat, y: nat, whole: int)
    requires whole > 0 && x as real / whole as real <= y as real / whole as real
    ensures x <= y
  {
    assert (y as real / whole as real - x as real / whole as real) * whole as real == y as real - x as real;
  }

  /** No two placements share more than the `i`-th and the `j`-th. */
  ghost predicate ShareMost(xs: seq<Extent>, ys: seq<Extent>, i: int, j: int) {
    && 0 <= i < |xs| && 0 <= j < |ys|
    && forall p, q :: 0 <= p < |xs| && 0 <= q < |ys| ==> |Cells(xs[p]) * Cells(ys[q])| <= |Cells(xs[i]) * Cells(ys[j])|
  }

  lemma {:induction false} BestIsShared(xs: seq<Extent>, ys: seq<Extent>, w: int) returns (i: int, j: int)
    requires w > 0 && xs != [] && ys != []
    requires (forall p :: 0 <= p < |xs| ==> xs[p].hi - xs[p].lo <= w) || forall q :: 0 <= q < |ys| ==> ys[q].hi - ys[q].lo <= w
    ensures ShareMost(xs, ys, i, j) && Best(xs, ys, w) == |Cells(xs[i]) * Cells(ys[j])| as real / w as real
  {
    i, j := BestIsBest(xs, ys, w);
    if Best(xs, ys, w) <= 0.0 {
      i, j := 0, 0;
    }
    assert Best(xs, ys, w) == Fraction(xs[i], ys[j], w);
    FractionIsPart(xs[i], ys[j], w);
    SharedCells(xs[i], ys[j]);
    forall p, q | 0 <= p < |xs| && 0 <= q < |ys| ensures |Cells(xs[p]) * Cells(ys[q])| <= |Cells(xs[i]) * Cells(ys[j])| {
      SharedCells(xs[p], ys[q]);
      FractionIsPart(xs[p], ys[q], w);
      SmallerPart(Shared(xs[p], ys[q]), Shared(xs[i], ys[j]), w);
    }
  }

  /** The overlap is the part of the narrower channel that two placements share, and no two placements share more. */
  lemma {:induction false} OverlapIsShared(own: ChannelSpan, other: ChannelSpan, narrower: int) returns (i: int, j: int)
    requires own.band == other.band && own.widthMhz > 0 && other.widthMhz > 0
    requires CandidateSpans(own).0 != [] && CandidateSpans(other).0 != []
    requires narrower <= own.widthMhz && narrower <= other.widthMhz && (narrower == own.widthMhz || narrower == other.widthMhz)
    ensures var (xs, ys) := (CandidateSpans(own).0, CandidateSpans(other).0);
            && ShareMost(xs, ys, i, j)
            && Overlap(own, other) == |Cells(xs[i]) * Cells(ys[j])| as real / (2 * narrower) as real
  {
    PlacementsWide(own);
    PlacementsWide(other);
    OverlapIsBest(own, other, narrower);
    i, j := BestIsShared(CandidateSpans(own).0, CandidateSpans(other).0, 2 * narrower);
  }

  lemma {:induction false} OverlapIsBest(own: ChannelSpan, other: ChannelSpan, narrower: int)
    requires own.band == other.band && 0 < narrower <= own.widthMhz && narrower <= other.widthMhz
    requires narrower == own.widthMhz || narrower == other.widthMhz
    ensures Overlap(own, other) == Best(CandidateSpans(own).0, CandidateSpans(other).0, 2 * narrower)
  {
  }

  /** Nothing but the number says for sure where the radio sits. */
  predicate Uncertain(s: ChannelSpan) {
    match s.band
    case TwoGhz => s.widthMhz > 20 || s.channel < 1 || s.channel > 14
    case FiveGhz => s.widthMhz < 5 || s.channel < 36
    case SixGhz => s.widthMhz < 5 || s.channel < 1
  }

  /** How sure a hypothesis is: of two reported widths, each in one certain place, and of a heard signal. */
  lemma {:induction false} ConfidenceMeans(own: ChannelSpan, other: ChannelSpan, rssiDbm: Option<int>)
    requires own.band == other.band
    ensures var c := OverlapHypothesis(own, other, rssiDbm).confidence;
            && (c == Low <==> own.widthAssumed || other.widthAssumed || Uncertain(own) || Uncertain(other))
            && (c != Low ==> (c == High <==> rssiDbm.Some?))
  {
  }

  /** A hypothesis is held above the lowest confidence only about radios of reported width and one placement. */
  lemma {:induction false} ConfidentIsPlaced(own: ChannelSpan, other: ChannelSpan, rssiDbm: Option<int>)
    requires own.band == other.band
    ensures var h := OverlapHypothesis(own, other, rssiDbm);
            && (h.confidence != Low ==>
                  && !own.widthAssumed && !other.widthAssumed
                  && |CandidateSpans(own).0| == 1 && |CandidateSpans(other).0| == 1)
            && (h.confidence == High ==> rssiDbm.Some?)
    ensures own.band.TwoGhz? && own.widthMhz > 20 ==> OverlapHypothesis(own, other, rssiDbm).confidence == Low
  {
  }

  /** The 20 MHz slot of a channel number. */
  function Slot(s: ChannelSpan): Extent
    requires s.band.PrimaryCentre(s.channel).Some?
  {
    Around(s.band.PrimaryCentre(s.channel).value, 20)
  }

  /** Exactly when a radio is drawn over the whole slot of its own channel number. */
  predicate OverItsSlot(s: ChannelSpan) {
    if s.band.TwoGhz? then s.widthMhz >= 20
    else
      var anchor, step := s.band.BlockAnchor().value, s.widthMhz / 5;
      if step <= 0 || s.channel < anchor then s.widthMhz >= 20
      else 10 * ((s.channel - anchor) % step) + 40 <= s.widthMhz + 10 * (step / 2)
  }

  /**
   A radio of any width covers its own slot exactly as `OverItsSlot` says: in a block of 5 or 6 GHz the number
   must lie far enough from the block's end.
   */
  lemma {:induction false} PrimaryInItsBlock(s: ChannelSpan)
    requires s.widthMhz > 0 && s.band.PrimaryCentre(s.channel).Some?
    ensures FrequencyExtent(s).Some?
    ensures var e := FrequencyExtent(s).value; e.lo <= Slot(s).lo && Slot(s).hi <= e.hi <==> OverItsSlot(s)
  {
    if !s.band.TwoGhz? && s.widthMhz >= 5 && s.channel >= s.band.BlockAnchor().value {
      SlotInBlock(s);
    }
  }

  lemma {:induction false} SlotInBlock(s: ChannelSpan)
    requires !s.band.TwoGhz? && s.widthMhz >= 5 && s.channel >= s.band.BlockAnchor().value
    ensures FrequencyExtent(s).Some?
    ensures var e := FrequencyExtent(s).value; e.lo <= Slot(s).lo && Slot(s).hi <= e.hi <==> OverItsSlot(s)
  {
    BlockExtent(s);
    var anchor, step := s.band.BlockAnchor().value, s.widthMhz / 5;
    var offset := (s.channel - anchor) % step;
    assert (s.channel - anchor) / step * step == s.channel - anchor - offset;
  }

  /**
   For whole slots: the number lies at most `4 * slots - 4` into its block, a slot from the block's end. Only for a
   single slot is that the grid of four.
   */
  lemma {:induction false} WholeSlots(s: ChannelSpan, slots: int)
    requires !s.band.TwoGhz? && slots > 0 && s.widthMhz == 20 * slots && s.channel >= s.band.BlockAnchor().value
    ensures OverItsSlot(s) <==> (s.channel - s.band.BlockAnchor().value) % (4 * slots) + 4 <= 4 * slots
  {
    assert s.widthMhz / 5 == 4 * slots;
    assert s.widthMhz / 5 / 2 == 2 * slots;
  }

  /** Wider blocks hold numbers off the grid of four: 149 and 37 at 80 MHz are both over their slot. */
  lemma {:induction false} OffTheGridYetOver()
    ensures OverItsSlot(ChannelSpan(149, FiveGhz, 80, false)) && OverItsSlot(ChannelSpan(37, FiveGhz, 80, false))
  {
    WholeSlots(ChannelSpan(149, FiveGhz, 80, false), 4);
    WholeSlots(ChannelSpan(37, FiveGhz, 80, false), 4);
  }

  /** The upper 5 GHz channels are off that grid: 149 is placed over the slot of 148. */
  lemma {:induction false} UpperChannelsMisplaced()
    ensures var s := ChannelSpan(149, FiveGhz, 20, false);
            && FrequencyExtent(s) == Some(Around(FiveGhz.PrimaryCentre(148).value, 20))
            && !(Slot(s).hi <= FrequencyExtent(s).value.hi)
  {
    var s := ChannelSpan(149, FiveGhz, 20, false);
    assert (s.channel - 36) / 4 * 4 == 112;
  }
}
