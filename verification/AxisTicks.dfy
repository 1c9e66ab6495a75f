/**
 The channel axis of a band (`air.rs`, `axis_range`, `channel_centre_px` and `axis_ticks`): which part of
 the spectrum is drawn, where the channel numbers stand on it, and which of them are printed.

 Pixels and MHz are reals.
 */
module AxisTicks {
  import opened Prelude
  import opened Channels
  import PackRows

  const MIN_TICK_LABEL_GAP: real := 24.0

  datatype Axis = Axis(lo: real, hi: real)

  datatype Tick = Tick(channel: int, x: real, labelled: bool)

  /** How many numbers a band's axis may carry. */
  function ChannelCount(band: Band): nat {
    match band
    case TwoGhz => 14
    case FiveGhz => 25
    case SixGhz => 59
  }

  /** 1 to 14; 36 to 64, 100 to 144 and 149 to 165 by fours; 1 to 233 by fours. */
  function ChannelNumber(band: Band, i: nat): int {
    match band
    case TwoGhz => 1 + i
    case FiveGhz => if i < 8 then 36 + 4 * i else if i < 20 then 100 + 4 * (i - 8) else 149 + 4 * (i - 20)
    case SixGhz => 1 + 4 * i
  }

  function BandChannels(band: Band): (r: seq<int>)
    ensures |r| == ChannelCount(band)
    ensures forall i :: 0 <= i < |r| ==> r[i] == ChannelNumber(band, i)
  {
    seq(ChannelCount(band), i requires 0 <= i < ChannelCount(band) => ChannelNumber(band, i))
  }

  /** The numbers a band's axis is labelled with. */
  lemma {:induction false} ChannelsExactly(band: Band, channel: int)
    ensures channel in BandChannels(band) <==>
              match band
              case TwoGhz => 1 <= channel <= 14
              case FiveGhz =>
                || (channel % 4 == 0 && (36 <= channel <= 64 || 100 <= channel <= 144))
                || (channel % 4 == 1 && 149 <= channel <= 165)
              case SixGhz => 1 <= channel <= 233 && channel % 4 == 1
  {
    var channels := BandChannels(band);
    var place := match band
      case TwoGhz => channel - 1
      case FiveGhz =>
        if channel <= 64 then (channel - 36) / 4
        else if channel <= 144 then 8 + (channel - 100) / 4
        else 20 + (channel - 149) / 4
      case SixGhz => (channel - 1) / 4;
    if 0 <= place < |channels| {
      assert channels[place] == ChannelNumber(band, place);
    }
  }

  /** The middle of a channel number's own 20 MHz slot, placed as every band on the axis is. */
  function CentreMhz(band: Band, channel: int): Option<real> {
    var e := FrequencyExtent(ChannelSpan(channel, band, 20, false));
    if e.None? then None else Some((e.value.lo + e.value.hi) as real / 4.0)
  }

  /** Where that is on the axis, or nothing when it is off the drawn window. */
  function ChannelCentrePx(band: Band, channel: int, axis: Axis): Option<real> {
    var centre := CentreMhz(band, channel);
    if centre.None? || axis.hi <= axis.lo || centre.value < axis.lo || centre.value > axis.hi then None
    else Some((centre.value - axis.lo) / (axis.hi - axis.lo) * PackRows.AXIS_W)
  }

  /** A tick for every channel of `channels` that is on the axis, none printed yet. */
  function Unlabelled(band: Band, axis: Axis, channels: seq<int>): seq<Tick> {
    if channels == [] then []
    else
      var n := |channels| - 1;
      var x := ChannelCentrePx(band, channels[n], axis);
      Unlabelled(band, axis, channels[..n]) + if x.Some? then [Tick(channels[n], x.value, false)] else []
  }

  function Abs(x: real): real {
    if x < 0.0 then -x else x
  }

  predicate Clear(a: Tick, b: Tick) {
    Abs(a.x - b.x) >= MIN_TICK_LABEL_GAP
  }

  predicate IsOwn(t: Tick, own: Option<int>) {
    own == Some(t.channel)
  }

  /** Apart from their labels these are the ticks of the axis. */
  ghost predicate SameTicks(ticks: seq<Tick>, unlabelled: seq<Tick>) {
    && |ticks| == |unlabelled|
    && forall i :: 0 <= i < |ticks| ==> ticks[i].(labelled := false) == unlabelled[i].(labelled := false)
  }

  /** Tick `i` would touch no number printed before its turn: our own, or one to its left. */
  ghost predicate HasRoom(ticks: seq<Tick>, own: Option<int>, i: nat)
    requires i < |ticks|
  {
    forall j :: 0 <= j < |ticks| && ticks[j].labelled && (j < i || IsOwn(ticks[j], own)) && j != i ==> Clear(ticks[i], ticks[j])
  }

  /** Our own number is printed, and up to `n` every other exactly if it has room. */
  ghost predicate Thinned(ticks: seq<Tick>, own: Option<int>, n: nat) {
    forall i :: 0 <= i < |ticks| ==>
      (ticks[i].labelled <==> IsOwn(ticks[i], own) || (i < n && HasRoom(ticks, own, i)))
  }

  /** `printed` holds the places of the printed numbers. */
  ghost predicate Printed(printed: seq<real>, ticks: seq<Tick>) {
    && (forall i :: 0 <= i < |ticks| && ticks[i].labelled ==> ticks[i].x in printed)
    && forall x :: x in printed ==> exists i :: 0 <= i < |ticks| && ticks[i].labelled && ticks[i].x == x
  }

  ghost predicate DistinctChannels(ticks: seq<Tick>) {
    forall i, j :: 0 <= i < j < |ticks| ==> ticks[i].channel != ticks[j].channel
  }

  method PrintOwn(unlabelled: seq<Tick>, own: Option<int>) returns (ticks: seq<Tick>, printed: seq<real>)
    requires DistinctChannels(unlabelled) && forall i :: 0 <= i < |unlabelled| ==> !unlabelled[i].labelled
    ensures SameTicks(ticks, unlabelled) && Thinned(ticks, own, 0) && Printed(printed, ticks)
  {
    ticks, printed := unlabelled, [];
    if own.Some? {
      var k := 0;
      while k < |ticks| && ticks[k].channel != own.value
        invariant 0 <= k <= |ticks| && forall i :: 0 <= i < k ==> ticks[i].channel != own.value
      {
        k := k + 1;
      }
      if k < |ticks| {
        ticks := ticks[k := ticks[k].(labelled := true)];
        printed := [ticks[k].x];
        assert ticks[k].labelled && ticks[k].x == printed[0];
      }
    }
  }

  method PrintIfRoom(before: seq<Tick>, known: seq<real>, own: Option<int>, i: nat) returns (ticks: seq<Tick>, printed: seq<real>)
    requires i < |before| && Thinned(before, own, i) && Printed(known, before)
    ensures SameTicks(ticks, before) && Thinned(ticks, own, i + 1) && Printed(printed, ticks)
  {
    ticks, printed := before, known;
    if !ticks[i].labelled {
      var clear := IsClear(ticks[i], printed);
      RoomIsClear(ticks, own, i, printed);
      if clear {
        ticks := ticks[i := ticks[i].(labelled := true)];
        printed := printed + [ticks[i].x];
        PrintOne(before, known, i);
      }
    }
    ThinOne(before, ticks, own, i);
  }

  /** The ticks a band's axis carries, thinned so that two printed numbers never touch. */
  method AxisTicks(band: Band, axis: Axis, own: Option<int>) returns (ticks: seq<Tick>)
    ensures SameTicks(ticks, Unlabelled(band, axis, BandChannels(band)))
    ensures Thinned(ticks, own, |ticks|)
  {
    TicksAscend(band, axis);
    NoneLabelled(band, axis, BandChannels(band));
    ticks := Unlabelled(band, axis, BandChannels(band));
    ghost var bare := ticks;
    var printed;
    ticks, printed := PrintOwn(ticks, own);
    for i := 0 to |ticks|
      invariant SameTicks(ticks, bare) && Thinned(ticks, own, i) && Printed(printed, ticks)
    {
      ticks, printed := PrintIfRoom(ticks, printed, own, i);
    }
  }

  method IsClear(t: Tick, printed: seq<real>) returns (clear: bool)
    ensures clear <==> forall x :: x in printed ==> Abs(t.x - x) >= MIN_TICK_LABEL_GAP
  {
    for k := 0 to |printed|
      invariant forall j :: 0 <= j < k ==> Abs(t.x - printed[j]) >= MIN_TICK_LABEL_GAP
    {
      if Abs(t.x - printed[k]) < MIN_TICK_LABEL_GAP {
        assert printed[k] in printed;
        return false;
      }
    }
    return true;
  }

  lemma {:induction false} RoomIsClear(ticks: seq<Tick>, own: Option<int>, i: nat, printed: seq<real>)
    requires i < |ticks| && !ticks[i].labelled && Thinned(ticks, own, i) && Printed(printed, ticks)
    ensures HasRoom(ticks, own, i) <==> forall x :: x in printed ==> Abs(ticks[i].x - x) >= MIN_TICK_LABEL_GAP
  {
    if HasRoom(ticks, own, i) {
      forall x | x in printed ensures Abs(ticks[i].x - x) >= MIN_TICK_LABEL_GAP {
        var j :| 0 <= j < |ticks| && ticks[j].labelled && ticks[j].x == x;
        assert Clear(ticks[i], ticks[j]);
      }
    }
  }

  lemma {:induction false} PrintOne(ticks: seq<Tick>, printed: seq<real>, i: nat)
    requires i < |ticks| && Printed(printed, ticks)
    ensures Printed(printed + [ticks[i].x], ticks[i := ticks[i].(labelled := true)])
  {
    var after := ticks[i := ticks[i].(labelled := true)];
    forall x | x in printed + [ticks[i].x] ensures exists j :: 0 <= j < |after| && after[j].labelled && after[j].x == x {
      if x in printed {
        var j :| 0 <= j < |ticks| && ticks[j].labelled && ticks[j].x == x;
        assert after[j].labelled && after[j].x == x;
      } else {
        assert after[i].labelled && after[i].x == x;
      }
    }
  }

  /** Deciding tick `i` by its room settles it and leaves the others as they were. */
  lemma {:induction false} ThinOne(before: seq<Tick>, after: seq<Tick>, own: Option<int>, i: nat)
    requires i < |before| && Thinned(before, own, i)
    requires after == before[i := before[i].(labelled := before[i].labelled || HasRoom(before, own, i))]
    ensures Thinned(after, own, i + 1)
  {
    assert !before[i].labelled ==> !IsOwn(before[i], own);
    forall k | 0 <= k < i + 1 ensures HasRoom(after, own, k) <==> HasRoom(before, own, k) {
      forall j | 0 <= j < |after| && j != k && (j < k || IsOwn(after[j], own)) ensures after[j] == before[j] {
      }
    }
  }

  // ------------------------------------------------------------------------------------- the labels printed

  ghost predicate Ascending(ticks: seq<Tick>) {
    forall i, j :: 0 <= i < j < |ticks| ==> ticks[i].x < ticks[j].x
  }

  lemma {:induction false} NoneLabelled(band: Band, axis: Axis, channels: seq<int>)
    ensures forall i :: 0 <= i < |Unlabelled(band, axis, channels)| ==> !Unlabelled(band, axis, channels)[i].labelled
  {
    if channels != [] {
      NoneLabelled(band, axis, channels[..|channels| - 1]);
    }
  }

  /** The centre in MHz of the 20 MHz slot a number falls in, counted by fours from the band's first. */
  function SlotCentre(band: Band, channel: int): int {
    match band
    case TwoGhz => if channel == 14 then 2484 else 2407 + 5 * channel
    case FiveGhz => 5000 + 5 * (36 + (channel - 36) / 4 * 4)
    case SixGhz => 5950 + 5 * (1 + (channel - 1) / 4 * 4)
  }

  lemma {:induction false} SlotExtent(band: Band, channel: int)
    requires match band case TwoGhz => 1 <= channel <= 14 case FiveGhz => channel >= 36 case SixGhz => channel >= 1
    ensures FrequencyExtent(ChannelSpan(channel, band, 20, false)) == Some(Around(SlotCentre(band, channel), 20))
  {
    var s := ChannelSpan(channel, band, 20, false);
    if band.TwoGhz? {
      assert CandidateSpans(s).0 == [Around(SlotCentre(band, channel), 20)];
    } else {
      assert s.widthMhz / 5 == 4;
      BlockExtent(s);
    }
  }

  /** A stretch around a whole number of MHz has its middle there. */
  lemma {:induction false} Middle(centre: int, half: int)
    ensures (Around(centre, half).lo + Around(centre, half).hi) as real / 4.0 == centre as real
  {
    assert Around(centre, half).lo + Around(centre, half).hi == 4 * centre;
  }

  /** A number stands at the centre of its slot. */
  lemma {:induction false} CentreOf(band: Band, i: nat)
    requires i < ChannelCount(band)
    ensures CentreMhz(band, ChannelNumber(band, i)) == Some(SlotCentre(band, ChannelNumber(band, i)) as real)
  {
    var channel := ChannelNumber(band, i);
    SlotExtent(band, channel);
    Middle(SlotCentre(band, channel), 20);
  }

  /** Numbers further on in a band's list stand further right. */
  lemma {:induction false} CentresAscend(band: Band, i: nat, j: nat)
    requires i < j < ChannelCount(band)
    ensures var a, b := ChannelNumber(band, i), ChannelNumber(band, j);
            && a < b
            && CentreMhz(band, a).Some? && CentreMhz(band, b).Some?
            && CentreMhz(band, a).value < CentreMhz(band, b).value
  {
    CentreOf(band, i);
    CentreOf(band, j);
  }

  lemma {:induction false} DivideLess(x: real, y: real, w: real)
    requires x < y && w > 0.0
    ensures x / w < y / w
  {
    assert (y / w - x / w) * w == y - x;
  }

  lemma {:induction false} PxAscend(band: Band, axis: Axis, a: int, b: int)
    requires ChannelCentrePx(band, a, axis).Some? && ChannelCentrePx(band, b, axis).Some?
    requires CentreMhz(band, a).value < CentreMhz(band, b).value
    ensures ChannelCentrePx(band, a, axis).value < ChannelCentrePx(band, b, axis).value
  {
    DivideLess(CentreMhz(band, a).value - axis.lo, CentreMhz(band, b).value - axis.lo, axis.hi - axis.lo);
  }

  lemma {:induction false} TickSources(band: Band, axis: Axis, n: nat, k: nat)
    requires n <= |BandChannels(band)| && k < |Unlabelled(band, axis, BandChannels(band)[..n])|
    ensures var t := Unlabelled(band, axis, BandChannels(band)[..n])[k];
            t.channel in BandChannels(band)[..n] && ChannelCentrePx(band, t.channel, axis) == Some(t.x)
  {
    var channels := BandChannels(band);
    assert channels[..n][..n - 1] == channels[..n - 1];
    if k < |Unlabelled(band, axis, channels[..n - 1])| {
      TickSources(band, axis, n - 1, k);
    }
  }

  /** The ticks before a channel's stand to its left. */
  lemma {:induction false} LaterIsRight(band: Band, axis: Axis, n: nat, k: nat)
    requires n < |BandChannels(band)| && k < |Unlabelled(band, axis, BandChannels(band)[..n])|
    requires ChannelCentrePx(band, BandChannels(band)[n], axis).Some?
    ensures var t := Unlabelled(band, axis, BandChannels(band)[..n])[k];
            t.channel != BandChannels(band)[n] && t.x < ChannelCentrePx(band, BandChannels(band)[n], axis).value
  {
    var channels := BandChannels(band);
    TickSources(band, axis, n, k);
    var i :| 0 <= i < n && channels[i] == Unlabelled(band, axis, channels[..n])[k].channel;
    CentresAscend(band, i, n);
    PxAscend(band, axis, channels[i], channels[n]);
  }

  lemma {:induction false} TicksAscendTo(band: Band, axis: Axis, n: nat)
    requires n <= |BandChannels(band)|
    ensures var ticks := Unlabelled(band, axis, BandChannels(band)[..n]); Ascending(ticks) && DistinctChannels(ticks)
  {
    var channels := BandChannels(band);
    if n > 0 {
      TicksAscendTo(band, axis, n - 1);
      assert channels[..n][..n - 1] == channels[..n - 1];
      var front, x := Unlabelled(band, axis, channels[..n - 1]), ChannelCentrePx(band, channels[n - 1], axis);
      if x.Some? {
        AllLeftOf(band, axis, n - 1, front, x.value);
        OneMoreTick(front, Tick(channels[n - 1], x.value, false));
      }
    }
  }

  lemma {:induction false} AllLeftOf(band: Band, axis: Axis, n: nat, front: seq<Tick>, x: real)
    requires n < |BandChannels(band)| && front == Unlabelled(band, axis, BandChannels(band)[..n])
    requires ChannelCentrePx(band, BandChannels(band)[n], axis) == Some(x)
    ensures forall k :: 0 <= k < |front| ==> front[k].channel != BandChannels(band)[n] && front[k].x < x
  {
    forall k | 0 <= k < |front| ensures front[k].channel != BandChannels(band)[n] && front[k].x < x {
      LaterIsRight(band, axis, n, k);
    }
  }

  lemma {:induction false} OneMoreTick(front: seq<Tick>, last: Tick)
    requires Ascending(front) && DistinctChannels(front)
    requires forall k :: 0 <= k < |front| ==> front[k].channel != last.channel && front[k].x < last.x
    ensures Ascending(front + [last]) && DistinctChannels(front + [last])
  {
  }

  lemma {:induction false} TicksAscend(band: Band, axis: Axis)
    ensures var ticks := Unlabelled(band, axis, BandChannels(band)); Ascending(ticks) && DistinctChannels(ticks)
  {
    TicksAscendTo(band, axis, |BandChannels(band)|);
    assert BandChannels(band)[..|BandChannels(band)|] == BandChannels(band);
  }

  /** Printed numbers never touch, and none is left out that could still have been printed. */
  lemma {:induction false} LabelsSeparatedAndMaximal(ticks: seq<Tick>, own: Option<int>)
    requires Thinned(ticks, own, |ticks|) && DistinctChannels(ticks)
    ensures forall i, j :: 0 <= i < j < |ticks| && ticks[i].labelled && ticks[j].labelled ==>
              ticks[i].x + 24.0 <= ticks[j].x || ticks[j].x + 24.0 <= ticks[i].x
    ensures forall i :: 0 <= i < |ticks| && !ticks[i].labelled ==>
              exists j :: 0 <= j < |ticks| && ticks[j].labelled && ticks[j].x - 24.0 < ticks[i].x < ticks[j].x + 24.0
  {
    forall i, j | 0 <= i < j < |ticks| && ticks[i].labelled && ticks[j].labelled ensures Clear(ticks[i], ticks[j]) {
      if IsOwn(ticks[j], own) {
        assert !IsOwn(ticks[i], own) && HasRoom(ticks, own, i);
      } else {
        assert HasRoom(ticks, own, j);
      }
    }
  }

  /** A choice of numbers to print that keeps them apart and keeps ours. */
  ghost predicate Choice(ticks: seq<Tick>, own: Option<int>, chosen: set<nat>) {
    && (forall i :: i in chosen ==> i < |ticks|)
    && (forall i, j :: i in chosen && j in chosen && i != j ==> Clear(ticks[i], ticks[j]))
    && (forall i: nat :: i < |ticks| && IsOwn(ticks[i], own) ==> i in chosen)
  }

  ghost function Labels(ticks: seq<Tick>): set<nat> {
    set i: nat | i < |ticks| && ticks[i].labelled
  }

  /** The label closest by, at or to the left of a tick that some choice prints. */
  ghost predicate Covers(ticks: seq<Tick>, i: nat, j: nat) {
    i < |ticks| && j in Labels(ticks) && ticks[i].x - MIN_TICK_LABEL_GAP < ticks[j].x <= ticks[i].x
  }

  lemma {:induction false} ChosenIsCovered(ticks: seq<Tick>, own: Option<int>, chosen: set<nat>, i: nat) returns (j: nat)
    requires Thinned(ticks, own, |ticks|) && Ascending(ticks) && Choice(ticks, own, chosen) && i in chosen
    ensures Covers(ticks, i, j)
  {
    if ticks[i].labelled {
      j := i;
    } else {
      j :| 0 <= j < |ticks| && ticks[j].labelled && (j < i || IsOwn(ticks[j], own)) && j != i && !Clear(ticks[i], ticks[j]);
      assert !IsOwn(ticks[j], own);
    }
  }

  /** The thinning prints as many numbers as any choice can. */
  lemma {:induction false} NoChoicePrintsMore(ticks: seq<Tick>, own: Option<int>, chosen: set<nat>)
    requires Thinned(ticks, own, |ticks|) && Ascending(ticks) && Choice(ticks, own, chosen)
    ensures |chosen| <= |Labels(ticks)|
  {
    CoveredCount(ticks, own, chosen, chosen, Labels(ticks));
  }

  lemma {:induction false} CoversOne(ticks: seq<Tick>, own: Option<int>, chosen: set<nat>, i: nat, i': nat, j: nat)
    requires Choice(ticks, own, chosen) && i in chosen && i' in chosen && i != i'
    ensures !(Covers(ticks, i, j) && Covers(ticks, i', j))
  {
    assert Clear(ticks[i], ticks[i']);
  }

  /** Ticks that keep apart are covered by different labels. */
  lemma {:induction false} CoveredCount(ticks: seq<Tick>, own: Option<int>, chosen: set<nat>, some: set<nat>, labels: set<nat>)
    requires Thinned(ticks, own, |ticks|) && Ascending(ticks) && Choice(ticks, own, chosen) && some <= chosen
    requires forall i, j :: i in some && Covers(ticks, i, j) ==> j in labels
    ensures |some| <= |labels|
    decreases some
  {
    if some != {} {
      var i :| i in some;
      var j := ChosenIsCovered(ticks, own, chosen, i);
      forall i', j' | i' in some - {i} && Covers(ticks, i', j') ensures j' in labels - {j} {
        CoversOne(ticks, own, chosen, i, i', j);
      }
      CoveredCount(ticks, own, chosen, some - {i}, labels - {j});
    }
  }

  // ------------------------------------------------------------------------------------- our own number

  /** The union of what can be placed among `spans`. */
  function Reach(spans: seq<ChannelSpan>): Option<Axis> {
    if spans == [] then None
    else
      var n := |spans| - 1;
      var rest := Reach(spans[..n]);
      var e := FrequencyExtent(spans[n]);
      if e.None? then rest
      else
        var lo, hi := e.value.lo as real / 2.0, e.value.hi as real / 2.0;
        if rest.None? then Some(Axis(lo, hi)) else Some(Axis(RealMin(rest.value.lo, lo), RealMax(rest.value.hi, hi)))
  }

  /** The window a band is drawn across: 2.4 GHz whole, every band padded. */
  function AxisRange(band: Band, spans: seq<ChannelSpan>): Option<Axis> {
    var reach := Reach(spans);
    if reach.None? then None
    else
      var lo := if band.TwoGhz? then RealMin(reach.value.lo, 2402.0) else reach.value.lo;
      var hi := if band.TwoGhz? then RealMax(reach.value.hi, 2482.0) else reach.value.hi;
      var pad := RealMax((hi - lo) * 0.08, 10.0);
      Some(Axis(lo - pad, hi + pad))
  }

  lemma {:induction false} ReachCovers(spans: seq<ChannelSpan>, s: ChannelSpan)
    requires s in spans && FrequencyExtent(s).Some?
    ensures Reach(spans).Some?
    ensures Reach(spans).value.lo <= FrequencyExtent(s).value.lo as real / 2.0
    ensures FrequencyExtent(s).value.hi as real / 2.0 <= Reach(spans).value.hi
  {
    var n := |spans| - 1;
    assert spans == spans[..n] + [spans[n]];
    if s in spans[..n] {
      ReachCovers(spans[..n], s);
    }
  }

  lemma {:induction false} ReachIsAttained(spans: seq<ChannelSpan>) returns (i: nat, j: nat)
    requires Reach(spans).Some?
    ensures i < |spans| && FrequencyExtent(spans[i]).Some? && FrequencyExtent(spans[i]).value.lo as real / 2.0 == Reach(spans).value.lo
    ensures j < |spans| && FrequencyExtent(spans[j]).Some? && FrequencyExtent(spans[j]).value.hi as real / 2.0 == Reach(spans).value.hi
  {
    var n := |spans| - 1;
    if Reach(spans[..n]).Some? {
      i, j := ReachIsAttained(spans[..n]);
    }
    if FrequencyExtent(spans[n]).Some? {
      if Reach(spans[..n]).None? || FrequencyExtent(spans[n]).value.lo as real / 2.0 <= Reach(spans[..n]).value.lo {
        i := n;
      }
      if Reach(spans[..n]).None? || FrequencyExtent(spans[n]).value.hi as real / 2.0 >= Reach(spans[..n]).value.hi {
        j := n;
      }
    }
  }

  /** There is an axis exactly if any radio of the section can be placed. */
  lemma {:induction false} AxisIfPlaced(band: Band, spans: seq<ChannelSpan>)
    ensures AxisRange(band, spans).Some? <==> exists s :: s in spans && FrequencyExtent(s).Some?
  {
    if s :| s in spans && FrequencyExtent(s).Some? {
      ReachCovers(spans, s);
    }
    if Reach(spans).Some? {
      var i, j := ReachIsAttained(spans);
      assert spans[i] in spans;
    }
  }

  /**
   How far it goes: to a pad beyond the outermost ends of the radios, and in 2.4 GHz beyond 2402 and 2482 MHz at
   least; the pad is 8 % of that stretch, and never under 10 MHz.
   */
  lemma {:induction false} AxisMeans(band: Band, spans: seq<ChannelSpan>)
    returns (i: nat, j: nat, lo: real, hi: real, pad: real)
    requires AxisRange(band, spans).Some?
    ensures Frames(band, spans, i, j, lo, hi) && IsPad(hi - lo, pad)
    ensures AxisRange(band, spans) == Some(Axis(lo - pad, hi + pad))
  {
    i, j := ReachIsAttained(spans);
    var e := Reach(spans).value;
    AllReached(spans);
    lo := if band.TwoGhz? then RealMin(e.lo, 2402.0) else e.lo;
    hi := if band.TwoGhz? then RealMax(e.hi, 2482.0) else e.hi;
    pad := RealMax((hi - lo) * 0.08, 10.0);
  }

  lemma {:induction false} AllReached(spans: seq<ChannelSpan>)
    ensures forall s :: s in spans && FrequencyExtent(s).Some? ==>
              && Reach(spans).Some?
              && Reach(spans).value.lo <= FrequencyExtent(s).value.lo as real / 2.0
              && FrequencyExtent(s).value.hi as real / 2.0 <= Reach(spans).value.hi
  {
    forall s | s in spans && FrequencyExtent(s).Some?
      ensures Reach(spans).Some?
      ensures Reach(spans).value.lo <= FrequencyExtent(s).value.lo as real / 2.0
      ensures FrequencyExtent(s).value.hi as real / 2.0 <= Reach(spans).value.hi {
      ReachCovers(spans, s);
    }
  }

  /** `lo` and `hi` are the outermost ends of the radios, that of the `i`-th and the `j`-th, or the whole 2.4 GHz band's. */
  ghost predicate Frames(band: Band, spans: seq<ChannelSpan>, i: nat, j: nat, lo: real, hi: real) {
    && i < |spans| && FrequencyExtent(spans[i]).Some? && j < |spans| && FrequencyExtent(spans[j]).Some?
    && (forall s :: s in spans && FrequencyExtent(s).Some? ==>
          lo <= FrequencyExtent(s).value.lo as real / 2.0 && FrequencyExtent(s).value.hi as real / 2.0 <= hi)
    && (band.TwoGhz? ==> lo <= 2402.0 && 2482.0 <= hi)
    && (lo == FrequencyExtent(spans[i]).value.lo as real / 2.0 || (band.TwoGhz? && lo == 2402.0))
    && (hi == FrequencyExtent(spans[j]).value.hi as real / 2.0 || (band.TwoGhz? && hi == 2482.0))
  }

  predicate IsPad(width: real, pad: real) {
    pad >= 10.0 && 100.0 * pad >= 8.0 * width && (pad == 10.0 || 100.0 * pad == 8.0 * width)
  }

  /** Where a radio is drawn on an axis. */
  function BarOf(s: ChannelSpan, axis: Axis): Option<PackRows.Bar> {
    var e := FrequencyExtent(s);
    if e.None? then None else PackRows.Place(e.value.lo as real / 2.0, e.value.hi as real / 2.0, (axis.lo, axis.hi))
  }

  /** The pad is at least the 14.5th part of the axis. */
  lemma {:induction false} PadIsWide(band: Band, spans: seq<ChannelSpan>, lo: real, hi: real)
    requires Reach(spans).Some? && Reach(spans).value.lo <= lo < hi <= Reach(spans).value.hi
    ensures AxisRange(band, spans).Some?
    ensures var axis := AxisRange(band, spans).value;
            && axis.lo < axis.hi
            && axis.hi - axis.lo <= 14.5 * (lo - axis.lo) && axis.hi - axis.lo <= 14.5 * (axis.hi - hi)
  {
  }

  lemma {:induction false} OnScale(x: real, width: real)
    requires width > 0.0 && width <= 14.5 * x && width <= 14.5 * (width - x)
    ensures 38.0 <= x / width * PackRows.AXIS_W <= PackRows.AXIS_W - 38.0
  {
    PartOf(x / width, x, width);
  }

  lemma {:induction false} PartOf(q: real, x: real, width: real)
    requires width > 0.0 && q * width == x && width <= 14.5 * x && width <= 14.5 * (width - x)
    ensures 1.0 <= 14.5 * q <= 13.5
  {
    assert (14.5 * q - 1.0) * width == 14.5 * x - width;
    NotNegative(14.5 * q - 1.0, width);
    assert (13.5 - 14.5 * q) * width == 13.5 * width - 14.5 * x;
    NotNegative(13.5 - 14.5 * q, width);
  }

  /** The bar from `lo` to `hi` MHz stands to scale and clear of both ends of the axis, widened at most to be seen. */
  predicate ToScale(bar: PackRows.Bar, lo: real, hi: real, axis: Axis) {
    && axis.lo < axis.hi
    && bar.left == (lo - axis.lo) / (axis.hi - axis.lo) * PackRows.AXIS_W
    && bar.Right() == RealMax((hi - axis.lo) / (axis.hi - axis.lo) * PackRows.AXIS_W, bar.left + 1.5)
    && 38.0 <= bar.left && bar.Right() <= PackRows.AXIS_W - 36.5
  }

  lemma {:induction false} PlacedToScale(lo: real, hi: real, axis: Axis)
    requires lo < hi && axis.lo < axis.hi
    requires axis.hi - axis.lo <= 14.5 * (lo - axis.lo) && axis.hi - axis.lo <= 14.5 * (axis.hi - hi)
    ensures var bar := PackRows.Place(lo, hi, (axis.lo, axis.hi)); bar.Some? && ToScale(bar.value, lo, hi, axis)
  {
    OnScale(lo - axis.lo, axis.hi - axis.lo);
    OnScale(hi - axis.lo, axis.hi - axis.lo);
  }

  /**
   A radio of the section is drawn to scale on the section's axis, well clear of both ends: neither end of its bar
   is clamped, and not even the least width takes it over the edge.
   */
  lemma {:induction false} BarsStandOnTheAxis(band: Band, spans: seq<ChannelSpan>, s: ChannelSpan)
    requires s in spans && s.widthMhz > 0 && FrequencyExtent(s).Some?
    ensures AxisRange(band, spans).Some? && BarOf(s, AxisRange(band, spans).value).Some?
    ensures var axis, e := AxisRange(band, spans).value, FrequencyExtent(s).value;
            ToScale(BarOf(s, axis).value, e.lo as real / 2.0, e.hi as real / 2.0, axis)
  {
    var e := FrequencyExtent(s).value;
    ReachCovers(spans, s);
    ExtentIsTheUnion(s, Extent(0, 1));
    HalvesAscend(e.lo, e.hi);
    PadIsWide(band, spans, e.lo as real / 2.0, e.hi as real / 2.0);
    PlacedToScale(e.lo as real / 2.0, e.hi as real / 2.0, AxisRange(band, spans).value);
  }

  lemma {:induction false} HalvesAscend(a: int, b: int)
    requires a < b
    ensures a as real / 2.0 < b as real / 2.0
  {
  }

  lemma {:induction false} BlockNearSlot(channel: int, anchor: int, width: int)
    requires channel >= anchor && width >= 5
    ensures var step := width / 5;
            var centre := anchor + (channel - anchor) / step * step + step / 2 - 2;
            10 * centre - width - 20 <= 10 * (anchor + (channel - anchor) / 4 * 4) <= 10 * centre + width + 20
  {
    var step := width / 5;
    var offset := (channel - anchor) % step;
    assert (channel - anchor) / step * step == channel - anchor - offset;
  }

  /** In doubled MHz: no slot's centre is further than 20 from the band its radio is drawn as. */
  ghost predicate NearExtent(s: ChannelSpan) {
    && FrequencyExtent(s).Some?
    && FrequencyExtent(s).value.lo - 20 <= 2 * SlotCentre(s.band, s.channel) <= FrequencyExtent(s).value.hi + 20
  }

  lemma {:induction false} NearInTwoGhz(s: ChannelSpan)
    requires s.widthMhz > 0 && s.band.TwoGhz? && 1 <= s.channel <= 14
    ensures NearExtent(s)
  {
    var p := SlotCentre(s.band, s.channel);
    if s.widthMhz <= 20 {
      assert CandidateSpans(s).0 == [Around(p, s.widthMhz)];
    } else {
      assert CandidateSpans(s).0 == [Extent(2 * p - 20, 2 * p + 2 * s.widthMhz - 20), Extent(2 * p - 2 * s.widthMhz + 20, 2 * p + 20)];
    }
  }

  lemma {:induction false} NearInBlocks(s: ChannelSpan)
    requires s.widthMhz >= 5 && !s.band.TwoGhz? && s.channel >= s.band.BlockAnchor().value
    ensures NearExtent(s)
  {
    BlockExtent(s);
    BlockNearSlot(s.channel, s.band.BlockAnchor().value, s.widthMhz);
  }

  lemma {:induction false} NearWhenNarrow(s: ChannelSpan, i: nat)
    requires 0 < s.widthMhz < 5 && !s.band.TwoGhz? && i < ChannelCount(s.band) && s.channel == ChannelNumber(s.band, i)
    ensures NearExtent(s)
  {
    assert CandidateSpans(s).0 == [Around(s.band.PrimaryCentre(s.channel).value, s.widthMhz)];
  }

  lemma {:induction false} HalfReal(a: int, c: int, b: int)
    requires a - 20 <= 2 * c <= b + 20
    ensures a as real / 2.0 - 10.0 <= c as real <= b as real / 2.0 + 10.0
  {
    assert a as real - 20.0 <= 2.0 * c as real <= b as real + 20.0;
  }

  /** The slot of a radio's channel number is never further than the pad outside the band it is drawn as. */
  lemma {:induction false} SlotNearBand(s: ChannelSpan, i: nat)
    requires s.widthMhz > 0 && i < ChannelCount(s.band) && s.channel == ChannelNumber(s.band, i)
    ensures FrequencyExtent(s).Some? && CentreMhz(s.band, s.channel).Some?
    ensures var centre := CentreMhz(s.band, s.channel).value;
            FrequencyExtent(s).value.lo as real / 2.0 - 10.0 <= centre <= FrequencyExtent(s).value.hi as real / 2.0 + 10.0
  {
    CentreOf(s.band, i);
    if s.band.TwoGhz? {
      NearInTwoGhz(s);
    } else if s.widthMhz >= 5 {
      NearInBlocks(s);
    } else {
      NearWhenNarrow(s, i);
    }
    HalfReal(FrequencyExtent(s).value.lo, SlotCentre(s.band, s.channel), FrequencyExtent(s).value.hi);
  }

  /** A span of the section whose channel has a number in the band has that number on the section's axis. */
  lemma {:induction false} OwnTickOnAxis(band: Band, spans: seq<ChannelSpan>, own: ChannelSpan)
    requires own in spans && own.band == band && own.widthMhz > 0 && own.channel in BandChannels(band)
    ensures AxisRange(band, spans).Some?
    ensures ChannelCentrePx(band, own.channel, AxisRange(band, spans).value).Some?
  {
    var i :| 0 <= i < ChannelCount(band) && BandChannels(band)[i] == own.channel;
    SlotNearBand(own, i);
    ReachCovers(spans, own);
    ExtentIsTheUnion(own, Extent(0, 1));
  }

  lemma {:induction false} TickFor(band: Band, axis: Axis, channels: seq<int>, channel: int)
    requires channel in channels && ChannelCentrePx(band, channel, axis).Some?
    ensures exists i :: 0 <= i < |Unlabelled(band, axis, channels)| && Unlabelled(band, axis, channels)[i].channel == channel
  {
    var n := |channels| - 1;
    assert channels == channels[..n] + [channels[n]];
    var ticks := Unlabelled(band, axis, channels);
    if channels[n] == channel {
      assert ticks[|ticks| - 1].channel == channel;
    } else {
      TickFor(band, axis, channels[..n], channel);
      var i :| 0 <= i < |Unlabelled(band, axis, channels[..n])| && Unlabelled(band, axis, channels[..n])[i].channel == channel;
      assert ticks[i].channel == channel;
    }
  }

  /** Our own channel number, if the band has it at all, is on the axis of our section and printed. */
  lemma {:induction false} OwnAlwaysPrinted(band: Band, spans: seq<ChannelSpan>, own: ChannelSpan, ticks: seq<Tick>)
    requires own in spans && own.band == band && own.widthMhz > 0 && own.channel in BandChannels(band)
    requires AxisRange(band, spans).Some? ==>
               SameTicks(ticks, Unlabelled(band, AxisRange(band, spans).value, BandChannels(band)))
    requires Thinned(ticks, Some(own.channel), |ticks|)
    ensures exists t :: t in ticks && t.channel == own.channel && t.labelled
  {
    OwnTickOnAxis(band, spans, own);
    var axis := AxisRange(band, spans).value;
    TickFor(band, axis, BandChannels(band), own.channel);
    var i :| 0 <= i < |ticks| && Unlabelled(band, axis, BandChannels(band))[i].channel == own.channel;
    assert ticks[i].(labelled := false).channel == own.channel;
    assert ticks[i] in ticks;
  }
}
