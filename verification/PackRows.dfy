/**
 Packing the drawn bars of a band into rows (`air.rs`, `place` and `pack_rows`).

 Pixels are reals. The greedy packing is proved valid and OPTIMAL: when a row is wider, one bar of
 every row wider before, together with the new bar, forms a crowd of mutually crossing bars, and no
 assignment can seat a crowd in fewer rows than it has members.
 */
module PackRows {
  import opened Prelude
  import opened StableSort

  datatype Bar = Bar(left: real, width: real) {
    function Right(): real { left + width }
  }

  const BAR_GAP: real := 2.0
  const AXIS_W: real := 560.0
  /** The most negative finite `f32`, where the source starts the right end of a fresh row. */
  const F32_MIN: real := -340282346638528859811704183484516925440.0

  /** The two bars do not cross: one starts at least the gap after the other ends. */
  ghost predicate Apart(a: Bar, b: Bar) {
    a.left >= b.Right() + BAR_GAP || b.left >= a.Right() + BAR_GAP
  }

  /** Bars that share a row do not cross. */
  ghost predicate ValidRows(placed: seq<Bar>, rows: seq<nat>) {
    && |rows| == |placed|
    && forall i, j :: 0 <= i < j < |rows| && rows[i] == rows[j] ==> Apart(placed[i], placed[j])
  }

  /** The rows are numbered from 0 without holes: none is empty, and the highest number gives the count. */
  ghost predicate Numbered(rows: seq<nat>) {
    forall r: nat :: r in rows <==> r < |Elements(rows)|
  }

  /** No assignment that keeps crossing bars apart uses fewer rows. */
  ghost predicate Fewest(placed: seq<Bar>, rows: seq<nat>) {
    forall other: seq<nat> :: ValidRows(placed, other) ==> |Elements(rows)| <= |Elements(other)|
  }

  /** What `Place` guarantees of every bar. */
  ghost predicate Drawable(placed: seq<Bar>) {
    forall i :: 0 <= i < |placed| ==> placed[i].left >= 0.0 && placed[i].width >= 0.0
  }

  /** Bars that mutually cross. */
  ghost predicate Crowd(placed: seq<Bar>, members: seq<nat>) {
    && (forall k :: 0 <= k < |members| ==> members[k] < |placed|)
    && Distinct(members)
    && forall k, l :: 0 <= k < l < |members| ==> !Apart(placed[members[k]], placed[members[l]])
  }

  /** Pigeonhole: a valid assignment gives every member of a crowd a row of its own. */
  lemma {:induction false} CrowdNeedsRows(placed: seq<Bar>, rows: seq<nat>, members: seq<nat>)
    requires ValidRows(placed, rows) && Crowd(placed, members)
    ensures |members| <= |Elements(rows)|
  {
    var seats := seq(|members|, k requires 0 <= k < |members| => rows[members[k]]);
    assert Distinct(seats);
    DistinctCount(seats);
    SubsetCount(Elements(seats), Elements(rows));
  }

  /** `e + BAR_GAP` is where the next bar of a row may start; the first row with room, or a new one. */
  method FirstFree(ends: seq<real>, left: real) returns (row: nat)
    ensures row <= |ends|
    ensures forall r :: 0 <= r < row ==> left < ends[r] + BAR_GAP
    ensures row < |ends| ==> left >= ends[row] + BAR_GAP
  {
    row := 0;
    while row < |ends| && left < ends[row] + BAR_GAP
      invariant row <= |ends|
      invariant forall r :: 0 <= r < row ==> left < ends[r] + BAR_GAP
    {
      row := row + 1;
    }
  }

  function Tagged(placed: seq<Bar>): (r: seq<(nat, real)>)
    ensures |r| == |placed|
    ensures forall i :: 0 <= i < |r| ==> r[i] == (i, placed[i].left)
  {
    seq(|placed|, i requires 0 <= i < |placed| => (i as nat, placed[i].left))
  }

  ghost predicate Visited(order: seq<(nat, real)>, i: nat) {
    exists p :: 0 <= p < |order| && order[p].0 == i
  }

  /** `order` lists the bars left to right, each index once. */
  ghost predicate LeftToRight(placed: seq<Bar>, order: seq<(nat, real)>) {
    && |order| == |placed|
    && (forall p :: 0 <= p < |order| ==> order[p].0 < |placed| && order[p].1 == placed[order[p].0].left)
    && (forall p, q :: 0 <= p < q < |order| ==> order[p].0 != order[q].0 && order[p].1 <= order[q].1)
    && (forall i: nat :: i < |placed| ==> Visited(order, i))
  }

  ghost function InOrder(placed: seq<Bar>, order: seq<(nat, real)>): (bs: seq<Bar>)
    requires forall p :: 0 <= p < |order| ==> order[p].0 < |placed|
    ensures |bs| == |order|
    ensures forall p :: 0 <= p < |order| ==> bs[p] == placed[order[p].0]
  {
    seq(|order|, p requires 0 <= p < |order| => placed[order[p].0])
  }

  method SeatingOrder(placed: seq<Bar>) returns (order: seq<(nat, real)>)
    ensures LeftToRight(placed, order)
  {
    order := Sort((a: (nat, real), b: (nat, real)) => a.1 <= b.1, Tagged(placed));
    SortSorts((a: (nat, real), b: (nat, real)) => a.1 <= b.1, Tagged(placed));
    PermutedOrder(placed, order);
  }

  lemma {:induction false} PermutedOrder(placed: seq<Bar>, order: seq<(nat, real)>)
    requires multiset(order) == multiset(Tagged(placed)) && |order| == |placed|
    requires forall p, q :: 0 <= p < q < |order| ==> order[p].1 <= order[q].1
    ensures LeftToRight(placed, order)
  {
    var tagged := Tagged(placed);
    forall p | 0 <= p < |order|
      ensures order[p] in tagged
    {
      assert order[p] in multiset(order);
    }
    forall p, q | 0 <= p < q < |order| ensures order[p].0 != order[q].0
    {
      if order[p].0 == order[q].0 {
        assert order[p] == order[q] == tagged[order[p].0];
        TwiceInMultiset(order, p, q);
        OnceInMultiset(tagged, order[p].0);
        assert false;
      }
    }
    forall i: nat | i < |placed| ensures Visited(order, i)
    {
      assert tagged[i] in multiset(tagged);
      assert tagged[i] in order;
    }
  }

  lemma {:induction false} TwiceInMultiset<T>(xs: seq<T>, p: nat, q: nat)
    requires p < q < |xs| && xs[p] == xs[q]
    ensures multiset(xs)[xs[p]] >= 2
  {
    assert xs == xs[..q] + [xs[q]] + xs[q + 1..];
    assert xs[p] in xs[..q];
  }

  lemma {:induction false} OnceInMultiset<T>(xs: seq<T>, i: nat)
    requires i < |xs| && Distinct(xs)
    ensures multiset(xs)[xs[i]] == 1
  {
    assert xs == xs[..i] + [xs[i]] + xs[i + 1..];
  }

  /** The bars `bs`, sorted by left edge, of which the first `|rs|` are seated in rows ending at `ends`. */
  ghost predicate Packed(bs: seq<Bar>, rs: seq<nat>, ends: seq<real>) {
    && |rs| <= |bs|
    && (forall q :: 0 <= q < |rs| ==> rs[q] < |ends| && bs[q].Right() <= ends[rs[q]])
    && forall q, t :: 0 <= q < t < |rs| && rs[q] == rs[t] ==> bs[t].left >= bs[q].Right() + BAR_GAP
  }

  /** `tops` names, for each row, a bar in it, and for drawable bars the one that reaches its end. */
  ghost predicate Topped(bs: seq<Bar>, rs: seq<nat>, ends: seq<real>, tops: seq<nat>) {
    && |tops| == |ends|
    && |rs| <= |bs|
    && forall r :: 0 <= r < |tops| ==>
      tops[r] < |rs| && rs[tops[r]] == r && (Drawable(bs) ==> bs[tops[r]].Right() == ends[r])
  }

  function Stretched(end: real, right: real): real {
    if end >= right then end else right
  }

  /** Seating the next bar in `row`, which has room or is new, keeps the rows packed. */
  lemma {:induction false} SeatKeepsPacked(bs: seq<Bar>, rs: seq<nat>, ends: seq<real>, row: nat)
    requires Packed(bs, rs, ends) && |rs| < |bs| && row < |ends|
    requires (forall q :: 0 <= q < |rs| ==> rs[q] != row) || bs[|rs|].left >= ends[row] + BAR_GAP
    ensures Packed(bs, rs + [row], ends[row := Stretched(ends[row], bs[|rs|].Right())])
  {
  }

  lemma {:induction false} SeatKeepsTopped(bs: seq<Bar>, rs: seq<nat>, ends: seq<real>, tops: seq<nat>, row: nat)
    requires Topped(bs, rs, ends, tops) && |rs| < |bs| && row < |ends|
    ensures var right := bs[|rs|].Right();
            Topped(bs, rs + [row], ends[row := Stretched(ends[row], right)],
                   if right >= ends[row] then tops[row := |rs|] else tops)
  {
  }

  /** A bar with no room in any row crosses the furthest-reaching bar of each, and those cross. */
  lemma {:induction false} NoRoomMakesCrowd(bs: seq<Bar>, rs: seq<nat>, ends: seq<real>, tops: seq<nat>)
    requires Topped(bs, rs, ends, tops) && |rs| < |bs| && Drawable(bs)
    requires forall q, t :: 0 <= q < t < |bs| ==> bs[q].left <= bs[t].left
    requires forall r :: 0 <= r < |ends| ==> bs[|rs|].left < ends[r] + BAR_GAP
    ensures Crowd(bs, tops + [|rs|])
  {
  }

  lemma {:induction false} OpenKeepsPacked(bs: seq<Bar>, rs: seq<nat>, ends: seq<real>, tops: seq<nat>)
    requires Packed(bs, rs, ends) && Topped(bs, rs, ends, tops) && |rs| < |bs|
    ensures var wider := ends + [Stretched(F32_MIN, bs[|rs|].Right())];
            Packed(bs, rs + [|ends|], wider) && Topped(bs, rs + [|ends|], wider, tops + [|rs|])
  {
  }

  /** The state of the greedy pass: `crowd` holds as many mutually crossing bars as there are rows. */
  ghost predicate Seating(bs: seq<Bar>, rs: seq<nat>, ends: seq<real>, tops: seq<nat>, crowd: seq<nat>) {
    && Packed(bs, rs, ends)
    && Topped(bs, rs, ends, tops)
    && |crowd| == |ends|
    && (Drawable(bs) ==> Crowd(bs, crowd))
  }

  /** One turn of the loop, with `row` the first row that has room, or a new one. */
  lemma {:induction false} Seat(bs: seq<Bar>, rs: seq<nat>, ends: seq<real>, tops: seq<nat>, crowd: seq<nat>, row: nat)
    returns (tops': seq<nat>, crowd': seq<nat>)
    requires Seating(bs, rs, ends, tops, crowd) && |rs| < |bs|
    requires forall q, t :: 0 <= q < t < |bs| ==> bs[q].left <= bs[t].left
    requires row <= |ends| && forall r :: 0 <= r < row ==> bs[|rs|].left < ends[r] + BAR_GAP
    requires row < |ends| ==> bs[|rs|].left >= ends[row] + BAR_GAP
    ensures var grown := if row == |ends| then ends + [F32_MIN] else ends;
            Seating(bs, rs + [row], grown[row := Stretched(grown[row], bs[|rs|].Right())], tops', crowd')
  {
    if row == |ends| {
      if Drawable(bs) {
        NoRoomMakesCrowd(bs, rs, ends, tops);
      }
      OpenKeepsPacked(bs, rs, ends, tops);
      var end := Stretched(F32_MIN, bs[|rs|].Right());
      assert (ends + [F32_MIN])[row := end] == ends + [end];
      return tops + [|rs|], tops + [|rs|];
    }
    SeatKeepsPacked(bs, rs, ends, row);
    SeatKeepsTopped(bs, rs, ends, tops, row);
    return if bs[|rs|].Right() >= ends[row] then tops[row := |rs|] else tops, crowd;
  }

  lemma {:induction false} RangeCount(rs: seq<nat>, n: nat)
    requires forall r: nat :: r in rs <==> r < n
    ensures |Elements(rs)| == n
  {
    var all := seq(n, k requires 0 <= k < n => k as nat);
    DistinctCount(all);
    forall r | r in rs ensures r in all {
      assert all[r] == r;
    }
    assert Elements(rs) == Elements(all);
  }

  /** What the seating in left-to-right order says about the rows as the caller indexes them. */
  lemma {:induction false} RowsAreValid(placed: seq<Bar>, order: seq<(nat, real)>, rows: seq<nat>, rs: seq<nat>, ends: seq<real>)
    requires LeftToRight(placed, order) && |rows| == |placed| == |rs|
    requires forall p :: 0 <= p < |order| ==> rows[order[p].0] == rs[p]
    requires Packed(InOrder(placed, order), rs, ends)
    ensures ValidRows(placed, rows)
    ensures forall r :: r in rows ==> r < |ends|
  {
    forall i: nat, j: nat | i < j < |rows| && rows[i] == rows[j] ensures Apart(placed[i], placed[j]) {
      assert Visited(order, i) && Visited(order, j);
      var p :| 0 <= p < |order| && order[p].0 == i;
      var q :| 0 <= q < |order| && order[q].0 == j;
    }
    forall r | r in rows ensures r < |ends| {
      var i: nat :| i < |rows| && rows[i] == r;
      assert Visited(order, i);
    }
  }

  /** A crowd found among the bars in seating order is one among the bars as given. */
  lemma {:induction false} CrowdCarriesOver(placed: seq<Bar>, order: seq<(nat, real)>, crowd: seq<nat>, rows: seq<nat>)
    requires LeftToRight(placed, order) && ValidRows(placed, rows)
    requires Crowd(InOrder(placed, order), crowd)
    ensures |crowd| <= |Elements(rows)|
  {
    var members: seq<nat> := seq(|crowd|, k requires 0 <= k < |crowd| => order[crowd[k]].0);
    CrowdNeedsRows(placed, rows, members);
  }

  lemma {:induction false} AllSeated(placed: seq<Bar>, order: seq<(nat, real)>, rows: seq<nat>, rs: seq<nat>, ends: seq<real>,
                  tops: seq<nat>, crowd: seq<nat>)
    requires LeftToRight(placed, order) && |rows| == |placed| == |rs|
    requires forall p :: 0 <= p < |order| ==> rows[order[p].0] == rs[p]
    requires Seating(InOrder(placed, order), rs, ends, tops, crowd)
    ensures ValidRows(placed, rows) && Numbered(rows)
    ensures Drawable(placed) ==> Fewest(placed, rows)
  {
    RowsAreValid(placed, order, rows, rs, ends);
    forall r: nat | r < |ends| ensures r in rows {
      assert rows[order[tops[r]].0] == r;
    }
    RangeCount(rows, |ends|);
    if Drawable(placed) {
      forall other: seq<nat> | ValidRows(placed, other) ensures |Elements(rows)| <= |Elements(other)| {
        CrowdCarriesOver(placed, order, crowd, other);
      }
    }
  }

  /**
   Assign each placed bar a row, greedily from the left.

   Whatever the widths, bars sharing a row do not cross. For bars as `Place` draws them, the rows are
   numbered without holes and no assignment whatever uses fewer.
   */
  method PackRows(placed: seq<Bar>) returns (rows: seq<nat>)
    ensures ValidRows(placed, rows) && Numbered(rows)
    ensures Drawable(placed) ==> Fewest(placed, rows)
  {
    var order := SeatingOrder(placed);
    var ends: seq<real> := [];
    rows := seq(|placed|, i => 0);
    ghost var bs := InOrder(placed, order);
    ghost var rs: seq<nat> := [];
    ghost var tops: seq<nat> := [];
    ghost var crowd: seq<nat> := [];
    for p := 0 to |order|
      invariant |rows| == |placed| && |rs| == p
      invariant forall q :: 0 <= q < p ==> rows[order[q].0] == rs[q]
      invariant Seating(bs, rs, ends, tops, crowd)
    {
      var (i, left) := order[p];
      var row := FirstFree(ends, left);
      tops, crowd := Seat(bs, rs, ends, tops, crowd, row);
      ends := if row == |ends| then ends + [F32_MIN] else ends;
      ends := ends[row := Stretched(ends[row], placed[i].Right())];
      rows := rows[i := row];
      rs := rs + [row];
    }
    AllSeated(placed, order, rows, rs, ends, tops, crowd);
  }

  function Clamped(x: real): real {
    if x < 0.0 then 0.0 else if x > AXIS_W then AXIS_W else x
  }

  /** Where the span from `lo` to `hi` MHz is drawn on the axis; never narrower than 1.5 px. */
  function Place(lo: real, hi: real, axis: (real, real)): (r: Option<Bar>)
    ensures r.None? <==> axis.1 <= axis.0
    ensures r.Some? ==> 0.0 <= r.value.left <= AXIS_W && r.value.width >= 1.5
    ensures r.Some? ==> (r.value.Right() > AXIS_W <==> r.value.left > AXIS_W - 1.5)
  {
    var width := axis.1 - axis.0;
    if width <= 0.0 then None
    else
      var left := Clamped((lo - axis.0) / width * AXIS_W);
      var w := Clamped((hi - axis.0) / width * AXIS_W) - left;
      Some(Bar(left, if w >= 1.5 then w else 1.5))
  }

  /** Where that is: the part of the span on the axis, to scale, from its end or to its end where the span goes beyond. */
  lemma {:induction false} PlacedOnTheAxis(lo: real, hi: real, axis: (real, real))
    requires axis.0 < axis.1 && lo <= hi
    ensures var bar := Place(lo, hi, axis).value;
            && (lo <= axis.0 ==> bar.left == 0.0)
            && (lo >= axis.1 ==> bar.left == 560.0)
            && (axis.0 <= lo <= axis.1 ==> bar.left * (axis.1 - axis.0) == (lo - axis.0) * 560.0)
            && (bar.width > 1.5 && hi >= axis.1 ==> bar.Right() == 560.0)
            && (bar.width > 1.5 && axis.0 <= hi <= axis.1 ==> bar.Right() * (axis.1 - axis.0) == (hi - axis.0) * 560.0)
  {
    Pixel(lo, axis);
    Pixel(hi, axis);
  }

  lemma {:induction false} Pixel(mhz: real, axis: (real, real))
    requires axis.0 < axis.1
    ensures var px := (mhz - axis.0) / (axis.1 - axis.0) * AXIS_W;
            && (mhz <= axis.0 ==> px <= 0.0) && (mhz >= axis.1 ==> px >= AXIS_W)
            && (axis.0 <= mhz <= axis.1 ==> 0.0 <= px <= AXIS_W)
            && px * (axis.1 - axis.0) == (mhz - axis.0) * AXIS_W
  {
    var width := axis.1 - axis.0;
    var q := (mhz - axis.0) / width;
    Ratio(q, mhz - axis.0, width);
    assert q * AXIS_W * width == q * width * AXIS_W;
  }

  lemma {:induction false} Ratio(q: real, x: real, width: real)
    requires width > 0.0 && q * width == x
    ensures (x <= 0.0 ==> q <= 0.0) && (x >= 0.0 ==> q >= 0.0)
    ensures (x <= width ==> q <= 1.0) && (x >= width ==> q >= 1.0)
  {
    assert (q - 1.0) * width == x - width;
    SameSign(q, width);
    SameSign(q - 1.0, width);
  }

  lemma {:induction false} SameSign(a: real, width: real)
    requires width > 0.0
    ensures (a * width >= 0.0 ==> a >= 0.0) && (a * width <= 0.0 ==> a <= 0.0)
  {
  }
}
