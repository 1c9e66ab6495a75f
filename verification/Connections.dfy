/**
 The fold of the proxy's flow list into an aggregate table (`build_connections_sample`), in place and
 with saturating sums, against the group-by it must equal.
 */
module Connections {
  import opened Prelude

  const MAX_COUNT: nat := 0xFFFF_FFFF
  const MAX_BYTES: nat := 0xFFFF_FFFF_FFFF_FFFF

  datatype Scope = Internal | Lan | External

  /** The fields flows are aggregated by. */
  datatype Key = Key(
    host: Option<string>, dstIp: Option<string>, dstPort: Option<nat>,
    process: Option<string>, network: string, chain: Option<string>)

  type Bytes = b: nat | b <= 0xFFFF_FFFF_FFFF_FFFF

  datatype Flow = Flow(key: Key, upload: Bytes, download: Bytes)

  datatype Row = Row(key: Key, count: nat, upload: nat, download: nat, scope: Scope, iface: Option<string>)

  /** sing-box's own listeners, and the judgement of a destination address made with them. */
  datatype Listeners = Listeners(
    classify: Option<string> -> Scope, tunIf: Option<string>, directIf: Option<string>,
    directTags: seq<string>, blockTags: seq<string>)
  {
    /** The interface a flow carried by `chain` left through. */
    function IfaceForChain(chain: Option<string>): Option<string> {
      match chain
      case None => None
      case Some(tag) =>
        if tag == "" then None
        else if tag in blockTags then Some("blocked")
        else if tag in directTags then directIf
        else tunIf
    }
  }

  datatype Verdict = Ok | Skip

  datatype Sample = Sample(tsUs: int, verdict: Verdict, rows: seq<Row>)

  function Saturate(n: nat, max: nat): nat {
    if n <= max then n else max
  }

  /** Whether a flow belongs to a row: every key field equal, and the scope. */
  predicate SameKey(r: Row, c: Flow, scope: Scope) {
    && r.key.host == c.key.host
    && r.key.dstIp == c.key.dstIp
    && r.key.dstPort == c.key.dstPort
    && r.key.process == c.key.process
    && r.key.network == c.key.network
    && r.key.chain == c.key.chain
    && r.scope == scope
  }

  // ------------------------------------------------------------------------- the group-by specification

  /** The distinct keys of the flows, in the order each was first listed. */
  ghost function Keys(flows: seq<Flow>): seq<Key> {
    if flows == [] then []
    else
      var n := |flows| - 1;
      var keys := Keys(flows[..n]);
      if flows[n].key in keys then keys else keys + [flows[n].key]
  }

  datatype Totals = Totals(count: nat, upload: nat, download: nat) {
    function Plus(t: Totals): Totals {
      Totals(count + t.count, upload + t.upload, download + t.download)
    }
  }

  /** The true totals of a key: how many flows carry it, and their bytes. */
  ghost function TotalsOf(flows: seq<Flow>, key: Key): Totals {
    if flows == [] then Totals(0, 0, 0)
    else
      var last := flows[|flows| - 1];
      TotalsOf(flows[..|flows| - 1], key).Plus(Share(last, key))
  }

  /** What one flow adds to the totals of a key. */
  ghost function Share(c: Flow, key: Key): Totals {
    if c.key == key then Totals(1, c.upload, c.download) else Totals(0, 0, 0)
  }

  lemma {:induction false} TotalsNext(flows: seq<Flow>, c: Flow, key: Key)
    ensures TotalsOf(flows + [c], key) == TotalsOf(flows, key).Plus(Share(c, key))
  {
    assert (flows + [c])[..|flows|] == flows;
  }

  lemma {:induction false} KeysNext(flows: seq<Flow>, c: Flow)
    ensures Keys(flows + [c]) == if c.key in Keys(flows) then Keys(flows) else Keys(flows) + [c.key]
  {
    assert (flows + [c])[..|flows|] == flows;
  }

  /** The row a key should get: its totals, each capped by the width of its column. */
  ghost function RowOf(l: Listeners, flows: seq<Flow>, key: Key): Row {
    var t := TotalsOf(flows, key);
    Row(key, Saturate(t.count, MAX_COUNT), Saturate(t.upload, MAX_BYTES), Saturate(t.download, MAX_BYTES),
        l.classify(key.dstIp), l.IfaceForChain(key.chain))
  }

  /** One row a key, in first-seen order. */
  ghost function GroupBy(l: Listeners, flows: seq<Flow>): (rows: seq<Row>)
    ensures |rows| == |Keys(flows)|
    ensures forall i :: 0 <= i < |rows| ==> rows[i] == RowOf(l, flows, Keys(flows)[i])
  {
    seq(|Keys(flows)|, i requires 0 <= i < |Keys(flows)| => RowOf(l, flows, Keys(flows)[i]))
  }

  ghost predicate Listed(flows: seq<Flow>, key: Key) {
    exists i :: 0 <= i < |flows| && flows[i].key == key
  }

  lemma {:induction false} KeysDistinct(flows: seq<Flow>)
    ensures Distinct(Keys(flows))
    ensures forall key :: key in Keys(flows) <==> Listed(flows, key)
  {
    if flows != [] {
      var n := |flows| - 1;
      KeysDistinct(flows[..n]);
      forall key | Listed(flows, key)
        ensures key in Keys(flows)
      {
        var i :| 0 <= i < |flows| && flows[i].key == key;
        if i < n {
          assert flows[..n][i].key == key;
        }
      }
      forall key | key in Keys(flows)
        ensures Listed(flows, key)
      {
        if key in Keys(flows[..n]) {
          assert Listed(flows[..n], key);
          var i :| 0 <= i < |flows[..n]| && flows[..n][i].key == key;
          assert flows[i].key == key;
        } else {
          assert flows[n].key == key;
        }
      }
    }
  }

  /** A key that no flow carries has nothing counted. */
  lemma {:induction false} UnseenKey(flows: seq<Flow>, key: Key)
    requires key !in Keys(flows)
    ensures TotalsOf(flows, key) == Totals(0, 0, 0)
  {
    if flows != [] {
      var front, last := flows[..|flows| - 1], flows[|flows| - 1];
      assert key !in Keys(front) && key != last.key;
      UnseenKey(front, key);
      PlusNothing(TotalsOf(front, key));
    }
  }

  lemma {:induction false} PlusNothing(t: Totals)
    ensures t.Plus(Totals(0, 0, 0)) == t
  {
  }

  // --------------------------------------------------------------------------------------- the fold

  /** The row a flow opens. */
  function Opened(l: Listeners, c: Flow): Row {
    Row(c.key, 1, c.upload, c.download, l.classify(c.key.dstIp), l.IfaceForChain(c.key.chain))
  }

  function Added(r: Row, c: Flow): Row {
    r.(count := Saturate(r.count + 1, MAX_COUNT), upload := Saturate(r.upload + c.upload, MAX_BYTES),
       download := Saturate(r.download + c.download, MAX_BYTES))
  }

  /** The first row the flow belongs to. */
  method FindRow(rows: seq<Row>, c: Flow, scope: Scope) returns (at: Option<nat>)
    ensures at.Some? ==> at.value < |rows| && SameKey(rows[at.value], c, scope)
    ensures at.Some? ==> forall i :: 0 <= i < at.value ==> !SameKey(rows[i], c, scope)
    ensures at.None? ==> forall i :: 0 <= i < |rows| ==> !SameKey(rows[i], c, scope)
  {
    for i := 0 to |rows|
      invariant forall k :: 0 <= k < i ==> !SameKey(rows[k], c, scope)
    {
      if SameKey(rows[i], c, scope) {
        return Some(i);
      }
    }
    return None;
  }

  /** One more flow: what the loop does to the rows is what the specification asks. */
  lemma {:induction false} GroupByNext(l: Listeners, flows: seq<Flow>, c: Flow)
    ensures var rows := GroupBy(l, flows);
            var keys := Keys(flows);
            if c.key in keys then
              forall i :: 0 <= i < |keys| && keys[i] == c.key ==>
                GroupBy(l, flows + [c]) == rows[i := Added(rows[i], c)]
            else GroupBy(l, flows + [c]) == rows + [Opened(l, c)]
  {
    KeysNext(flows, c);
    if c.key in Keys(flows) {
      forall i | 0 <= i < |Keys(flows)| && Keys(flows)[i] == c.key
        ensures GroupBy(l, flows + [c]) == GroupBy(l, flows)[i := Added(GroupBy(l, flows)[i], c)]
      {
        SeenKeyGrows(l, flows, c, i);
      }
    } else {
      NewKeyOpens(l, flows, c);
    }
  }

  lemma {:induction false} SeenKeyGrows(l: Listeners, flows: seq<Flow>, c: Flow, i: nat)
    requires i < |Keys(flows)| && Keys(flows)[i] == c.key
    ensures GroupBy(l, flows + [c]) == GroupBy(l, flows)[i := Added(GroupBy(l, flows)[i], c)]
  {
    var keys, flows' := Keys(flows), flows + [c];
    KeysNext(flows, c);
    KeysDistinct(flows);
    RowGrows(l, flows, c);
    forall k | 0 <= k < |keys| && k != i ensures RowOf(l, flows', keys[k]) == RowOf(l, flows, keys[k]) {
      OtherRow(l, flows, c, keys[k]);
    }
  }

  lemma {:induction false} NewKeyOpens(l: Listeners, flows: seq<Flow>, c: Flow)
    requires c.key !in Keys(flows)
    ensures GroupBy(l, flows + [c]) == GroupBy(l, flows) + [Opened(l, c)]
  {
    var keys, flows' := Keys(flows), flows + [c];
    KeysNext(flows, c);
    RowOpens(l, flows, c);
    forall k | 0 <= k < |keys| ensures RowOf(l, flows', keys[k]) == RowOf(l, flows, keys[k]) {
      OtherRow(l, flows, c, keys[k]);
    }
  }

  lemma {:induction false} OtherRow(l: Listeners, flows: seq<Flow>, c: Flow, key: Key)
    requires key != c.key
    ensures RowOf(l, flows + [c], key) == RowOf(l, flows, key)
  {
    TotalsNext(flows, c, key);
  }

  lemma {:induction false} RowGrows(l: Listeners, flows: seq<Flow>, c: Flow)
    ensures RowOf(l, flows + [c], c.key) == Added(RowOf(l, flows, c.key), c)
  {
    TotalsNext(flows, c, c.key);
  }

  lemma {:induction false} RowOpens(l: Listeners, flows: seq<Flow>, c: Flow)
    requires c.key !in Keys(flows)
    ensures RowOf(l, flows + [c], c.key) == Opened(l, c)
  {
    FirstTotals(flows, c);
  }

  lemma {:induction false} FirstTotals(flows: seq<Flow>, c: Flow)
    requires c.key !in Keys(flows)
    ensures TotalsOf(flows + [c], c.key) == Totals(1, c.upload, c.download)
  {
    UnseenKey(flows, c.key);
    TotalsNext(flows, c, c.key);
    assert Totals(0, 0, 0).Plus(Share(c, c.key)) == Totals(1, c.upload, c.download);
  }

  /** Fold the fetched flows into a sample; `None` when the API did not answer. */
  method BuildConnectionsSample(tsUs: int, connections: Option<seq<Flow>>, l: Listeners) returns (s: Sample)
    ensures s == match connections
                 case None => Sample(tsUs, Skip, [])
                 case Some(flows) => Sample(tsUs, Verdict.Ok, GroupBy(l, flows))
  {
    if connections.None? {
      return Sample(tsUs, Skip, []);
    }
    var flows := connections.value;
    var rows: seq<Row> := [];
    for n := 0 to |flows|
      invariant rows == GroupBy(l, flows[..n])
    {
      var c := flows[n];
      var scope := l.classify(c.key.dstIp);
      var at := FindRow(rows, c, scope);
      assert flows[..n + 1] == flows[..n] + [c];
      GroupByNext(l, flows[..n], c);
      match at {
        case Some(i) =>
          rows := rows[i := Added(rows[i], c)];
        case None =>
          ScopeSplitsNoKey(l, flows[..n], c);
          rows := rows + [Opened(l, c)];
      }
    }
    assert flows[..|flows|] == flows;
    return Sample(tsUs, Verdict.Ok, rows);
  }

  /** A row belongs to a flow exactly when their keys agree: the scope, a function of the key, adds nothing. */
  lemma {:induction false} ScopeSplitsNoKey(l: Listeners, flows: seq<Flow>, c: Flow)
    ensures forall r :: r in GroupBy(l, flows) ==> (SameKey(r, c, l.classify(c.key.dstIp)) <==> r.key == c.key)
    ensures c.key in Keys(flows) <==> exists r :: r in GroupBy(l, flows) && SameKey(r, c, l.classify(c.key.dstIp))
  {
    if c.key in Keys(flows) {
      var i :| 0 <= i < |Keys(flows)| && Keys(flows)[i] == c.key;
      assert GroupBy(l, flows)[i] in GroupBy(l, flows);
    }
  }

  /**
   Where a row says its flows left: nowhere without a chain, `blocked` by a blocking tag, past the tunnel by a direct
   one, and through the tunnel by any other; and the scope is that of their destination.
   */
  lemma {:induction false} RowSaysWhere(l: Listeners, flows: seq<Flow>, i: nat)
    requires i < |GroupBy(l, flows)|
    ensures var r := GroupBy(l, flows)[i];
            var tag := if r.key.chain.Some? then r.key.chain.value else "";
            && r.scope == l.classify(r.key.dstIp)
            && (tag == "" ==> r.iface == None)
            && (tag != "" && tag in l.blockTags ==> r.iface == Some("blocked"))
            && (tag != "" && tag !in l.blockTags && tag in l.directTags ==> r.iface == l.directIf)
            && (tag != "" && tag !in l.blockTags && tag !in l.directTags ==> r.iface == l.tunIf)
  {
  }

  // ------------------------------------------------------------------------ splitting and reordering

  lemma {:induction false} TotalsAdd(xs: seq<Flow>, ys: seq<Flow>, key: Key)
    ensures TotalsOf(xs + ys, key) == TotalsOf(xs, key).Plus(TotalsOf(ys, key))
  {
    if ys == [] {
      assert xs + ys == xs;
    } else {
      var front, last := ys[..|ys| - 1], ys[|ys| - 1];
      assert xs + ys == (xs + front) + [last] && ys == front + [last];
      TotalsNext(front, last, key);
      TotalsNext(xs + front, last, key);
      TotalsAdd(xs, front, key);
      PlusAssociates(TotalsOf(xs, key), TotalsOf(front, key), Share(last, key));
    }
  }

  lemma {:induction false} PlusAssociates(a: Totals, b: Totals, c: Totals)
    ensures a.Plus(b).Plus(c) == a.Plus(b.Plus(c))
  {
  }

  lemma {:induction false} KeysAdd(xs: seq<Flow>, ys: seq<Flow>)
    ensures Keys(xs + ys) == Keys(xs) + Filter((k: Key) => k !in Keys(xs), Keys(ys))
  {
    if ys == [] {
      assert xs + ys == xs;
    } else {
      var front, last := ys[..|ys| - 1], ys[|ys| - 1];
      KeysAdd(xs, front);
      assert xs + ys == (xs + front) + [last] && ys == front + [last];
      KeysNext(xs + front, last);
      KeysNext(front, last);
      OneMoreKey(Keys(xs), Keys(front), last.key);
    }
  }

  lemma {:induction false} OneMoreKey(known: seq<Key>, keys: seq<Key>, key: Key)
    ensures var isNew := (k: Key) => k !in known;
            var all := known + Filter(isNew, keys);
            known + Filter(isNew, if key in keys then keys else keys + [key]) == if key in all then all else all + [key]
  {
    var isNew := (k: Key) => k !in known;
    FilterMember(isNew, keys, key);
    FilterConcat(isNew, keys, [key]);
    assert Filter(isNew, [key]) == if key in known then [] else [key];
  }

  /** Two rows of one key as one, the way the fold adds to a row. */
  ghost function Sum(a: Row, b: Row): Row {
    a.(count := Saturate(a.count + b.count, MAX_COUNT), upload := Saturate(a.upload + b.upload, MAX_BYTES),
       download := Saturate(a.download + b.download, MAX_BYTES))
  }

  /**
   Folding a list in two parts and merging: the first part's rows stay where they are, the new keys of
   the second follow in its order, and every row is the saturating sum of its two halves.
   */
  lemma {:induction false} FoldMerges(l: Listeners, xs: seq<Flow>, ys: seq<Flow>)
    ensures Keys(xs + ys) == Keys(xs) + Filter((k: Key) => k !in Keys(xs), Keys(ys))
    ensures forall key :: RowOf(l, xs + ys, key) == Sum(RowOf(l, xs, key), RowOf(l, ys, key))
    ensures forall i :: 0 <= i < |Keys(xs + ys)| ==>
              GroupBy(l, xs + ys)[i] == Sum(RowOf(l, xs, Keys(xs + ys)[i]), RowOf(l, ys, Keys(xs + ys)[i]))
  {
    KeysAdd(xs, ys);
    forall key ensures RowOf(l, xs + ys, key) == Sum(RowOf(l, xs, key), RowOf(l, ys, key)) {
      RowsAdd(l, xs, ys, key);
    }
  }

  lemma {:induction false} RowsAdd(l: Listeners, xs: seq<Flow>, ys: seq<Flow>, key: Key)
    ensures RowOf(l, xs + ys, key) == Sum(RowOf(l, xs, key), RowOf(l, ys, key))
  {
    TotalsAdd(xs, ys, key);
    var a, b := TotalsOf(xs, key), TotalsOf(ys, key);
    SaturateAdds(a.count, b.count, MAX_COUNT);
    SaturateAdds(a.upload, b.upload, MAX_BYTES);
    SaturateAdds(a.download, b.download, MAX_BYTES);
  }

  lemma {:induction false} SaturateAdds(a: nat, b: nat, max: nat)
    ensures Saturate(Saturate(a, max) + Saturate(b, max), max) == Saturate(a + b, max)
  {
  }

  /** Taking one occurrence of a flow out of a list takes its share out of the totals. */
  lemma {:induction false} TotalsWithout(flows: seq<Flow>, i: nat, rest: seq<Flow>, key: Key)
    requires i < |flows| && rest == flows[..i] + flows[i + 1..]
    ensures TotalsOf(flows, key) == TotalsOf(rest, key).Plus(Share(flows[i], key))
  {
    var before, with, after := flows[..i], flows[..i + 1], flows[i + 1..];
    assert flows == with + after && with == before + [flows[i]];
    TotalsAdd(before, after, key);
    TotalsAdd(with, after, key);
    TotalsNext(before, flows[i], key);
  }

  lemma {:induction false} MultisetWithout<T>(xs: seq<T>, i: nat)
    requires i < |xs|
    ensures multiset(xs[..i] + xs[i + 1..]) == multiset(xs) - multiset{xs[i]}
  {
    assert xs == xs[..i] + [xs[i]] + xs[i + 1..];
  }

  lemma {:induction false} TotalsPermute(xs: seq<Flow>, ys: seq<Flow>, key: Key)
    requires multiset(xs) == multiset(ys)
    ensures TotalsOf(xs, key) == TotalsOf(ys, key)
    decreases |xs|
  {
    if xs == [] {
      assert |multiset(ys)| == 0;
    } else {
      assert xs[0] in multiset(ys);
      var i :| 0 <= i < |ys| && ys[i] == xs[0];
      var xs', ys' := xs[..0] + xs[1..], ys[..i] + ys[i + 1..];
      MultisetWithout(xs, 0);
      MultisetWithout(ys, i);
      TotalsPermute(xs', ys', key);
      TotalsWithout(xs, 0, xs', key);
      TotalsWithout(ys, i, ys', key);
    }
  }

  lemma {:induction false} DistinctMultiset<T>(xs: seq<T>)
    requires Distinct(xs)
    ensures multiset(xs) == multiset(Elements(xs))
  {
    if xs != [] {
      DistinctMultiset(xs[1..]);
      assert xs == [xs[0]] + xs[1..];
      assert Elements(xs) == {xs[0]} + Elements(xs[1..]);
    }
  }

  /** The order of the flows decides the order of the rows and nothing else. */
  lemma {:induction false} FoldPermutes(l: Listeners, xs: seq<Flow>, ys: seq<Flow>)
    requires multiset(xs) == multiset(ys)
    ensures multiset(GroupBy(l, xs)) == multiset(GroupBy(l, ys))
  {
    SameRows(l, xs, ys);
    SameRows(l, ys, xs);
    KeysDistinct(xs);
    KeysDistinct(ys);
    DistinctMultiset(GroupBy(l, xs));
    DistinctMultiset(GroupBy(l, ys));
    assert Elements(GroupBy(l, xs)) == Elements(GroupBy(l, ys));
  }

  lemma {:induction false} SameRows(l: Listeners, xs: seq<Flow>, ys: seq<Flow>)
    requires multiset(xs) == multiset(ys)
    ensures forall r :: r in GroupBy(l, xs) ==> r in GroupBy(l, ys)
  {
    KeysDistinct(xs);
    KeysDistinct(ys);
    forall r | r in GroupBy(l, xs) ensures r in GroupBy(l, ys) {
      var i :| 0 <= i < |Keys(xs)| && GroupBy(l, xs)[i] == r;
      var key := Keys(xs)[i];
      TotalsPermute(xs, ys, key);
      assert Listed(xs, key);
      var j :| 0 <= j < |xs| && xs[j].key == key;
      assert xs[j] in multiset(ys);
      var k :| 0 <= k < |ys| && ys[k] == xs[j];
      assert Listed(ys, key);
      var m :| 0 <= m < |Keys(ys)| && Keys(ys)[m] == key;
      assert GroupBy(l, ys)[m] == r;
    }
  }
}
