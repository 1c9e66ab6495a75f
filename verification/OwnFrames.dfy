/**
 Counting this machine's own frames in a frozen capture slice (`own_frames.rs`), and folding the counts of
 one slice into another's (`OwnFrames::absorb` in `experiment.rs`).

 `classify` is the frame slicer fixed on one own MAC: any total function from bytes to a bucket or nothing.
 */
module OwnFrames {
  import opened Prelude
  import opened Pcap

  datatype Bucket = IcmpEcho | Arp | Dhcp | Other

  /** The window asked about: both ends included. */
  datatype Window = Window(classify: seq<Byte> -> Option<Bucket>, startUs: int, endUs: int) {
    predicate Holds(r: Record) { startUs <= r.tsUs <= endUs }

    predicate Is(b: Bucket, r: Record) { Holds(r) && classify(r.data) == Some(b) }
  }

  datatype OwnFrames = OwnFrames(
    records: nat, earliestUs: Option<int>, latestUs: Option<int>, truncated: bool, inWindow: nat,
    icmpEcho: nat, firstEchoUs: Option<int>, lastEchoUs: Option<int>, arp: nat, dhcp: nat, other: nat)

  const NONE: OwnFrames := OwnFrames(0, None, None, false, 0, 0, None, None, 0, 0, 0)

  function MinOpt(a: Option<int>, b: Option<int>): Option<int> {
    if a.Some? && b.Some? then Some(if a.value <= b.value then a.value else b.value)
    else if a.Some? then a else b
  }

  function MaxOpt(a: Option<int>, b: Option<int>): Option<int> {
    if a.Some? && b.Some? then Some(if a.value <= b.value then b.value else a.value)
    else if a.Some? then a else b
  }

  /** Another slice's counts folded into `a`. */
  function Absorb(a: OwnFrames, b: OwnFrames): OwnFrames {
    OwnFrames(
      a.records + b.records, MinOpt(a.earliestUs, b.earliestUs), MaxOpt(a.latestUs, b.latestUs),
      a.truncated || b.truncated, a.inWindow + b.inWindow, a.icmpEcho + b.icmpEcho,
      MinOpt(a.firstEchoUs, b.firstEchoUs), MaxOpt(a.lastEchoUs, b.lastEchoUs),
      a.arp + b.arp, a.dhcp + b.dhcp, a.other + b.other)
  }

  // ------------------------------------------------------------------------------------- what the counts mean

  /** `t` is the earliest stamp in `rs`, absent exactly when there is none. */
  ghost predicate Earliest(t: Option<int>, rs: seq<Record>) {
    && (t.None? <==> rs == [])
    && (t.Some? ==> (exists r :: r in rs && r.tsUs == t.value) && forall r :: r in rs ==> t.value <= r.tsUs)
  }

  ghost predicate Latest(t: Option<int>, rs: seq<Record>) {
    && (t.None? <==> rs == [])
    && (t.Some? ==> (exists r :: r in rs && r.tsUs == t.value) && forall r :: r in rs ==> r.tsUs <= t.value)
  }

  /** The records in the window that are this machine's and of one bucket. */
  ghost function Of(w: Window, b: Bucket, rs: seq<Record>): seq<Record> {
    Filter((r: Record) => w.Is(b, r), rs)
  }

  ghost function Inside(w: Window, rs: seq<Record>): seq<Record> {
    Filter((r: Record) => w.Holds(r), rs)
  }

  /** `c` counts the records `rs`, whatever it says of truncation. */
  ghost predicate Counts(c: OwnFrames, w: Window, rs: seq<Record>) {
    && c.records == |rs|
    && Earliest(c.earliestUs, rs) && Latest(c.latestUs, rs)
    && c.inWindow == |Inside(w, rs)|
    && c.icmpEcho == |Of(w, IcmpEcho, rs)|
    && Earliest(c.firstEchoUs, Of(w, IcmpEcho, rs)) && Latest(c.lastEchoUs, Of(w, IcmpEcho, rs))
    && c.arp == |Of(w, Arp, rs)| && c.dhcp == |Of(w, Dhcp, rs)| && c.other == |Of(w, Other, rs)|
  }

  lemma {:induction false} ExtremesConcat(a: Option<int>, b: Option<int>, xs: seq<Record>, ys: seq<Record>)
    ensures Earliest(a, xs) && Earliest(b, ys) ==> Earliest(MinOpt(a, b), xs + ys)
    ensures Latest(a, xs) && Latest(b, ys) ==> Latest(MaxOpt(a, b), xs + ys)
  {
    assert forall r :: r in xs + ys <==> r in xs || r in ys;
  }

  lemma {:induction false} OfConcat(w: Window, b: Bucket, xs: seq<Record>, ys: seq<Record>)
    ensures Of(w, b, xs + ys) == Of(w, b, xs) + Of(w, b, ys)
  {
    FilterConcat((r: Record) => w.Is(b, r), xs, ys);
  }

  /** Two slices counted apart and absorbed count as the two in one. */
  lemma {:induction false} AbsorbCounts(a: OwnFrames, b: OwnFrames, w: Window, xs: seq<Record>, ys: seq<Record>)
    requires Counts(a, w, xs) && Counts(b, w, ys)
    ensures Counts(Absorb(a, b), w, xs + ys)
  {
    FilterConcat((r: Record) => w.Holds(r), xs, ys);
    OfConcat(w, IcmpEcho, xs, ys);
    OfConcat(w, Arp, xs, ys);
    OfConcat(w, Dhcp, xs, ys);
    OfConcat(w, Other, xs, ys);
    ExtremesConcat(a.earliestUs, b.earliestUs, xs, ys);
    ExtremesConcat(a.latestUs, b.latestUs, xs, ys);
    ExtremesConcat(a.firstEchoUs, b.firstEchoUs, Of(w, IcmpEcho, xs), Of(w, IcmpEcho, ys));
    ExtremesConcat(a.lastEchoUs, b.lastEchoUs, Of(w, IcmpEcho, xs), Of(w, IcmpEcho, ys));
  }

  /** The counts of one record. */
  function One(w: Window, r: Record): OwnFrames {
    var c := if w.Holds(r) then w.classify(r.data) else None;
    var t := Some(r.tsUs);
    var echo := if c == Some(IcmpEcho) then t else None;
    OwnFrames(
      1, t, t, false, if w.Holds(r) then 1 else 0,
      if c == Some(IcmpEcho) then 1 else 0, echo, echo,
      if c == Some(Arp) then 1 else 0, if c == Some(Dhcp) then 1 else 0, if c == Some(Other) then 1 else 0)
  }

  lemma {:induction false} FilterOne(p: Record -> bool, r: Record)
    ensures Filter(p, [r]) == if p(r) then [r] else []
  {
    assert [r][1..] == [];
  }

  lemma {:induction false} OneCounts(w: Window, r: Record)
    ensures Counts(One(w, r), w, [r])
  {
    FilterOne((r: Record) => w.Holds(r), r);
    FilterOne((r: Record) => w.Is(IcmpEcho, r), r);
    FilterOne((r: Record) => w.Is(Arp, r), r);
    FilterOne((r: Record) => w.Is(Dhcp, r), r);
    FilterOne((r: Record) => w.Is(Other, r), r);
    assert r in [r];
  }

  // ------------------------------------------------------------------------------------- the walk

  /** One record tallied, in place. */
  method Tally(c: OwnFrames, w: Window, r: Record) returns (out: OwnFrames)
    ensures out == Absorb(c, One(w, r))
  {
    out := c;
    out := out.(records := out.records + 1);
    out := out.(earliestUs := Some(if out.earliestUs.Some? then Min(out.earliestUs.value, r.tsUs) else r.tsUs));
    out := out.(latestUs := Some(if out.latestUs.Some? then Max(out.latestUs.value, r.tsUs) else r.tsUs));
    if r.tsUs < w.startUs || r.tsUs > w.endUs {
      return;
    }
    out := out.(inWindow := out.inWindow + 1);
    match w.classify(r.data) {
      case Some(IcmpEcho) =>
        out := out.(icmpEcho := out.icmpEcho + 1);
        out := out.(firstEchoUs := Some(if out.firstEchoUs.Some? then Min(out.firstEchoUs.value, r.tsUs) else r.tsUs));
        out := out.(lastEchoUs := Some(if out.lastEchoUs.Some? then Max(out.lastEchoUs.value, r.tsUs) else r.tsUs));
      case Some(Arp) => out := out.(arp := out.arp + 1);
      case Some(Dhcp) => out := out.(dhcp := out.dhcp + 1);
      case Some(Other) => out := out.(other := out.other + 1);
      case None =>
    }
  }

  /** Draining `start` has handed out `seen` so far and stands at `c`. */
  ghost predicate Walked(start: Cursor, seen: seq<Record>, c: Cursor) {
    ReadAll(start) == (seen + ReadAll(c).0, ReadAll(c).1)
  }

  lemma {:induction false} WalkOn(start: Cursor, seen: seq<Record>, c: Cursor)
    requires Walked(start, seen, c)
    ensures match Next(c)
            case (Ok(Some(record)), c') => Walked(start, seen + [record], c') && |c'.rest| < |c.rest|
            case (Ok(None), _) => ReadAll(start) == (seen, CleanEnd)
            case (Err(e), _) => ReadAll(start) == (seen, Broken(e))
  {
    match Next(c)
    case (Ok(Some(record)), c') => assert seen + ([record] + ReadAll(c').0) == seen + [record] + ReadAll(c').0;
    case _ => assert seen + [] == seen;
  }

  lemma {:induction false} CountOn(c: OwnFrames, w: Window, seen: seq<Record>, r: Record)
    requires Counts(c, w, seen)
    ensures Counts(Absorb(c, One(w, r)), w, seen + [r])
  {
    OneCounts(w, r);
    AbsorbCounts(c, One(w, r), w, seen, [r]);
  }

  /**
   Walk one capture slice. A slice that ends inside a record is counted as far as it could be read and says
   so; anything else that breaks the stream is an error.
   */
  method CountOwnFrames(stream: PcapStream, w: Window) returns (r: Result<OwnFrames, IoError>)
    modifies stream, stream.reader
    ensures var (records, outcome) := ReadAll(old(stream.At()));
            if outcome == CleanEnd || outcome == Broken(UnexpectedEof)
            then r.Ok? && Counts(r.value, w, records) && (r.value.truncated <==> outcome != CleanEnd)
            else r == Err(outcome.error)
  {
    var out := NONE;
    ghost var start, seen := stream.At(), [];
    assert seen + ReadAll(start).0 == ReadAll(start).0;
    while true
      invariant Counts(out, w, seen) && !out.truncated
      invariant Walked(start, seen, stream.At())
      decreases |stream.reader.rest|
    {
      WalkOn(start, seen, stream.At());
      var next := stream.NextRecord();
      if next == Ok(None) {
        return Ok(out);
      }
      if next == Err(UnexpectedEof) {
        return Ok(out.(truncated := true));
      }
      if next.Err? {
        return Err(next.error);
      }
      var record := next.value.value;
      CountOn(out, w, seen, record);
      out := Tally(out, w, record);
      seen := seen + [record];
    }
  }

  // ------------------------------------------------------------------------------------- theorems

  lemma {:induction false} FilterPermutes(p: Record -> bool, rs: seq<Record>, r: Record)
    ensures multiset(Filter(p, rs))[r] == if p(r) then multiset(rs)[r] else 0
  {
    if rs != [] {
      assert rs == [rs[0]] + rs[1..];
      FilterPermutes(p, rs[1..], r);
    }
  }

  lemma {:induction false} SameFilter(p: Record -> bool, xs: seq<Record>, ys: seq<Record>)
    requires multiset(xs) == multiset(ys)
    ensures multiset(Filter(p, xs)) == multiset(Filter(p, ys)) && |Filter(p, xs)| == |Filter(p, ys)|
  {
    forall r ensures multiset(Filter(p, xs))[r] == multiset(Filter(p, ys))[r] {
      FilterPermutes(p, xs, r);
      FilterPermutes(p, ys, r);
    }
    assert multiset(Filter(p, xs)) == multiset(Filter(p, ys));
    assert |multiset(Filter(p, xs))| == |Filter(p, xs)| && |multiset(Filter(p, ys))| == |Filter(p, ys)|;
  }

  lemma {:induction false} SameExtremes(t: Option<int>, xs: seq<Record>, ys: seq<Record>)
    requires multiset(xs) == multiset(ys)
    ensures Earliest(t, xs) ==> Earliest(t, ys)
    ensures Latest(t, xs) ==> Latest(t, ys)
  {
    assert |multiset(xs)| == |multiset(ys)|;
    forall r ensures r in xs <==> r in ys {
      assert r in multiset(xs) <==> r in multiset(ys);
    }
  }

  /** The order the records were captured in is irrelevant. */
  lemma {:induction false} OrderIrrelevant(c: OwnFrames, w: Window, xs: seq<Record>, ys: seq<Record>)
    requires multiset(xs) == multiset(ys) && Counts(c, w, xs)
    ensures Counts(c, w, ys)
  {
    assert |multiset(xs)| == |multiset(ys)|;
    SameFilter((r: Record) => w.Holds(r), xs, ys);
    SameFilter((r: Record) => w.Is(IcmpEcho, r), xs, ys);
    SameFilter((r: Record) => w.Is(Arp, r), xs, ys);
    SameFilter((r: Record) => w.Is(Dhcp, r), xs, ys);
    SameFilter((r: Record) => w.Is(Other, r), xs, ys);
    SameExtremes(c.earliestUs, xs, ys);
    SameExtremes(c.latestUs, xs, ys);
    SameExtremes(c.firstEchoUs, Of(w, IcmpEcho, xs), Of(w, IcmpEcho, ys));
    SameExtremes(c.lastEchoUs, Of(w, IcmpEcho, xs), Of(w, IcmpEcho, ys));
  }

  /** The counts of given records are determined, so a count is what its records say and nothing else. */
  lemma {:induction false} CountsDetermined(a: OwnFrames, b: OwnFrames, w: Window, rs: seq<Record>)
    requires Counts(a, w, rs) && Counts(b, w, rs)
    ensures a.(truncated := b.truncated) == b
  {
    ExtremeDetermined(a.earliestUs, b.earliestUs, rs);
    ExtremeDetermined(a.latestUs, b.latestUs, rs);
    ExtremeDetermined(a.firstEchoUs, b.firstEchoUs, Of(w, IcmpEcho, rs));
    ExtremeDetermined(a.lastEchoUs, b.lastEchoUs, Of(w, IcmpEcho, rs));
  }

  lemma {:induction false} ExtremeDetermined(a: Option<int>, b: Option<int>, rs: seq<Record>)
    ensures Earliest(a, rs) && Earliest(b, rs) ==> a == b
    ensures Latest(a, rs) && Latest(b, rs) ==> a == b
  {
  }

  lemma {:induction false} BucketsDisjoint(w: Window, rs: seq<Record>)
    ensures |Of(w, IcmpEcho, rs)| + |Of(w, Arp, rs)| + |Of(w, Dhcp, rs)| + |Of(w, Other, rs)| <= |Inside(w, rs)| <= |rs|
  {
    if rs != [] {
      BucketsDisjoint(w, rs[1..]);
    }
  }

  /** Our own frames are among those in the window, and the echo stamps are there exactly when echoes are. */
  lemma {:induction false} CountsAreConsistent(c: OwnFrames, w: Window, rs: seq<Record>)
    requires Counts(c, w, rs)
    ensures c.icmpEcho + c.arp + c.dhcp + c.other <= c.inWindow <= c.records
    ensures (c.firstEchoUs.Some? <==> c.icmpEcho > 0) && (c.lastEchoUs.Some? <==> c.icmpEcho > 0)
    ensures c.icmpEcho > 0 ==> w.startUs <= c.firstEchoUs.value <= c.lastEchoUs.value <= w.endUs
    ensures c.records > 0 ==> c.earliestUs.value <= c.latestUs.value
    ensures c.icmpEcho > 0 ==> c.earliestUs.value <= c.firstEchoUs.value && c.lastEchoUs.value <= c.latestUs.value
  {
    BucketsDisjoint(w, rs);
    forall r ensures r in Of(w, IcmpEcho, rs) ==> r in rs && w.Holds(r) {
      FilterMember((r: Record) => w.Is(IcmpEcho, r), rs, r);
    }
  }

  lemma {:induction false} BucketSplit(left: Window, right: Window, b: Bucket, rs: seq<Record>)
    requires left.classify == right.classify && left.startUs <= left.endUs + 1 == right.startUs <= right.endUs + 1
    ensures var whole := left.(endUs := right.endUs);
            && |Of(whole, b, rs)| == |Of(left, b, rs)| + |Of(right, b, rs)|
            && forall r :: r in Of(whole, b, rs) <==> r in Of(left, b, rs) || r in Of(right, b, rs)
  {
    var whole := left.(endUs := right.endUs);
    CountSplit((r: Record) => left.Is(b, r), (r: Record) => right.Is(b, r), (r: Record) => whole.Is(b, r), rs);
  }

  /** A window cut in two: its counts are the sum of its parts', over the same records. */
  lemma {:induction false} AdjacentWindowsAdd(a: OwnFrames, b: OwnFrames, left: Window, right: Window, rs: seq<Record>)
    requires left.classify == right.classify && left.startUs <= left.endUs + 1 == right.startUs <= right.endUs + 1
    requires Counts(a, left, rs) && Counts(b, right, rs)
    ensures Counts(Absorb(a, b).(records := a.records), left.(endUs := right.endUs), rs)
  {
    var whole := left.(endUs := right.endUs);
    CountSplit((r: Record) => left.Holds(r), (r: Record) => right.Holds(r), (r: Record) => whole.Holds(r), rs);
    BucketSplit(left, right, Arp, rs);
    BucketSplit(left, right, Dhcp, rs);
    BucketSplit(left, right, Other, rs);
    BucketSplit(left, right, IcmpEcho, rs);
    ExtremeDetermined(a.earliestUs, b.earliestUs, rs);
    ExtremeDetermined(a.latestUs, b.latestUs, rs);
    EchoesSplit(a, b, Of(left, IcmpEcho, rs), Of(right, IcmpEcho, rs), Of(whole, IcmpEcho, rs));
  }

  lemma {:induction false} EchoesSplit(a: OwnFrames, b: OwnFrames, xs: seq<Record>, ys: seq<Record>, all: seq<Record>)
    requires forall r :: r in all <==> r in xs || r in ys
    requires |all| == |xs| + |ys|
    requires Earliest(a.firstEchoUs, xs) && Earliest(b.firstEchoUs, ys) && Latest(a.lastEchoUs, xs) && Latest(b.lastEchoUs, ys)
    ensures Earliest(MinOpt(a.firstEchoUs, b.firstEchoUs), all) && Latest(MaxOpt(a.lastEchoUs, b.lastEchoUs), all)
  {
    ExtremesConcat(a.firstEchoUs, b.firstEchoUs, xs, ys);
    ExtremesConcat(a.lastEchoUs, b.lastEchoUs, xs, ys);
    assert forall r :: r in all <==> r in xs + ys;
  }

  lemma {:induction false} FewerRecordsCountLess(a: OwnFrames, b: OwnFrames, w: Window, xs: seq<Record>, ys: seq<Record>)
    requires xs <= ys && Counts(a, w, xs) && Counts(b, w, ys)
    ensures a.records <= b.records && a.inWindow <= b.inWindow && a.icmpEcho <= b.icmpEcho
    ensures a.arp <= b.arp && a.dhcp <= b.dhcp && a.other <= b.other
  {
    var rest := ys[|xs|..];
    assert ys == xs + rest;
    FilterConcat((r: Record) => w.Holds(r), xs, rest);
    OfConcat(w, IcmpEcho, xs, rest);
    OfConcat(w, Arp, xs, rest);
    OfConcat(w, Dhcp, xs, rest);
    OfConcat(w, Other, xs, rest);
  }

  /** A slice copied short never counts more than the whole file does, whatever bytes the file holds. */
  lemma {:induction false} ShortCopyNeverCountsMore(a: OwnFrames, b: OwnFrames, w: Window, bytes: seq<Byte>, cut: nat)
    requires cut <= |bytes|
    requires Counts(a, w, ReadStream(bytes[..cut], UnexpectedEof).0) && Counts(b, w, ReadStream(bytes, UnexpectedEof).0)
    ensures a.records <= b.records && a.inWindow <= b.inWindow && a.icmpEcho <= b.icmpEcho
    ensures a.arp <= b.arp && a.dhcp <= b.dhcp && a.other <= b.other
  {
    PrefixReadsPrefix(Cursor(None, bytes, UnexpectedEof), cut, UnexpectedEof);
    FewerRecordsCountLess(a, b, w, ReadStream(bytes[..cut], UnexpectedEof).0, ReadStream(bytes, UnexpectedEof).0);
  }

  /**
   Which copies are marked as truncated: of a capture file cut anywhere, those that end in the global header or in a
   record's body. One that ends in a record's header is counted as if it were whole.
   */
  lemma {:induction false} TruncatedExactly(l: Layout, packets: seq<Packet>, k: nat, cut: nat)
    requires AllFit(packets) && cut <= |Savefile(l, packets)|
    requires cut >= GLOBAL_HEADER ==> FallsAfter(l, packets, k, cut - GLOBAL_HEADER)
    ensures var outcome := ReadStream(Savefile(l, packets)[..cut], UnexpectedEof).1;
            && (outcome == CleanEnd || outcome == Broken(UnexpectedEof))
            && (outcome != CleanEnd <==> cut < GLOBAL_HEADER || InBody(l, packets, k, cut - GLOBAL_HEADER))
  {
    if cut < GLOBAL_HEADER {
      HeaderCut(l, packets, cut, UnexpectedEof);
    } else {
      BehindTheHeader(l, packets, k, cut - GLOBAL_HEADER, cut);
    }
  }

  lemma {:induction false} BehindTheHeader(l: Layout, packets: seq<Packet>, k: nat, behind: nat, cut: nat)
    requires AllFit(packets) && cut == GLOBAL_HEADER + behind <= |Savefile(l, packets)| && FallsAfter(l, packets, k, behind)
    ensures ReadStream(Savefile(l, packets)[..cut], UnexpectedEof).1
         == if InBody(l, packets, k, behind) then Broken(UnexpectedEof) else CleanEnd
  {
    assert |Savefile(l, packets)| == GLOBAL_HEADER + |WriteRecords(l, packets)|;
    SavefileCut(l, packets, k, behind, UnexpectedEof);
  }

  /** A cut behind the `k`-th packet is behind the header of the next, too. */
  ghost predicate InBody(l: Layout, packets: seq<Packet>, k: nat, cut: nat) {
    k <= |packets| && cut >= |WriteRecords(l, packets[..k])| + RECORD_HEADER
  }
}
