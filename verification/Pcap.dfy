/**
 The streaming reader of classic pcap savefiles (`pcap.rs`): sections 4 and 5 of
 draft-ietf-opsawg-pcap.

 `PcapStream` is the reader as the source writes it. `Next` says what one call does to a cursor over
 the bytes not yet read, `ReadAll` what a caller that drains the stream sees, and `Savefile` writes
 the format; the theorems relate reading to writing, and the reading of a stream to that of its
 prefixes.
 */
module Pcap {
  import opened Prelude

  type Word32 = w: int | 0 <= w < 0x1_0000_0000

  datatype IoError = UnexpectedEof | InvalidData | OtherError(code: int)

  datatype Record = Record(tsUs: int, data: seq<Byte>)

  datatype Layout = Layout(littleEndian: bool, nanos: bool) {
    /** The 4 bytes `b` as an unsigned integer in this byte order. */
    function U32(b: seq<Byte>): Word32
      requires |b| == 4
    {
      var b0: int, b1: int, b2: int, b3: int := b[0], b[1], b[2], b[3];
      if littleEndian then b0 + 0x100 * b1 + 0x1_0000 * b2 + 0x100_0000 * b3
      else b3 + 0x100 * b2 + 0x1_0000 * b1 + 0x100_0000 * b0
    }

    /** `ts_sec` and `ts_frac` as epoch microseconds. */
    function Micros(sec: Word32, frac: Word32): int {
      sec * 1_000_000 + if nanos then frac / 1000 else frac
    }
  }

  datatype GlobalHeader = GlobalHeader(layout: Layout, linkType: Word32)

  const GLOBAL_HEADER: nat := 24
  const RECORD_HEADER: nat := 16
  const MAX_INCL_LEN: nat := 0x10_0000
  const LINKTYPE_ETHERNET: Word32 := 1

  const MAGIC_BE_US: seq<Byte> := [0xa1, 0xb2, 0xc3, 0xd4]
  const MAGIC_LE_US: seq<Byte> := [0xd4, 0xc3, 0xb2, 0xa1]
  const MAGIC_BE_NS: seq<Byte> := [0xa1, 0xb2, 0x3c, 0x4d]
  const MAGIC_LE_NS: seq<Byte> := [0x4d, 0x3c, 0xb2, 0xa1]

  function ParseGlobalHeader(header: seq<Byte>): Result<GlobalHeader, IoError>
    requires |header| == GLOBAL_HEADER
  {
    var magic := header[..4];
    if magic != MAGIC_BE_US && magic != MAGIC_LE_US && magic != MAGIC_BE_NS && magic != MAGIC_LE_NS then
      Err(InvalidData)
    else
      var layout := Layout(magic == MAGIC_LE_US || magic == MAGIC_LE_NS, magic == MAGIC_BE_NS || magic == MAGIC_LE_NS);
      Ok(GlobalHeader(layout, layout.U32(header[20..24])))
  }

  /**
   A blocking reader over a pipe: the bytes it will still deliver, and the error it reports once they
   are spent (`UnexpectedEof` when the writer simply closed).
   */
  class ByteReader {
    var rest: seq<Byte>
    const end: IoError

    constructor (bytes: seq<Byte>, end: IoError)
      ensures rest == bytes && this.end == end
    {
      rest, this.end := bytes, end;
    }

    /** Exactly `n` bytes, or the error that cut the read short. */
    method ReadExact(n: nat) returns (r: Result<seq<Byte>, IoError>)
      modifies this
      ensures n <= |old(rest)| ==> r == Ok(old(rest)[..n]) && rest == old(rest)[n..]
      ensures n > |old(rest)| ==> r == Err(end) && rest == []
    {
      if n <= |rest| {
        r, rest := Ok(rest[..n]), rest[n..];
      } else {
        r, rest := Err(end), [];
      }
    }
  }

  /** What is left to read: the layout once the global header has been read, and the bytes. */
  datatype Cursor = Cursor(layout: Option<Layout>, rest: seq<Byte>, end: IoError)

  /** A stream of records over a blocking reader. */
  class PcapStream {
    const reader: ByteReader
    var layout: Option<Layout>

    constructor (reader: ByteReader)
      ensures this.reader == reader && layout == None
    {
      this.reader, layout := reader, None;
    }

    ghost function At(): Cursor
      reads this, reader
    {
      Cursor(layout, reader.rest, reader.end)
    }

    method ReadGlobalHeader() returns (r: Result<Layout, IoError>)
      modifies reader
      ensures (r, reader.rest) == HeaderOf(old(reader.rest), reader.end)
    {
      var header := reader.ReadExact(GLOBAL_HEADER);
      if header.Err? {
        return Err(header.error);
      }
      var parsed := ParseGlobalHeader(header.value);
      if parsed.Err? {
        return Err(parsed.error);
      }
      return Ok(parsed.value.layout);
    }

    /** The part of `NextRecord` behind the global header. */
    method ReadRecord(l: Layout) returns (r: Result<Option<Record>, IoError>)
      modifies reader
      ensures (r, reader.rest) == RecordOf(l, old(reader.rest), reader.end)
    {
      var header := reader.ReadExact(RECORD_HEADER);
      if header == Err(UnexpectedEof) {
        return Ok(None);
      }
      if header.Err? {
        return Err(header.error);
      }
      var h := header.value;
      var inclLen := l.U32(h[8..12]);
      if inclLen > MAX_INCL_LEN {
        return Err(InvalidData);
      }
      var data := reader.ReadExact(inclLen);
      if data.Err? {
        return Err(data.error);
      }
      return Ok(Some(Record(l.Micros(l.U32(h[0..4]), l.U32(h[4..8])), data.value)));
    }

    /** The next captured frame, `Ok(None)` at a clean end of stream. */
    method NextRecord() returns (r: Result<Option<Record>, IoError>)
      modifies this, reader
      ensures (r, At()) == Next(old(At()))
    {
      if layout.None? {
        var read := ReadGlobalHeader();
        if read.Err? {
          return Err(read.error);
        }
        layout := Some(read.value);
      }
      r := ReadRecord(layout.value);
    }
  }

  ghost function HeaderOf(rest: seq<Byte>, end: IoError): (Result<Layout, IoError>, seq<Byte>) {
    if |rest| < GLOBAL_HEADER then (Err(end), [])
    else
      match ParseGlobalHeader(rest[..GLOBAL_HEADER])
      case Err(e) => (Err(e), rest[GLOBAL_HEADER..])
      case Ok(header) => (Ok(header.layout), rest[GLOBAL_HEADER..])
  }

  ghost function RecordOf(l: Layout, rest: seq<Byte>, end: IoError): (Result<Option<Record>, IoError>, seq<Byte>) {
    if |rest| < RECORD_HEADER then ((if end == UnexpectedEof then Ok(None) else Err(end)), [])
    else
      var h := rest[..RECORD_HEADER];
      var inclLen := l.U32(h[8..12]);
      var body := rest[RECORD_HEADER..];
      if inclLen > MAX_INCL_LEN then (Err(InvalidData), body)
      else if |body| < inclLen then (Err(end), [])
      else (Ok(Some(Record(l.Micros(l.U32(h[0..4]), l.U32(h[4..8])), body[..inclLen]))), body[inclLen..])
  }

  /** What one call of `NextRecord` returns, and where it leaves the stream. */
  ghost function Next(c: Cursor): (Result<Option<Record>, IoError>, Cursor) {
    match c.layout
    case None =>
      (match HeaderOf(c.rest, c.end)
       case (Err(e), rest) => (Err(e), c.(rest := rest))
       case (Ok(l), rest) =>
         var (r, rest') := RecordOf(l, rest, c.end);
         (r, Cursor(Some(l), rest', c.end)))
    case Some(l) =>
      var (r, rest) := RecordOf(l, c.rest, c.end);
      (r, c.(rest := rest))
  }

  datatype Outcome = CleanEnd | Broken(error: IoError)

  /** Every record a caller draining the stream is handed, and how the stream ended. */
  ghost function ReadAll(c: Cursor): (seq<Record>, Outcome)
    decreases |c.rest|
  {
    match Next(c)
    case (Err(e), _) => ([], Broken(e))
    case (Ok(None), _) => ([], CleanEnd)
    case (Ok(Some(record)), c') =>
      var (records, outcome) := ReadAll(c');
      ([record] + records, outcome)
  }

  /** Draining a stream of `bytes` from its start. */
  ghost function ReadStream(bytes: seq<Byte>, end: IoError): (seq<Record>, Outcome) {
    ReadAll(Cursor(None, bytes, end))
  }

  // ---------------------------------------------------------------------------------- the printer

  /** One packet to be written: the stamp as the file holds it, and the captured bytes. */
  datatype Packet = Packet(sec: Word32, frac: Word32, data: seq<Byte>)

  /** `v` in four bytes. */
  function Put(littleEndian: bool, v: Word32): (b: seq<Byte>)
    ensures |b| == 4
  {
    var v1 := v / 0x100;
    var v2 := v1 / 0x100;
    var v3 := v2 / 0x100;
    if littleEndian then [v % 0x100, v1 % 0x100, v2 % 0x100, v3 % 0x100]
    else [v3 % 0x100, v2 % 0x100, v1 % 0x100, v % 0x100]
  }

  function MagicOf(l: Layout): seq<Byte> {
    match l
    case Layout(false, false) => MAGIC_BE_US
    case Layout(true, false) => MAGIC_LE_US
    case Layout(false, true) => MAGIC_BE_NS
    case Layout(true, true) => MAGIC_LE_NS
  }

  /** Version 2.4, zone, significant figures, snap length and link type after the magic. */
  function WriteHeader(l: Layout): (bytes: seq<Byte>)
    ensures |bytes| == GLOBAL_HEADER
  {
    var le := l.littleEndian;
    MagicOf(l) + Put(le, 0x2_0000) + Put(le, 0) + Put(le, 0) + Put(le, 262_144) + Put(le, LINKTYPE_ETHERNET)
  }

  /** The lengths are written truncated to 32 bits, as the cast in the source does. */
  function WriteRecord(l: Layout, p: Packet): (bytes: seq<Byte>)
    ensures |bytes| == RECORD_HEADER + |p.data|
  {
    var le := l.littleEndian;
    var len := |p.data| % 0x1_0000_0000;
    Put(le, p.sec) + Put(le, p.frac) + Put(le, len) + Put(le, len) + p.data
  }

  function WriteRecords(l: Layout, packets: seq<Packet>): seq<Byte> {
    if packets == [] then [] else WriteRecord(l, packets[0]) + WriteRecords(l, packets[1..])
  }

  function Savefile(l: Layout, packets: seq<Packet>): seq<Byte> {
    WriteHeader(l) + WriteRecords(l, packets)
  }

  /** The record a reader should return for a packet. */
  function RecordFor(l: Layout, p: Packet): Record {
    Record(l.Micros(p.sec, p.frac), p.data)
  }

  function RecordsFor(l: Layout, packets: seq<Packet>): (r: seq<Record>)
    ensures |r| == |packets|
  {
    if packets == [] then [] else [RecordFor(l, packets[0])] + RecordsFor(l, packets[1..])
  }

  // ---------------------------------------------------------------------------------- theorems

  lemma {:induction false} WordRoundTrip(l: Layout, v: Word32)
    ensures l.U32(Put(l.littleEndian, v)) == v
  {
  }

  /** The number big-endian bytes spell. */
  ghost function BigEndian(b: seq<Byte>): nat {
    if b == [] then 0 else 0x100 * BigEndian(b[..|b| - 1]) + b[|b| - 1]
  }

  /** A word is the number its bytes spell, read backwards when the file is little-endian. */
  lemma {:induction false} WordSpells(l: Layout, b: seq<Byte>)
    requires |b| == 4
    ensures l.U32(b) == BigEndian(if l.littleEndian then [b[3], b[2], b[1], b[0]] else b)
  {
    var big := if l.littleEndian then [b[3], b[2], b[1], b[0]] else b;
    var b0: int, b1: int, b2: int := big[0], big[1], big[2];
    assert big[..3][..2] == big[..2] && big[..2][..1] == big[..1] && big[..1][..0] == [];
    assert BigEndian(big[..1]) == b0 && BigEndian(big[..2]) == 0x100 * b0 + b1;
    assert BigEndian(big[..3]) == 0x1_0000 * b0 + 0x100 * b1 + b2;
  }

  /** A header is accepted in exactly the layout in which its first word is a magic number, which tells the resolution. */
  lemma {:induction false} MagicTellsLayout(header: seq<Byte>, l: Layout)
    requires |header| == GLOBAL_HEADER
    ensures ParseGlobalHeader(header).Ok? && ParseGlobalHeader(header).value.layout == l <==>
              l.U32(header[..4]) == if l.nanos then 0xa1b2_3c4d else 0xa1b2_c3d4
    ensures ParseGlobalHeader(header).Ok? && ParseGlobalHeader(header).value.layout == l ==>
              ParseGlobalHeader(header).value.linkType == l.U32(header[20..24])
  {
    var magic := header[..4];
    assert magic == [magic[0], magic[1], magic[2], magic[3]];
  }

  /** The true time of a stamp in nanoseconds: seconds, and a fraction in the resolution of the file. */
  ghost function Nanos(l: Layout, sec: Word32, frac: Word32): int {
    sec * 1_000_000_000 + frac * if l.nanos then 1 else 1000
  }

  /** A record is stamped with the microsecond its time falls in. */
  ghost predicate StampedAt(r: Record, nanos: int) {
    1000 * r.tsUs <= nanos < 1000 * (r.tsUs + 1)
  }

  /** A record that is read, whatever the bytes: its claimed length of data behind its header, stamped at its time. */
  lemma {:induction false} RecordMeans(l: Layout, rest: seq<Byte>, end: IoError)
    requires RecordOf(l, rest, end).0.Ok? && RecordOf(l, rest, end).0.value.Some?
    ensures |rest| >= RECORD_HEADER
    ensures var (r, after) := (RecordOf(l, rest, end).0.value.value, RecordOf(l, rest, end).1);
            var word := (at: nat) requires at + 4 <= |rest| => l.U32(rest[at..at + 4]);
            && StampedAt(r, Nanos(l, word(0), word(4)))
            && |r.data| == word(8) <= MAX_INCL_LEN
            && rest == rest[..RECORD_HEADER] + r.data + after
  {
    var h := rest[..RECORD_HEADER];
    assert h[0..4] == rest[0..4] && h[4..8] == rest[4..8] && h[8..12] == rest[8..12];
  }

  lemma {:induction false} HeaderRoundTrip(l: Layout, tail: seq<Byte>, end: IoError)
    ensures ParseGlobalHeader(WriteHeader(l)) == Ok(GlobalHeader(l, LINKTYPE_ETHERNET))
    ensures HeaderOf(WriteHeader(l) + tail, end) == (Ok(l), tail)
  {
    var h := WriteHeader(l);
    assert h[..4] == MagicOf(l);
    assert h[20..24] == Put(l.littleEndian, LINKTYPE_ETHERNET);
    WordRoundTrip(l, LINKTYPE_ETHERNET);
    assert (h + tail)[..GLOBAL_HEADER] == h && (h + tail)[GLOBAL_HEADER..] == tail;
  }

  lemma {:induction false} RecordFields(l: Layout, p: Packet)
    ensures var h := WriteRecord(l, p)[..RECORD_HEADER];
            l.U32(h[0..4]) == p.sec && l.U32(h[4..8]) == p.frac && l.U32(h[8..12]) == |p.data| % 0x1_0000_0000
  {
    var le := l.littleEndian;
    var len := |p.data| % 0x1_0000_0000;
    var h := WriteRecord(l, p)[..RECORD_HEADER];
    assert h[0..4] == Put(le, p.sec);
    assert h[4..8] == Put(le, p.frac);
    assert h[8..12] == Put(le, len);
    WordRoundTrip(l, p.sec);
    WordRoundTrip(l, p.frac);
    WordRoundTrip(l, len);
  }

  /** A record whose header claims `n` bytes that are there. */
  lemma {:induction false} RecordFrom(l: Layout, h: seq<Byte>, data: seq<Byte>, tail: seq<Byte>, end: IoError)
    requires |h| == RECORD_HEADER && l.U32(h[8..12]) == |data| <= MAX_INCL_LEN
    ensures RecordOf(l, h + data + tail, end) == (Ok(Some(Record(l.Micros(l.U32(h[0..4]), l.U32(h[4..8])), data))), tail)
  {
    var bytes := h + data + tail;
    assert bytes[..RECORD_HEADER] == h;
    var body := bytes[RECORD_HEADER..];
    assert body == data + tail;
    assert body[..|data|] == data && body[|data|..] == tail;
  }

  /** A written record is read back whole and leaves exactly what follows it. */
  lemma {:induction false} RecordRoundTrip(l: Layout, p: Packet, tail: seq<Byte>, end: IoError)
    requires |p.data| <= MAX_INCL_LEN
    ensures RecordOf(l, WriteRecord(l, p) + tail, end) == (Ok(Some(RecordFor(l, p))), tail)
    ensures StampedAt(RecordFor(l, p), Nanos(l, p.sec, p.frac)) && RecordFor(l, p).data == p.data
  {
    var h := WriteRecord(l, p)[..RECORD_HEADER];
    assert WriteRecord(l, p) == h + p.data;
    RecordFields(l, p);
    assert |p.data| % 0x1_0000_0000 == |p.data|;
    RecordFrom(l, h, p.data, tail, end);
  }

  ghost predicate AllFit(packets: seq<Packet>) {
    forall i :: 0 <= i < |packets| ==> |packets[i].data| <= MAX_INCL_LEN
  }

  /** How a stream ends when `left` bytes of an unfinished record are all that follows. */
  ghost function Cut(left: nat, end: IoError): Outcome {
    if left < RECORD_HEADER && end == UnexpectedEof then CleanEnd else Broken(end)
  }

  /** Whether a cut at `cut` falls behind the `k`-th packet and before the end of the next. */
  ghost predicate FallsAfter(l: Layout, packets: seq<Packet>, k: nat, cut: nat) {
    && k <= |packets|
    && |WriteRecords(l, packets[..k])| <= cut
    && if k == |packets| then cut == |WriteRecords(l, packets)| else cut < |WriteRecords(l, packets[..k + 1])|
  }

  lemma {:induction false} PartialIsNone(l: Layout, p: Packet, cut: nat, end: IoError)
    requires |p.data| <= MAX_INCL_LEN && cut < |WriteRecord(l, p)|
    ensures RecordOf(l, WriteRecord(l, p)[..cut], end).0
         == if cut < RECORD_HEADER && end == UnexpectedEof then Ok(None) else Err(end)
  {
    var whole := WriteRecord(l, p);
    var bytes := whole[..cut];
    if cut >= RECORD_HEADER {
      RecordFields(l, p);
      assert bytes[..RECORD_HEADER] == whole[..RECORD_HEADER];
    }
  }

  /** A record cut short anywhere is never returned. */
  lemma {:induction false} PartialRecord(l: Layout, p: Packet, cut: nat, end: IoError)
    requires |p.data| <= MAX_INCL_LEN && cut < |WriteRecord(l, p)|
    ensures ReadAll(Cursor(Some(l), WriteRecord(l, p)[..cut], end)) == ([], Cut(cut, end))
  {
    var bytes := WriteRecord(l, p)[..cut];
    PartialIsNone(l, p, cut, end);
    assert Next(Cursor(Some(l), bytes, end)).0 == RecordOf(l, bytes, end).0;
  }

  /** Draining a stream that starts with a written record. */
  lemma {:induction false} ReadCons(l: Layout, p: Packet, tail: seq<Byte>, end: IoError)
    requires |p.data| <= MAX_INCL_LEN
    ensures var (records, outcome) := ReadAll(Cursor(Some(l), tail, end));
            ReadAll(Cursor(Some(l), WriteRecord(l, p) + tail, end)) == ([RecordFor(l, p)] + records, outcome)
  {
    RecordRoundTrip(l, p, tail, end);
  }

  /** Records cut at `cut`, behind the `k`-th packet, are read as those packets and end as the cut says. */
  ghost predicate CutReads(l: Layout, packets: seq<Packet>, k: nat, cut: nat, end: IoError) {
    && k <= |packets| && |WriteRecords(l, packets[..k])| <= cut <= |WriteRecords(l, packets)|
    && ReadAll(Cursor(Some(l), WriteRecords(l, packets)[..cut], end))
    == (RecordsFor(l, packets[..k]), Cut(cut - |WriteRecords(l, packets[..k])|, end))
  }

  lemma {:induction false} RecordsCut(l: Layout, packets: seq<Packet>, k: nat, cut: nat, end: IoError)
    requires AllFit(packets) && FallsAfter(l, packets, k, cut) && cut <= |WriteRecords(l, packets)|
    ensures CutReads(l, packets, k, cut, end)
  {
    if k == 0 {
      CutInFirst(l, packets, cut, end);
    } else {
      RecordsCutStep(l, packets, k, cut);
      var cut' := cut - |WriteRecord(l, packets[0])|;
      RecordsCut(l, packets[1..], k - 1, cut', end);
      CutBehindFirst(l, packets, k, cut, cut', end);
    }
  }

  lemma {:induction false} CutBehindFirst(l: Layout, packets: seq<Packet>, k: nat, cut: nat, cut': nat, end: IoError)
    requires 0 < k && FallsAfter(l, packets, k, cut) && cut <= |WriteRecords(l, packets)|
    requires |packets[0].data| <= MAX_INCL_LEN && cut == |WriteRecord(l, packets[0])| + cut'
    requires CutReads(l, packets[1..], k - 1, cut', end)
    ensures CutReads(l, packets, k, cut, end)
  {
    var rest := packets[1..];
    var tail := WriteRecords(l, rest)[..cut'];
    RecordsCutStep(l, packets, k, cut);
    ReadCons(l, packets[0], tail, end);
  }

  lemma {:induction false} CutInFirst(l: Layout, packets: seq<Packet>, cut: nat, end: IoError)
    requires AllFit(packets) && FallsAfter(l, packets, 0, cut) && cut <= |WriteRecords(l, packets)|
    ensures CutReads(l, packets, 0, cut, end)
  {
    var bytes := WriteRecords(l, packets)[..cut];
    assert packets[..0] == [];
    if packets == [] {
      assert bytes == [];
    } else {
      assert packets[..1] == [packets[0]];
      assert WriteRecords(l, packets[..1]) == WriteRecord(l, packets[0]) + WriteRecords(l, []);
      assert bytes == WriteRecord(l, packets[0])[..cut];
      PartialRecord(l, packets[0], cut, end);
    }
  }

  /** A cut behind the first packet is a cut of the rest of the file. */
  lemma {:induction false} RecordsCutStep(l: Layout, packets: seq<Packet>, k: nat, cut: nat)
    requires 0 < k && FallsAfter(l, packets, k, cut) && cut <= |WriteRecords(l, packets)|
    ensures var first, rest := WriteRecord(l, packets[0]), WriteRecords(l, packets[1..]);
            var cut' := cut - |first|;
            && 0 <= cut' <= |rest| && FallsAfter(l, packets[1..], k - 1, cut')
            && WriteRecords(l, packets)[..cut] == first + rest[..cut']
            && RecordsFor(l, packets[..k]) == [RecordFor(l, packets[0])] + RecordsFor(l, packets[1..][..k - 1])
            && |WriteRecords(l, packets[..k])| == |first| + |WriteRecords(l, packets[1..][..k - 1])|
  {
    assert packets[..k][1..] == packets[1..][..k - 1];
    WriteTake(l, packets, k);
    if k < |packets| {
      WriteTake(l, packets, k + 1);
    }
  }

  /**
   Reading a savefile cut anywhere behind its global header hands out exactly the records wholly inside
   the cut. What follows them decides how the stream ends: nothing, or part of a record header, is a
   clean end when the pipe simply closed; part of a body is not.
   */
  lemma {:induction false} SavefileCut(l: Layout, packets: seq<Packet>, k: nat, cut: nat, end: IoError)
    requires AllFit(packets) && FallsAfter(l, packets, k, cut) && cut <= |WriteRecords(l, packets)|
    ensures ReadStream(Savefile(l, packets)[..GLOBAL_HEADER + cut], end)
         == (RecordsFor(l, packets[..k]), Cut(cut - |WriteRecords(l, packets[..k])|, end))
  {
    var bytes := WriteRecords(l, packets)[..cut];
    assert Savefile(l, packets)[..GLOBAL_HEADER + cut] == WriteHeader(l) + bytes;
    HeaderRoundTrip(l, bytes, end);
    RecordsCut(l, packets, k, cut, end);
    SameRest(l, bytes, end, WriteHeader(l) + bytes);
  }

  /** Behind its header a stream reads as a stream whose header has already been read. */
  lemma {:induction false} SameRest(l: Layout, rest: seq<Byte>, end: IoError, bytes: seq<Byte>)
    requires HeaderOf(bytes, end) == (Ok(l), rest)
    ensures ReadStream(bytes, end) == ReadAll(Cursor(Some(l), rest, end))
  {
    assert Next(Cursor(None, bytes, end)) == Next(Cursor(Some(l), rest, end));
  }

  /** A stream that ends before its global header is no capture at all. */
  lemma {:induction false} HeaderCut(l: Layout, packets: seq<Packet>, cut: nat, end: IoError)
    requires cut < GLOBAL_HEADER
    ensures ReadStream(Savefile(l, packets)[..cut], end) == ([], Broken(end))
  {
    assert HeaderOf(Savefile(l, packets)[..cut], end) == (Err(end), []);
  }

  lemma {:induction false} WriteTake(l: Layout, packets: seq<Packet>, k: nat)
    requires 0 < k <= |packets|
    ensures |WriteRecords(l, packets[..k])| == |WriteRecord(l, packets[0])| + |WriteRecords(l, packets[1..][..k - 1])|
  {
    assert packets[..k][1..] == packets[1..][..k - 1];
  }

  lemma {:induction false} WriteGrows(l: Layout, packets: seq<Packet>, j: nat, k: nat)
    requires j <= k <= |packets|
    ensures |WriteRecords(l, packets[..j])| <= |WriteRecords(l, packets[..k])|
  {
    if j > 0 {
      WriteTake(l, packets, j);
      WriteTake(l, packets, k);
      WriteGrows(l, packets[1..], j - 1, k - 1);
    }
  }

  /** Every cut falls behind exactly one packet, so the two lemmas above cover every prefix of a savefile. */
  lemma {:induction false} EveryCutFalls(l: Layout, packets: seq<Packet>, cut: nat) returns (k: nat)
    requires cut <= |WriteRecords(l, packets)|
    ensures FallsAfter(l, packets, k, cut)
    ensures forall k': nat :: FallsAfter(l, packets, k', cut) ==> k' == k
  {
    k := |packets|;
    assert packets[..k] == packets;
    while |WriteRecords(l, packets[..k])| > cut
      invariant 0 <= k <= |packets|
      invariant FallsAfter(l, packets, k, cut) || |WriteRecords(l, packets[..k])| > cut
      decreases k
    {
      k := k - 1;
    }
    forall k': nat | FallsAfter(l, packets, k', cut) ensures k' == k {
      if k' < k { WriteGrows(l, packets, k' + 1, k); }
      if k < k' { WriteGrows(l, packets, k + 1, k'); }
    }
  }

  /** An oversize body is refused, or read back shorter than it was written. */
  lemma {:induction false} OversizeRecord(l: Layout, p: Packet, rest: seq<Byte>, end: IoError)
    requires |p.data| > MAX_INCL_LEN
    ensures var r := RecordOf(l, WriteRecord(l, p) + rest, end).0;
            r == Err(InvalidData) || (r.Ok? && r.value.Some? && |r.value.value.data| < |p.data|)
  {
    var bytes := WriteRecord(l, p) + rest;
    RecordFields(l, p);
    assert bytes[..RECORD_HEADER] == WriteRecord(l, p)[..RECORD_HEADER];
  }

  lemma {:induction false} OversizeIsLost(l: Layout, packets: seq<Packet>, end: IoError)
    requires !AllFit(packets)
    ensures ReadAll(Cursor(Some(l), WriteRecords(l, packets), end)).0 != RecordsFor(l, packets)
  {
    var p, rest := packets[0], WriteRecords(l, packets[1..]);
    var expected := RecordsFor(l, packets);
    assert expected[0] == RecordFor(l, p) && expected[1..] == RecordsFor(l, packets[1..]);
    if |p.data| <= MAX_INCL_LEN {
      ReadCons(l, p, rest, end);
      OversizeIsLost(l, packets[1..], end);
      var read := ReadAll(Cursor(Some(l), WriteRecords(l, packets), end)).0;
      assert read[1..] == ReadAll(Cursor(Some(l), rest, end)).0;
    } else {
      OversizeRecord(l, p, rest, end);
    }
  }

  lemma {:induction false} WholeRecords(l: Layout, packets: seq<Packet>, end: IoError)
    requires AllFit(packets)
    ensures ReadAll(Cursor(Some(l), WriteRecords(l, packets), end)) == (RecordsFor(l, packets), Cut(0, end))
  {
    if packets != [] {
      WholeRecords(l, packets[1..], end);
      ReadCons(l, packets[0], WriteRecords(l, packets[1..]), end);
    }
  }

  /**
   The round trip, and exactly when it holds: draining a savefile gives back the very packets written
   if and only if no body is longer than the reader accepts.
   */
  lemma {:induction false} RoundTrip(l: Layout, packets: seq<Packet>)
    ensures AllFit(packets) <==> ReadStream(Savefile(l, packets), UnexpectedEof) == (RecordsFor(l, packets), CleanEnd)
  {
    HeaderRoundTrip(l, WriteRecords(l, packets), UnexpectedEof);
    SameRest(l, WriteRecords(l, packets), UnexpectedEof, Savefile(l, packets));
    if AllFit(packets) {
      WholeRecords(l, packets, UnexpectedEof);
    } else {
      OversizeIsLost(l, packets, UnexpectedEof);
    }
  }

  lemma {:induction false} RecordsForAt(l: Layout, packets: seq<Packet>, i: nat)
    requires i < |packets|
    ensures RecordsFor(l, packets)[i] == RecordFor(l, packets[i])
  {
    if i > 0 {
      RecordsForAt(l, packets[1..], i - 1);
    }
  }

  /** What comes back: of each packet its very bytes, and the microsecond its time falls in. */
  lemma {:induction false} PacketsComeBack(l: Layout, packets: seq<Packet>, i: nat)
    requires AllFit(packets) && i < |packets|
    ensures var records := ReadStream(Savefile(l, packets), UnexpectedEof).0;
            && |records| == |packets| && records[i].data == packets[i].data
            && StampedAt(records[i], Nanos(l, packets[i].sec, packets[i].frac))
  {
    RoundTrip(l, packets);
    RecordsForAt(l, packets, i);
  }

  /**
   Any stream at all, well formed or not: reading a prefix of it hands out a prefix of its records, so
   a capture cut short never invents one.
   */
  lemma {:induction false} PrefixReadsPrefix(c: Cursor, cut: nat, end: IoError)
    requires cut <= |c.rest|
    ensures ReadAll(Cursor(c.layout, c.rest[..cut], end)).0 <= ReadAll(c).0
    decreases |c.rest|
  {
    var short := Cursor(c.layout, c.rest[..cut], end);
    var (r, c') := Next(c);
    var (r', short') := Next(short);
    if r'.Ok? && r'.value.Some? {
      PrefixStep(c, cut, end);
      PrefixReadsPrefix(c', |short'.rest|, end);
    }
  }

  /** A record read from a prefix is the record read from the whole. */
  lemma {:induction false} PrefixStep(c: Cursor, cut: nat, end: IoError)
    requires cut <= |c.rest|
    requires var r := Next(Cursor(c.layout, c.rest[..cut], end)).0; r.Ok? && r.value.Some?
    ensures var (r, short) := Next(Cursor(c.layout, c.rest[..cut], end));
            var (r', c') := Next(c);
            r == r' && |short.rest| <= |c'.rest| < |c.rest| && short == Cursor(c'.layout, c'.rest[..|short.rest|], end)
  {
    if c.layout.Some? {
      PrefixRecord(c.layout.value, c.rest, c.end, cut, end);
    } else {
      assert c.rest[..cut][..GLOBAL_HEADER] == c.rest[..GLOBAL_HEADER];
      var l := HeaderOf(c.rest, c.end).0.value;
      var rest := c.rest[GLOBAL_HEADER..];
      assert c.rest[..cut][GLOBAL_HEADER..] == rest[..cut - GLOBAL_HEADER];
      PrefixRecord(l, rest, c.end, cut - GLOBAL_HEADER, end);
    }
  }

  lemma {:induction false} PrefixRecord(l: Layout, rest: seq<Byte>, e: IoError, cut: nat, end: IoError)
    requires cut <= |rest|
    requires var r := RecordOf(l, rest[..cut], end).0; r.Ok? && r.value.Some?
    ensures var (r, short) := RecordOf(l, rest[..cut], end);
            var (r', rest') := RecordOf(l, rest, e);
            r == r' && |short| <= |rest'| < |rest| && short == rest'[..|short|]
  {
    assert rest[..cut][..RECORD_HEADER] == rest[..RECORD_HEADER];
    var n := l.U32(rest[..RECORD_HEADER][8..12]);
    assert rest[..cut][RECORD_HEADER..] == rest[RECORD_HEADER..][..cut - RECORD_HEADER];
    assert rest[..cut][RECORD_HEADER..][..n] == rest[RECORD_HEADER..][..n];
    assert rest[..cut][RECORD_HEADER..][n..] == rest[RECORD_HEADER..][n..][..cut - RECORD_HEADER - n];
  }
}
