/**
 The DHCP decoder (`dhcp.rs`): the fixed header of section 2 of RFC 2131, and the options of RFC 2132
 walked by index.

 The walk is proved against `Options`, the list of options wholly inside the buffer and before the end
 mark, and each field against the last option of its kind. Turning an option's bytes into text is a
 parameter: UTF-8 is not part of this model.
 */
module Dhcp {
  import opened Prelude

  type Mac = m: seq<Byte> | |m| == 6 witness [0, 0, 0, 0, 0, 0]
  type Ipv4 = a: seq<Byte> | |a| == 4 witness [0, 0, 0, 0]

  datatype Op = Request | Reply

  datatype MessageType = Discover | Offer | RequestType | Decline | Ack | Nak | Release | Inform

  function MessageTypeName(code: Byte): Option<MessageType> {
    match code
    case 1 => Some(Discover)
    case 2 => Some(Offer)
    case 3 => Some(RequestType)
    case 4 => Some(Decline)
    case 5 => Some(Ack)
    case 6 => Some(Nak)
    case 7 => Some(Release)
    case 8 => Some(Inform)
    case _ => None
  }

  datatype DhcpMessage = DhcpMessage(
    op: Op, chaddr: Mac, ciaddr: Option<Ipv4>, yiaddr: Option<Ipv4>,
    messageType: Option<MessageType>, hostname: Option<string>, vendorClass: Option<string>, serverId: Option<Ipv4>)

  const HEADER_LEN: nat := 240
  const MAGIC_COOKIE: seq<Byte> := [0x63, 0x82, 0x53, 0x63]
  const PAD: Byte := 0
  const HOSTNAME: Byte := 12
  const MESSAGE_TYPE: Byte := 53
  const SERVER_ID: Byte := 54
  const VENDOR_CLASS: Byte := 60
  const END: Byte := 255

  datatype DhcpOption = DhcpOption(code: Byte, value: seq<Byte>)

  type Text = seq<Byte> -> Option<string>

  // ------------------------------------------------------------------------------- the specification

  /** Where the option at the front of `opts` ends. */
  ghost function Span(opts: seq<Byte>): nat
    requires |opts| >= 2
  {
    2 + opts[1] as int
  }

  /** The options wholly inside `opts` and before the end mark, pads left out. */
  ghost function Options(opts: seq<Byte>): seq<DhcpOption>
    decreases |opts|
  {
    if opts == [] || opts[0] == END then []
    else if opts[0] == PAD then Options(opts[1..])
    else if |opts| < 2 || |opts| < Span(opts) then []
    else [DhcpOption(opts[0], opts[2..Span(opts)])] + Options(opts[Span(opts)..])
  }

  /** The last option with this code for which `ok` holds. */
  ghost function LastOf(options: seq<DhcpOption>, code: Byte, ok: seq<Byte> -> bool): Option<seq<Byte>> {
    if options == [] then None
    else
      var last := options[|options| - 1];
      if last.code == code && ok(last.value) then Some(last.value)
      else LastOf(options[..|options| - 1], code, ok)
  }

  ghost function ThenText(text: Text, value: Option<seq<Byte>>): Option<string> {
    if value.Some? then text(value.value) else None
  }

  ghost function ThenType(value: Option<seq<Byte>>): Option<MessageType> {
    if value.Some? && value.value != [] then MessageTypeName(value.value[0]) else None
  }

  /**
   What the options make of a message: each field is decided by the LAST option of its kind, readable or
   not, except that a server identifier counts only when it is four bytes long.
   */
  ghost function WithOptions(msg: DhcpMessage, options: seq<DhcpOption>, text: Text): DhcpMessage {
    var server := LastOf(options, SERVER_ID, v => |v| == 4);
    msg.(messageType := ThenType(LastOf(options, MESSAGE_TYPE, v => true)),
         hostname := ThenText(text, LastOf(options, HOSTNAME, v => true)),
         vendorClass := ThenText(text, LastOf(options, VENDOR_CLASS, v => true)),
         serverId := if server.Some? && |server.value| == 4 then Some(server.value) else None)
  }

  function AddressAt(payload: seq<Byte>, at: nat): Option<Ipv4>
    requires at + 4 <= |payload|
  {
    var a := payload[at..at + 4];
    if a == [0, 0, 0, 0] then None else Some(a)
  }

  /** Whether the payload is a DHCP message over Ethernet. */
  predicate IsDhcp(payload: seq<Byte>) {
    && |payload| >= HEADER_LEN
    && payload[236..240] == MAGIC_COOKIE
    && (payload[0] == 1 || payload[0] == 2)
    && payload[1] == 1
    && payload[2] == 6
  }

  function FixedPart(payload: seq<Byte>): DhcpMessage
    requires IsDhcp(payload)
  {
    DhcpMessage(if payload[0] == 1 then Request else Reply, payload[28..34], AddressAt(payload, 12),
                AddressAt(payload, 16), None, None, None, None)
  }

  ghost function Decoded(payload: seq<Byte>, text: Text): Option<DhcpMessage> {
    if !IsDhcp(payload) then None
    else Some(WithOptions(FixedPart(payload), Options(payload[HEADER_LEN..]), text))
  }

  // ------------------------------------------------------------------------------------- the decoder

  /** What one complete option does to the message read so far. */
  function Apply(msg: DhcpMessage, o: DhcpOption, text: Text): DhcpMessage {
    if o.code == MESSAGE_TYPE then msg.(messageType := if o.value == [] then None else MessageTypeName(o.value[0]))
    else if o.code == HOSTNAME then msg.(hostname := text(o.value))
    else if o.code == VENDOR_CLASS then msg.(vendorClass := text(o.value))
    else if o.code == SERVER_ID && |o.value| == 4 then msg.(serverId := Some(o.value))
    else msg
  }

  lemma {:induction false} ApplyNext(msg: DhcpMessage, options: seq<DhcpOption>, o: DhcpOption, text: Text)
    ensures WithOptions(msg, options + [o], text) == Apply(WithOptions(msg, options, text), o, text)
  {
    assert (options + [o])[..|options|] == options;
  }

  /** Decode one payload, or `None` when it is not a DHCP message over Ethernet. */
  method Decode(payload: seq<Byte>, text: Text) returns (r: Option<DhcpMessage>)
    ensures r == Decoded(payload, text)
  {
    if |payload| < HEADER_LEN || payload[236..240] != MAGIC_COOKIE {
      return None;
    }
    if payload[0] != 1 && payload[0] != 2 {
      return None;
    }
    if payload[1] != 1 || payload[2] != 6 {
      return None;
    }
    var msg := ReadOptions(FixedPart(payload), payload[HEADER_LEN..], text);
    return Some(msg);
  }

  /** What the options from an index on begin with. */
  lemma {:induction false} OptionsFrom(opts: seq<Byte>, i: nat)
    requires i < |opts|
    ensures opts[i] == PAD ==> Options(opts[i..]) == Options(opts[i + 1..])
    ensures opts[i] == END || (opts[i] != PAD && (i + 1 >= |opts| || i + 2 + opts[i + 1] as int > |opts|)) ==>
              Options(opts[i..]) == []
    ensures opts[i] != PAD && opts[i] != END && i + 1 < |opts| && i + 2 + opts[i + 1] as int <= |opts| ==>
              var end := i + 2 + opts[i + 1] as int;
              Options(opts[i..]) == [DhcpOption(opts[i], opts[i + 2..end])] + Options(opts[end..])
  {
    var here := opts[i..];
    assert here[1..] == opts[i + 1..];
    if i + 1 < |opts| && i + 2 + opts[i + 1] as int <= |opts| {
      var end := i + 2 + opts[i + 1] as int;
      assert here[2..Span(here)] == opts[i + 2..end] && here[Span(here)..] == opts[end..];
    }
  }

  /** The walk over the options. The index stays inside the buffer and moves forward. */
  method ReadOptions(fixed: DhcpMessage, opts: seq<Byte>, text: Text) returns (msg: DhcpMessage)
    requires fixed.messageType.None? && fixed.hostname.None? && fixed.vendorClass.None? && fixed.serverId.None?
    ensures msg == WithOptions(fixed, Options(opts), text)
  {
    msg := fixed;
    var i := 0;
    ghost var read: seq<DhcpOption> := [];
    assert opts[0..] == opts;
    while i < |opts|
      invariant i <= |opts|
      invariant Options(opts) == read + Options(opts[i..])
      invariant msg == WithOptions(fixed, read, text)
      decreases |opts| - i
    {
      var code := opts[i];
      OptionsFrom(opts, i);
      if code == PAD {
        i := i + 1;
        continue;
      }
      if code == END {
        break;
      }
      if i + 1 >= |opts| {
        break;
      }
      var start := i + 2;
      var end := start + opts[i + 1] as int;
      if end > |opts| {
        break;
      }
      var option := DhcpOption(code, opts[start..end]);
      assert read + ([option] + Options(opts[end..])) == (read + [option]) + Options(opts[end..]);
      ApplyNext(fixed, read, option, text);
      msg := Apply(msg, option, text);
      read := read + [option];
      i := end;
    }
    assert i == |opts| ==> opts[i..] == [];
    assert read + [] == read;
  }

  /** The message types by their numbers on the wire (RFC 2132, section 9.6), and no other number is one. */
  lemma {:induction false} TypesByNumber(code: Byte)
    ensures MessageTypeName(code) ==
              if 1 <= code <= 8 then Some([Discover, Offer, RequestType, Decline, Ack, Nak, Release, Inform][code - 1]) else None
  {
  }

  // ------------------------------------------------------------------------------------- the printer

  /** A pad, or an option to be written. */
  datatype Item = Pad | Opt(option: DhcpOption)

  /** The option can be written: its code is neither pad nor end, and its length fits a byte. */
  predicate Writable(item: Item) {
    item.Pad? || (item.option.code != PAD && item.option.code != END && |item.option.value| < 0x100)
  }

  predicate AllWritable(items: seq<Item>) {
    forall i :: 0 <= i < |items| ==> Writable(items[i])
  }

  function WriteItem(item: Item): seq<Byte>
    requires Writable(item)
  {
    match item
    case Pad => [PAD]
    case Opt(o) => [o.code, |o.value|] + o.value
  }

  function WriteItems(items: seq<Item>): seq<Byte>
    requires AllWritable(items)
  {
    if items == [] then [] else WriteItem(items[0]) + WriteItems(items[1..])
  }

  function OptionsIn(items: seq<Item>): seq<DhcpOption> {
    if items == [] then []
    else (if items[0].Opt? then [items[0].option] else []) + OptionsIn(items[1..])
  }

  /** Reading past one written item. */
  lemma {:induction false} ReadItem(item: Item, tail: seq<Byte>)
    requires Writable(item)
    ensures Options(WriteItem(item) + tail) == (if item.Opt? then [item.option] else []) + Options(tail)
  {
    var opts := WriteItem(item) + tail;
    if item.Pad? {
      assert opts[1..] == tail;
    } else {
      assert opts[2..Span(opts)] == item.option.value && opts[Span(opts)..] == tail;
    }
  }

  /** Nothing is read of an item cut short. */
  lemma {:induction false} ReadPartial(item: Item, cut: nat)
    requires Writable(item) && cut < |WriteItem(item)|
    ensures Options(WriteItem(item)[..cut]) == []
  {
  }

  /** Written items are read back, and reading goes on into what follows. */
  lemma {:induction false} ReadItems(items: seq<Item>, tail: seq<Byte>)
    requires AllWritable(items)
    ensures Options(WriteItems(items) + tail) == OptionsIn(items) + Options(tail)
  {
    if items == [] {
      assert WriteItems(items) + tail == tail;
    } else {
      WriteCons(items, tail);
      var first := if items[0].Opt? then [items[0].option] else [];
      var rest := WriteItems(items[1..]) + tail;
      ReadItem(items[0], rest);
      ReadItems(items[1..], tail);
      ReadOn(WriteItems(items) + tail, rest, first, OptionsIn(items[1..]), Options(tail));
    }
  }

  lemma {:induction false} ReadOn(
      whole: seq<Byte>, rest: seq<Byte>, first: seq<DhcpOption>, middle: seq<DhcpOption>, last: seq<DhcpOption>)
    requires Options(whole) == first + Options(rest) && Options(rest) == middle + last
    ensures Options(whole) == (first + middle) + last
  {
    assert first + (middle + last) == (first + middle) + last;
  }

  lemma {:induction false} WriteCons(items: seq<Item>, tail: seq<Byte>)
    requires AllWritable(items) && items != []
    ensures WriteItems(items) + tail == WriteItem(items[0]) + (WriteItems(items[1..]) + tail)
  {
  }

  /** Options written with any pads between them are read back, whatever follows the end mark. */
  lemma {:induction false} OptionsRoundTrip(items: seq<Item>, junk: seq<Byte>)
    requires AllWritable(items)
    ensures Options(WriteItems(items) + ([END] + junk)) == OptionsIn(items)
  {
    ReadItems(items, [END] + junk);
  }

  /**
   A buffer cut anywhere in its options gives exactly the options wholly inside the cut: those of the
   longest run of items that fits.
   */
  lemma {:induction false} OptionsCut(items: seq<Item>, k: nat, cut: nat)
    requires AllWritable(items) && k <= |items| && cut <= |WriteItems(items)|
    requires |WriteItems(items[..k])| <= cut
    requires k < |items| ==> cut < |WriteItems(items[..k + 1])|
    ensures Options(WriteItems(items)[..cut]) == OptionsIn(items[..k])
  {
    if items == [] {
      assert items[..k] == [] && WriteItems(items)[..cut] == [];
    } else if k == 0 {
      assert items[..1] == [items[0]] && items[..0] == [];
      assert WriteItems(items[..1]) == WriteItem(items[0]) + WriteItems([]);
      assert WriteItems(items)[..cut] == WriteItem(items[0])[..cut];
      ReadPartial(items[0], cut);
    } else {
      var rest := items[1..];
      var cut' := CutBehindFirst(items, k, cut);
      ReadItem(items[0], WriteItems(rest)[..cut']);
      OptionsCut(rest, k - 1, cut');
    }
  }

  /** A cut behind the first item is a cut of the rest. */
  lemma {:induction false} CutBehindFirst(items: seq<Item>, k: nat, cut: nat) returns (cut': nat)
    requires AllWritable(items) && 0 < k <= |items| && cut <= |WriteItems(items)|
    requires |WriteItems(items[..k])| <= cut
    requires k < |items| ==> cut < |WriteItems(items[..k + 1])|
    ensures var (first, rest) := (WriteItem(items[0]), items[1..]);
            && cut' <= |WriteItems(rest)| && |WriteItems(rest[..k - 1])| <= cut'
            && (k < |items| ==> cut' < |WriteItems(rest[..k])|)
            && WriteItems(items)[..cut] == first + WriteItems(rest)[..cut']
            && OptionsIn(items[..k]) == (if items[0].Opt? then [items[0].option] else []) + OptionsIn(rest[..k - 1])
  {
    assert items[..k][1..] == items[1..][..k - 1];
    if k < |items| {
      assert items[..k + 1][1..] == items[1..][..k];
    }
    cut' := cut - |WriteItem(items[0])|;
  }

  /** The fixed header of a message, as the fields give it. */
  function WriteFixed(op: Op, chaddr: Mac, ciaddr: Ipv4, yiaddr: Ipv4): (bytes: seq<Byte>)
    ensures |bytes| == HEADER_LEN
  {
    [if op.Request? then 1 else 2, 1, 6, 0, 0x12, 0x34, 0x56, 0x78] + seq(4, i => 0) + ciaddr + yiaddr
    + seq(8, i => 0) + chaddr + seq(202, i => 0) + MAGIC_COOKIE
  }

  function WriteMessage(op: Op, chaddr: Mac, ciaddr: Ipv4, yiaddr: Ipv4, items: seq<Item>): seq<Byte>
    requires AllWritable(items)
  {
    WriteFixed(op, chaddr, ciaddr, yiaddr) + (WriteItems(items) + [END])
  }

  function NonZero(a: Ipv4): Option<Ipv4> {
    if a == [0, 0, 0, 0] then None else Some(a)
  }

  lemma {:induction false} FixedRoundTrip(op: Op, chaddr: Mac, ciaddr: Ipv4, yiaddr: Ipv4, tail: seq<Byte>)
    ensures var payload := WriteFixed(op, chaddr, ciaddr, yiaddr) + tail;
            && IsDhcp(payload)
            && FixedPart(payload) == DhcpMessage(op, chaddr, NonZero(ciaddr), NonZero(yiaddr), None, None, None, None)
            && payload[HEADER_LEN..] == tail
  {
    var payload := WriteFixed(op, chaddr, ciaddr, yiaddr) + tail;
    assert payload[12..16] == ciaddr && payload[16..20] == yiaddr;
    assert payload[28..34] == chaddr && payload[236..240] == MAGIC_COOKIE;
  }

  lemma {:induction false} Regroup(a: seq<Byte>, b: seq<Byte>, c: seq<Byte>, d: seq<Byte>)
    ensures (a + (b + c)) + d == a + (b + (c + d))
  {
  }

  /**
   The round trip: a written message, with any pads between its options and any bytes after the end
   mark, decodes to its own header fields and the last option of each kind.
   */
  lemma {:induction false} MessageRoundTrip(op: Op, chaddr: Mac, ciaddr: Ipv4, yiaddr: Ipv4, items: seq<Item>,
                                            junk: seq<Byte>, text: Text)
    requires AllWritable(items)
    ensures Decoded(WriteMessage(op, chaddr, ciaddr, yiaddr, items) + junk, text)
         == Some(WithOptions(DhcpMessage(op, chaddr, NonZero(ciaddr), NonZero(yiaddr), None, None, None, None),
                             OptionsIn(items), text))
  {
    var tail := WriteItems(items) + ([END] + junk);
    Regroup(WriteFixed(op, chaddr, ciaddr, yiaddr), WriteItems(items), [END], junk);
    FixedRoundTrip(op, chaddr, ciaddr, yiaddr, tail);
    OptionsRoundTrip(items, junk);
  }

  /** A message cut behind its header decodes to the header and the options wholly inside the cut. */
  lemma {:induction false} MessageCut(op: Op, chaddr: Mac, ciaddr: Ipv4, yiaddr: Ipv4, items: seq<Item>, k: nat,
                                      cut: nat, text: Text)
    requires AllWritable(items) && k <= |items| && cut <= |WriteItems(items)|
    requires |WriteItems(items[..k])| <= cut
    requires k < |items| ==> cut < |WriteItems(items[..k + 1])|
    ensures Decoded(WriteMessage(op, chaddr, ciaddr, yiaddr, items)[..HEADER_LEN + cut], text)
         == Some(WithOptions(DhcpMessage(op, chaddr, NonZero(ciaddr), NonZero(yiaddr), None, None, None, None),
                             OptionsIn(items[..k]), text))
  {
    var tail := WriteItems(items)[..cut];
    assert WriteMessage(op, chaddr, ciaddr, yiaddr, items)[..HEADER_LEN + cut]
        == WriteFixed(op, chaddr, ciaddr, yiaddr) + tail;
    FixedRoundTrip(op, chaddr, ciaddr, yiaddr, tail);
    OptionsCut(items, k, cut);
  }

  /** `k` is the place of the last option with this code for which `ok` holds, if there is one. */
  ghost predicate LastAt(options: seq<DhcpOption>, code: Byte, ok: seq<Byte> -> bool, k: Option<nat>) {
    && (k.Some? ==> k.value < |options| && options[k.value].code == code && ok(options[k.value].value))
    && forall j :: (if k.Some? then k.value + 1 else 0) <= j < |options| && options[j].code == code ==> !ok(options[j].value)
  }

  /** Which option decides a field: the last of its kind, or none if there is none. */
  lemma {:induction false} LastOfIsLast(options: seq<DhcpOption>, code: Byte, ok: seq<Byte> -> bool, k: Option<nat>)
    requires LastAt(options, code, ok, k)
    ensures LastOf(options, code, ok) == if k.Some? then Some(options[k.value].value) else None
  {
    if options != [] && k != Some(|options| - 1) {
      LastOfIsLast(options[..|options| - 1], code, ok, k);
    }
  }

  /** A host name is that of the last option 12, whatever came before it, and there is none without one. */
  lemma {:induction false} HostnameDecided(msg: DhcpMessage, options: seq<DhcpOption>, text: Text, k: Option<nat>)
    requires LastAt(options, 12, v => true, k)
    ensures WithOptions(msg, options, text).hostname == if k.Some? then text(options[k.value].value) else None
  {
    LastOfIsLast(options, HOSTNAME, v => true, k);
  }

  /** A vendor class likewise is that of the last option 60. */
  lemma {:induction false} VendorDecided(msg: DhcpMessage, options: seq<DhcpOption>, text: Text, k: Option<nat>)
    requires LastAt(options, 60, v => true, k)
    ensures WithOptions(msg, options, text).vendorClass == if k.Some? then text(options[k.value].value) else None
  {
    LastOfIsLast(options, VENDOR_CLASS, v => true, k);
  }

  /** The message type is the first byte of the last option 53. */
  lemma {:induction false} TypeDecided(msg: DhcpMessage, options: seq<DhcpOption>, text: Text, k: Option<nat>)
    requires LastAt(options, 53, v => true, k)
    ensures WithOptions(msg, options, text).messageType ==
              if k.Some? && options[k.value].value != [] then MessageTypeName(options[k.value].value[0]) else None
  {
    LastOfIsLast(options, MESSAGE_TYPE, v => true, k);
  }

  /** The server is that of the last option 54 of four bytes. */
  lemma {:induction false} ServerDecided(msg: DhcpMessage, options: seq<DhcpOption>, text: Text, k: Option<nat>)
    requires LastAt(options, 54, v => |v| == 4, k)
    ensures WithOptions(msg, options, text).serverId.Some? <==> k.Some?
    ensures k.Some? ==> WithOptions(msg, options, text).serverId.value == options[k.value].value
  {
    LastOfIsLast(options, SERVER_ID, v => |v| == 4, k);
  }

  /** The fixed fields stand where the header has them (RFC 2131, section 2), and the options do not touch them. */
  lemma {:induction false} FieldsStandThere(payload: seq<Byte>, text: Text)
    ensures Decoded(payload, text).Some? <==>
              && |payload| >= 240 && payload[236..240] == [99, 130, 83, 99]
              && payload[0] in {1, 2} && payload[1] == 1 && payload[2] == 6
    ensures Decoded(payload, text).Some? ==>
              var msg := Decoded(payload, text).value;
              && (msg.op == Request <==> payload[0] == 1)
              && msg.chaddr == payload[28..34]
              && (msg.ciaddr.Some? <==> payload[12..16] != [0, 0, 0, 0])
              && (msg.ciaddr.Some? ==> msg.ciaddr.value == payload[12..16])
              && (msg.yiaddr.Some? <==> payload[16..20] != [0, 0, 0, 0])
              && (msg.yiaddr.Some? ==> msg.yiaddr.value == payload[16..20])
  {
  }

  /** A later unreadable name, class or type erases a readable earlier one; a server identifier of a wrong length does not. */
  lemma {:induction false} UnreadableErases(msg: DhcpMessage, earlier: seq<DhcpOption>, v: seq<Byte>, text: Text)
    ensures text(v).None? ==>
              && WithOptions(msg, earlier + [DhcpOption(HOSTNAME, v)], text).hostname == None
              && WithOptions(msg, earlier + [DhcpOption(VENDOR_CLASS, v)], text).vendorClass == None
    ensures WithOptions(msg, earlier + [DhcpOption(MESSAGE_TYPE, [])], text).messageType == None
    ensures |v| != 4 ==> WithOptions(msg, earlier + [DhcpOption(SERVER_ID, v)], text).serverId ==
                           WithOptions(msg, earlier, text).serverId
  {
    assert (earlier + [DhcpOption(SERVER_ID, v)])[..|earlier|] == earlier;
  }
}
