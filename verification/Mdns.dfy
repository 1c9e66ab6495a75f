/**
 What an mDNS message says about its sender (`mdns.rs`), from records already decoded: the names tied to
 the sender's own address, and the services it offers for itself (section 4.1 of RFC 6763).
 */
module Mdns {
  import opened Prelude
  import opened StableSort

  type Octets4 = o: seq<Byte> | |o| == 4 witness [0, 0, 0, 0]
  type Octets16 = o: seq<Byte> | |o| == 16 witness seq(16, i => 0)

  datatype IpAddr = V4(v4: Octets4) | V6(v6: Octets16)

  type Labels = seq<string>

  datatype RData = A(addr: Octets4) | Aaaa(addr6: Octets16) | Srv(target: Labels) | Ptr(target: Labels) | Other

  datatype ResourceRecord = ResourceRecord(name: Labels, rdata: RData)

  type Service = (string, Option<string>)

  datatype MdnsFacts = MdnsFacts(hostnames: seq<string>, services: seq<Service>, proxied: nat)

  const SERVICES_META: string := "_services._dns-sd._udp.local"
  const LOCAL: string := "local"

  // ------------------------------------------------------------------------------------- names

  function Join(labels: Labels): string {
    if labels == [] then "" else if |labels| == 1 then labels[0] else labels[0] + "." + Join(labels[1..])
  }

  function ServiceType(labels: Labels): Option<string> {
    var n := |labels|;
    if n < 3 || labels[n - 1] != LOCAL || (labels[n - 2] != "_tcp" && labels[n - 2] != "_udp") then None
    else if labels[0] == "" || labels[0][0] != '_' then None
    else Some(Join(labels[..n - 1]))
  }

  /** `<instance>._type._tcp.local` as the type and the instance. */
  function SplitInstance(labels: Labels): Option<(string, string)> {
    if |labels| < 4 || (labels[0] != "" && labels[0][0] == '_') then None
    else
      var service := ServiceType(labels[1..]);
      if service.None? then None else Some((service.value, labels[0]))
  }

  function Digit(d: nat): char
    requires d < 10
  {
    '0' + d as char
  }

  function Decimal(n: Byte): string {
    if n < 10 then [Digit(n)]
    else if n < 100 then [Digit(n / 10), Digit(n % 10)]
    else [Digit(n / 100), Digit(n / 10 % 10), Digit(n % 10)]
  }

  function Nibble(n: nat): string
    requires n < 16
  {
    [if n < 10 then '0' + n as char else 'a' + (n - 10) as char]
  }

  /** The labels of the reverse-lookup name: octets under `in-addr.arpa`, nibbles under `ip6.arpa`. */
  function ReverseName(ip: IpAddr): Labels {
    match ip
    case V4(o) => [Decimal(o[3]), Decimal(o[2]), Decimal(o[1]), Decimal(o[0]), "in-addr", "arpa"]
    case V6(o) =>
      seq(32, i requires 0 <= i < 32 =>
        Nibble(if i % 2 == 0 then o[15 - i / 2] % 16 else o[15 - i / 2] / 16)) + ["ip6", "arpa"]
  }

  predicate IsReverseOf(owner: Labels, ip: IpAddr) {
    var expected := ReverseName(ip);
    && |owner| == |expected|
    && forall i :: 0 <= i < |owner| ==> EqIgnoreCase(owner[i], expected[i])
  }

  /** The number decimal digits spell. */
  ghost function Value(s: string): nat {
    if s == "" then 0 else 10 * Value(s[..|s| - 1]) + DigitValue(s[|s| - 1])
  }

  predicate IsDigit(c: char) { '0' <= c <= '9' }

  function DigitValue(c: char): nat {
    if IsDigit(c) then c as int - '0' as int else 0
  }

  /** `s` is the decimal numeral of `n`: digits that spell it, with no zero before them. */
  ghost predicate IsNumeral(s: string, n: nat) {
    && s != "" && (forall i :: 0 <= i < |s| ==> IsDigit(s[i]))
    && (|s| > 1 ==> s[0] != '0') && Value(s) == n
  }

  lemma {:induction false} ValueOf(s: string)
    requires 0 < |s| <= 3
    ensures |s| == 1 ==> Value(s) == DigitValue(s[0])
    ensures |s| == 2 ==> Value(s) == 10 * DigitValue(s[0]) + DigitValue(s[1])
    ensures |s| == 3 ==> Value(s) == 100 * DigitValue(s[0]) + 10 * DigitValue(s[1]) + DigitValue(s[2])
  {
    if |s| > 1 {
      ValueOf(s[..|s| - 1]);
    } else {
      assert s[..0] == "";
    }
  }

  lemma {:induction false} LongIsLarge(s: string)
    requires |s| >= 1 && IsDigit(s[0]) && s[0] != '0'
    ensures Value(s) >= 1 && (|s| > 3 ==> Value(s) >= 1000)
  {
    if |s| > 1 {
      LongIsLarge(s[..|s| - 1]);
      if |s| == 4 {
        ValueOf(s[..3]);
      }
    } else {
      assert s[..0] == "";
    }
  }

  lemma {:induction false} DecimalSpells(n: Byte)
    ensures IsNumeral(Decimal(n), n)
  {
    ValueOf(Decimal(n));
  }

  lemma {:induction false} SameDigits(s: string, t: string)
    requires |s| == |t| && Value(s) == Value(t)
    requires forall i :: 0 <= i < |s| ==> IsDigit(s[i]) && IsDigit(t[i])
    ensures s == t
  {
    if s != "" {
      SameDigits(s[..|s| - 1], t[..|t| - 1]);
      assert s == s[..|s| - 1] + [s[|s| - 1]] && t == t[..|t| - 1] + [t[|t| - 1]];
    }
  }

  lemma {:induction false} NumeralSize(s: string, n: nat)
    requires n < 1000 && IsNumeral(s, n)
    ensures |s| == if n < 10 then 1 else if n < 100 then 2 else 3
  {
    if |s| > 1 {
      LongIsLarge(s);
    }
    if |s| <= 3 {
      ValueOf(s);
    }
  }

  lemma {:induction false} DigitsHaveNoCase(s: string, t: string)
    requires forall i :: 0 <= i < |t| ==> IsDigit(t[i])
    ensures EqIgnoreCase(s, t) <==> s == t
  {
    assert Lower(t) == t;
    if EqIgnoreCase(s, t) {
      assert |s| == |Lower(s)| == |t|;
      forall i | 0 <= i < |s| ensures s[i] == t[i] {
        assert Lower(s)[i] == LowerChar(s[i]);
      }
    }
  }

  lemma {:induction false} DecimalIsNumeral(s: string, n: Byte)
    ensures IsNumeral(s, n) <==> EqIgnoreCase(s, Decimal(n))
  {
    DecimalSpells(n);
    DigitsHaveNoCase(s, Decimal(n));
    if IsNumeral(s, n) {
      NumeralSize(s, n);
      NumeralSize(Decimal(n), n);
      SameDigits(s, Decimal(n));
    }
  }

  /** The hexadecimal digit `c`, in either case, stands for `n`. */
  predicate HexDigit(c: char, n: nat) {
    if n < 10 then c as int == '0' as int + n
    else c as int == 'a' as int + n - 10 || c as int == 'A' as int + n - 10
  }

  lemma {:induction false} NibbleIsDigit(s: string, n: nat)
    requires n < 16
    ensures |s| == 1 && HexDigit(s[0], n) <==> EqIgnoreCase(s, Nibble(n))
  {
    var t := Nibble(n);
    assert Lower(t) == t;
    assert |s| == |Lower(s)|;
    if |s| == 1 {
      assert Lower(s)[0] == LowerChar(s[0]) && Lower(t)[0] == t[0];
      assert Lower(s) == [LowerChar(s[0])] && t == [t[0]];
    }
  }

  /** The name under which an IPv4 address is looked up: its octets from the last to the first, under `in-addr.arpa`. */
  lemma {:induction false} ReverseOfV4(owner: Labels, o: Octets4)
    ensures IsReverseOf(owner, V4(o)) <==>
              && |owner| == 6 && (forall k :: 0 <= k < 4 ==> IsNumeral(owner[k], o[3 - k]))
              && EqIgnoreCase(owner[4], "in-addr") && EqIgnoreCase(owner[5], "arpa")
  {
    var expected := ReverseName(V4(o));
    if |owner| == 6 {
      DecimalIsNumeral(owner[0], o[3]);
      DecimalIsNumeral(owner[1], o[2]);
      DecimalIsNumeral(owner[2], o[1]);
      DecimalIsNumeral(owner[3], o[0]);
      FourLabels(owner, expected, o);
    }
  }

  lemma {:induction false} FourLabels(owner: Labels, expected: Labels, o: Octets4)
    requires |owner| == |expected| == 6
    requires IsNumeral(owner[0], o[3]) <==> EqIgnoreCase(owner[0], expected[0])
    requires IsNumeral(owner[1], o[2]) <==> EqIgnoreCase(owner[1], expected[1])
    requires IsNumeral(owner[2], o[1]) <==> EqIgnoreCase(owner[2], expected[2])
    requires IsNumeral(owner[3], o[0]) <==> EqIgnoreCase(owner[3], expected[3])
    ensures (forall k :: 0 <= k < 4 ==> IsNumeral(owner[k], o[3 - k])) <==>
              forall k :: 0 <= k < 4 ==> EqIgnoreCase(owner[k], expected[k])
  {
  }

  /** For IPv6 it is the nibbles, of each octet from the last to the first the low one before the high one. */
  lemma {:induction false} ReverseOfV6(owner: Labels, o: Octets16)
    ensures IsReverseOf(owner, V6(o)) <==>
              && |owner| == 34 && EqIgnoreCase(owner[32], "ip6") && EqIgnoreCase(owner[33], "arpa")
              && forall k :: 0 <= k < 16 ==> SpellsOctet(owner[2 * k], owner[2 * k + 1], o[15 - k])
  {
    if |owner| == 34 {
      forall k | 0 <= k < 16
        ensures SpellsOctet(owner[2 * k], owner[2 * k + 1], o[15 - k]) <==> OctetAt(owner, ReverseName(V6(o)), k) {
        OctetSpelled(owner, o, k);
      }
      InPairs(owner, ReverseName(V6(o)));
      ReverseInPairs(owner, o);
    }
  }

  lemma {:induction false} OctetSpelled(owner: Labels, o: Octets16, k: nat)
    requires |owner| == 34 && k < 16
    ensures |ReverseName(V6(o))| == 34
    ensures SpellsOctet(owner[2 * k], owner[2 * k + 1], o[15 - k]) <==> OctetAt(owner, ReverseName(V6(o)), k)
  {
    assert ReverseName(V6(o))[2 * k] == Nibble(o[15 - k] % 16);
    assert ReverseName(V6(o))[2 * k + 1] == Nibble(o[15 - k] / 16);
    NibbleIsDigit(owner[2 * k], o[15 - k] % 16);
    NibbleIsDigit(owner[2 * k + 1], o[15 - k] / 16);
  }

  lemma {:induction false} ReverseInPairs(owner: Labels, o: Octets16)
    requires |owner| == 34
    ensures IsReverseOf(owner, V6(o)) <==>
              && (forall i :: 0 <= i < 32 ==> EqIgnoreCase(owner[i], ReverseName(V6(o))[i]))
              && EqIgnoreCase(owner[32], "ip6") && EqIgnoreCase(owner[33], "arpa")
  {
    var expected := ReverseName(V6(o));
    assert expected[32] == "ip6" && expected[33] == "arpa";
  }

  predicate OctetAt(owner: Labels, expected: Labels, k: nat)
    requires |owner| == |expected| == 34 && k < 16
  {
    EqIgnoreCase(owner[2 * k], expected[2 * k]) && EqIgnoreCase(owner[2 * k + 1], expected[2 * k + 1])
  }

  lemma {:induction false} InPairs(owner: Labels, expected: Labels)
    requires |owner| == |expected| == 34
    ensures (forall i :: 0 <= i < 32 ==> EqIgnoreCase(owner[i], expected[i])) <==>
              forall k :: 0 <= k < 16 ==> OctetAt(owner, expected, k)
  {
    if forall k :: 0 <= k < 16 ==> OctetAt(owner, expected, k) {
      forall i | 0 <= i < 32 ensures EqIgnoreCase(owner[i], expected[i]) {
        assert OctetAt(owner, expected, i / 2);
      }
    }
  }

  /** Two labels of one digit each, the low nibble and then the high one. */
  predicate SpellsOctet(low: string, high: string, octet: Byte) {
    && |low| == 1 && HexDigit(low[0], octet % 16)
    && |high| == 1 && HexDigit(high[0], octet / 16)
  }

  lemma {:induction false} ReverseV4(owner: Labels, a: Octets4, b: Octets4)
    requires IsReverseOf(owner, V4(a)) && IsReverseOf(owner, V4(b))
    ensures a == b
  {
    ReverseOfV4(owner, a);
    ReverseOfV4(owner, b);
    assert a == [Value(owner[3]), Value(owner[2]), Value(owner[1]), Value(owner[0])] == b;
  }

  lemma {:induction false} ReverseV6(owner: Labels, a: Octets16, b: Octets16)
    requires IsReverseOf(owner, V6(a)) && IsReverseOf(owner, V6(b))
    ensures a == b
  {
    ReverseOfV6(owner, a);
    ReverseOfV6(owner, b);
    forall k | 0 <= k < 16 ensures a[k] == b[k] {
      SameOctet(owner, a, b, 15 - k);
    }
  }

  lemma {:induction false} SameOctet(owner: Labels, a: Octets16, b: Octets16, m: nat)
    requires |owner| == 34 && m < 16
    requires forall k :: 0 <= k < 16 ==> SpellsOctet(owner[2 * k], owner[2 * k + 1], a[15 - k])
    requires forall k :: 0 <= k < 16 ==> SpellsOctet(owner[2 * k], owner[2 * k + 1], b[15 - k])
    ensures a[15 - m] == b[15 - m]
  {
    assert SpellsOctet(owner[2 * m], owner[2 * m + 1], a[15 - m]) && SpellsOctet(owner[2 * m], owner[2 * m + 1], b[15 - m]);
    OneOctet(owner[2 * m], owner[2 * m + 1], a[15 - m], b[15 - m]);
  }

  lemma {:induction false} OneOctet(low: string, high: string, x: Byte, y: Byte)
    requires SpellsOctet(low, high, x) && SpellsOctet(low, high, y)
    ensures x == y
  {
    assert x as int == x / 16 * 16 + x % 16 && y as int == y / 16 * 16 + y % 16;
  }

  /** A reverse-lookup name, in any case, spells one address and no other, across both families. */
  lemma {:induction false} ReverseNameDetermines(owner: Labels, a: IpAddr, b: IpAddr)
    requires IsReverseOf(owner, a) && IsReverseOf(owner, b)
    ensures a == b
  {
    match (a, b)
    case (V4(x), V4(y)) => ReverseV4(owner, x, y);
    case (V6(x), V6(y)) => ReverseV6(owner, x, y);
    case (_, _) => assert false;
  }

  // ------------------------------------------------------------------------------------- the decoder

  /** The address a record ties to its name. */
  function AddressOf(rr: ResourceRecord): Option<IpAddr> {
    match rr.rdata
    case A(o) => Some(V4(o))
    case Aaaa(o) => Some(V6(o))
    case _ => None
  }

  /** The message ties `name` to `ip`. */
  ghost predicate Ties(records: seq<ResourceRecord>, name: string, ip: IpAddr) {
    exists i :: 0 <= i < |records| && Join(records[i].name) == name && AddressOf(records[i]) == Some(ip)
  }

  ghost predicate TiesElsewhere(records: seq<ResourceRecord>, name: string, srcIp: IpAddr) {
    (exists ip :: Ties(records, name, ip)) && !Ties(records, name, srcIp)
  }

  /** An SRV record whose target the message ties to addresses, none of them the frame's source. */
  ghost predicate SpeaksForOther(records: seq<ResourceRecord>, srcIp: IpAddr, rr: ResourceRecord) {
    rr.rdata.Srv? && TiesElsewhere(records, Join(rr.rdata.target), srcIp)
  }

  /** The instances announced on another host's behalf. */
  ghost function ProxiedNames(records: seq<ResourceRecord>, srcIp: IpAddr): set<string> {
    set i | 0 <= i < |records| && SpeaksForOther(records, srcIp, records[i]) :: Join(records[i].name)
  }

  /** What one record says: a name of some rank, a service of the sender's, somebody else's, or nothing. */
  datatype Claim = Named(rank: nat, name: string) | Offered(service: Service) | Refused | Nothing

  function ClaimOf(rr: ResourceRecord, srcIp: IpAddr, proxied: set<string>): Claim {
    match rr.rdata
    case A(o) => if srcIp == V4(o) then Named(0, Join(rr.name)) else Nothing
    case Aaaa(o) => if srcIp == V6(o) then Named(0, Join(rr.name)) else Nothing
    case Srv(_) =>
      var split := SplitInstance(rr.name);
      if split.None? then Nothing
      else if Join(rr.name) in proxied then Refused
      else Offered((split.value.0, Some(split.value.1)))
    case Ptr(target) =>
      if Join(rr.name) == SERVICES_META then
        var service := ServiceType(target);
        if service.None? then Nothing else Offered((service.value, None))
      else if IsReverseOf(rr.name, srcIp) then Named(1, Join(target))
      else
        var service := ServiceType(rr.name);
        if service.None? then Nothing
        else if Join(target) in proxied then Refused
        else
          var split := SplitInstance(target);
          Offered((service.value, if split.None? then None else Some(split.value.1)))
    case Other => Nothing
  }

  function Claims(records: seq<ResourceRecord>, srcIp: IpAddr, proxied: set<string>): (r: seq<Claim>)
    ensures |r| == |records|
    ensures forall i :: 0 <= i < |r| ==> r[i] == ClaimOf(records[i], srcIp, proxied)
  {
    seq(|records|, i requires 0 <= i < |records| => ClaimOf(records[i], srcIp, proxied))
  }

  /** The names claimed, each with its rank, in record order. */
  function NamesOf(claims: seq<Claim>): seq<(nat, string)> {
    if claims == [] then []
    else
      var last := claims[|claims| - 1];
      NamesOf(claims[..|claims| - 1]) + if last.Named? then [(last.rank, last.name)] else []
  }

  function ServicesOf(claims: seq<Claim>): seq<Service> {
    if claims == [] then []
    else
      var last := claims[|claims| - 1];
      ServicesOf(claims[..|claims| - 1]) + if last.Offered? then [last.service] else []
  }

  function RefusedIn(claims: seq<Claim>): nat {
    if claims == [] then 0
    else RefusedIn(claims[..|claims| - 1]) + if claims[|claims| - 1].Refused? then 1 else 0
  }

  lemma {:induction false} OneClaim(claims: seq<Claim>, c: Claim)
    ensures NamesOf(claims + [c]) == NamesOf(claims) + if c.Named? then [(c.rank, c.name)] else []
    ensures ServicesOf(claims + [c]) == ServicesOf(claims) + if c.Offered? then [c.service] else []
    ensures RefusedIn(claims + [c]) == RefusedIn(claims) + if c.Refused? then 1 else 0
  {
    assert (claims + [c])[..|claims|] == claims;
  }

  /** `addresses` lists exactly what the message ties to each name. */
  ghost predicate Indexes(addresses: map<string, seq<IpAddr>>, records: seq<ResourceRecord>) {
    && (forall name :: name in addresses ==> addresses[name] != [])
    && forall name, ip :: Ties(records, name, ip) <==> In(addresses, name, ip)
  }

  ghost predicate In(addresses: map<string, seq<IpAddr>>, name: string, ip: IpAddr) {
    name in addresses && ip in addresses[name]
  }

  /** What addresses the message itself ties to each name. */
  method CollectAddresses(records: seq<ResourceRecord>) returns (addresses: map<string, seq<IpAddr>>)
    ensures Indexes(addresses, records)
  {
    addresses := map[];
    for i := 0 to |records|
      invariant Indexes(addresses, records[..i])
    {
      var name, addr := Join(records[i].name), AddressOf(records[i]);
      ghost var was := addresses;
      if addr.Some? {
        var known := if name in addresses then addresses[name] else [];
        addresses := addresses[name := known + [addr.value]];
        assert forall n, ip :: In(addresses, n, ip) <==> In(was, n, ip) || (n == name && ip == addr.value);
      }
      TiesNext(records, i);
      assert forall n, ip :: Ties(records[..i + 1], n, ip) <==> In(addresses, n, ip);
    }
    assert records[..|records|] == records;
  }

  lemma {:induction false} TiesNext(records: seq<ResourceRecord>, i: nat)
    requires i < |records|
    ensures forall name, ip :: Ties(records[..i + 1], name, ip) <==>
              Ties(records[..i], name, ip) || (Join(records[i].name) == name && AddressOf(records[i]) == Some(ip))
  {
    forall name, ip
      ensures Ties(records[..i + 1], name, ip) <==>
              Ties(records[..i], name, ip) || (Join(records[i].name) == name && AddressOf(records[i]) == Some(ip))
    {
      if Ties(records[..i], name, ip) {
        var k :| 0 <= k < i && Join(records[..i][k].name) == name && AddressOf(records[..i][k]) == Some(ip);
        assert records[..i + 1][k] == records[k];
      }
      if Join(records[i].name) == name && AddressOf(records[i]) == Some(ip) {
        assert records[..i + 1][i] == records[i];
      }
      if Ties(records[..i + 1], name, ip) {
        var k :| 0 <= k < i + 1 && Join(records[..i + 1][k].name) == name && AddressOf(records[..i + 1][k]) == Some(ip);
        if k < i { assert records[..i][k] == records[k]; }
      }
    }
  }

  method CollectProxied(records: seq<ResourceRecord>, srcIp: IpAddr) returns (proxied: set<string>)
    ensures proxied == ProxiedNames(records, srcIp)
  {
    var addresses := CollectAddresses(records);
    proxied := {};
    for i := 0 to |records|
      invariant proxied == set k | 0 <= k < i && SpeaksForOther(records, srcIp, records[k]) :: Join(records[k].name)
    {
      if records[i].rdata.Srv? {
        var target := Join(records[i].rdata.target);
        if target in addresses && srcIp !in addresses[target] {
          assert In(addresses, target, addresses[target][0]);
          assert Ties(records, target, addresses[target][0]);
          proxied := proxied + {Join(records[i].name)};
        }
      }
    }
  }

  /** The elements of `xs`, each at its first occurrence only. */
  function FirstSeen(xs: seq<string>): seq<string> {
    if xs == [] then []
    else
      var seen := FirstSeen(xs[..|xs| - 1]);
      if xs[|xs| - 1] in seen then seen else seen + [xs[|xs| - 1]]
  }

  /** `xs` with every run of equal neighbours reduced to one. */
  function Dedup(xs: seq<Service>): (r: seq<Service>)
    ensures (r == [] <==> xs == []) && (xs != [] ==> r[|r| - 1] == xs[|xs| - 1])
  {
    if |xs| < 2 then xs
    else if xs[|xs| - 2] == xs[|xs| - 1] then Dedup(xs[..|xs| - 1])
    else Dedup(xs[..|xs| - 1]) + [xs[|xs| - 1]]
  }

  function Second(names: seq<(nat, string)>): (r: seq<string>)
    ensures |r| == |names|
    ensures forall i :: 0 <= i < |r| ==> r[i] == names[i].1
  {
    seq(|names|, i requires 0 <= i < |names| => names[i].1)
  }

  const ByRank: ((nat, string), (nat, string)) -> bool := (a: (nat, string), b: (nat, string)) => a.0 <= b.0

  /** Strongest claims first, each name once. */
  function Hostnames(names: seq<(nat, string)>): seq<string> {
    FirstSeen(Second(Sort(ByRank, names)))
  }

  /** The facts of a message, from what each of its records claims. */
  ghost function FactsOf(records: seq<ResourceRecord>, srcIp: IpAddr): MdnsFacts {
    var claims := Claims(records, srcIp, ProxiedNames(records, srcIp));
    MdnsFacts(Hostnames(NamesOf(claims)), Dedup(ServicesOf(claims)), RefusedIn(claims))
  }

  /** Decode the records of one message sent from `srcIp`. */
  method Decode(records: seq<ResourceRecord>, srcIp: IpAddr) returns (facts: MdnsFacts)
    ensures facts == FactsOf(records, srcIp)
  {
    var proxied := CollectProxied(records, srcIp);
    var names: seq<(nat, string)>, services: seq<Service>, refused := [], [], 0;
    ghost var claims := Claims(records, srcIp, proxied);
    for i := 0 to |records|
      invariant names == NamesOf(claims[..i]) && services == ServicesOf(claims[..i]) && refused == RefusedIn(claims[..i])
    {
      OneClaim(claims[..i], claims[i]);
      assert claims[..i + 1] == claims[..i] + [claims[i]];
      match ClaimOf(records[i], srcIp, proxied) {
        case Named(rank, name) => names := names + [(rank, name)];
        case Offered(service) => services := services + [service];
        case Refused => refused := refused + 1;
        case Nothing =>
      }
    }
    assert claims[..|records|] == claims;
    names := Sort(ByRank, names);
    var hostnames: seq<string> := [];
    for i := 0 to |names|
      invariant hostnames == FirstSeen(Second(names)[..i])
    {
      assert Second(names)[..i + 1][..i] == Second(names)[..i];
      if names[i].1 !in hostnames {
        hostnames := hostnames + [names[i].1];
      }
    }
    assert Second(names)[..|names|] == Second(names);
    return MdnsFacts(hostnames, Dedup(services), refused);
  }

  // ------------------------------------------------------------------------------------- what the facts mean

  /** The reverse name of one address is the reverse name of no other. */
  lemma {:induction false} ReverseNameIsExact(a: IpAddr, b: IpAddr)
    ensures IsReverseOf(ReverseName(a), b) <==> a == b
  {
    if IsReverseOf(ReverseName(a), b) {
      assert IsReverseOf(ReverseName(a), a);
      ReverseNameDetermines(ReverseName(a), a, b);
    }
  }

  lemma {:induction false} JoinEnd(labels: Labels)
    requires labels != [] && labels[|labels| - 1] != ""
    ensures Join(labels) != ""
    ensures Join(labels)[|Join(labels)| - 1] == labels[|labels| - 1][|labels[|labels| - 1]| - 1]
  {
    if |labels| > 1 {
      JoinEnd(labels[1..]);
    }
  }

  lemma {:induction false} JoinSnoc(labels: Labels, last: string)
    requires labels != []
    ensures Join(labels + [last]) == Join(labels) + "." + last
  {
    var whole := labels + [last];
    if |labels| > 1 {
      JoinSnoc(labels[1..], last);
      assert whole[1..] == labels[1..] + [last];
      assert whole[0] + "." + (Join(labels[1..]) + "." + last) == (labels[0] + "." + Join(labels[1..])) + "." + last;
    } else {
      assert whole[1..] == [last] && |whole[1..]| == 1;
    }
  }

  /** The service type of a name is the name without its domain. */
  lemma {:induction false} TypeIsNameWithoutDomain(labels: Labels)
    requires ServiceType(labels).Some?
    ensures Join(labels) == ServiceType(labels).value + ".local"
  {
    var n := |labels| - 1;
    JoinSnoc(labels[..n], LOCAL);
    assert labels[..n] + [labels[n]] == labels;
  }

  /** Which names are types: under `local`, behind a transport, and beginning with an underscore. */
  lemma {:induction false} TypesExactly(labels: Labels)
    ensures ServiceType(labels).Some? <==>
              && (exists front: Labels, transport: string ::
                    labels == front + [transport, "local"] && front != [] && (transport == "_tcp" || transport == "_udp"))
              && labels != [] && labels[0] != "" && labels[0][0] == '_'
  {
    var n := |labels|;
    if n >= 3 {
      assert labels == labels[..n - 2] + [labels[n - 2], labels[n - 1]];
    }
  }

  /** Which names are instances: one more label, not beginning with an underscore, before a type. */
  lemma {:induction false} InstancesExactly(labels: Labels)
    ensures SplitInstance(labels).Some? <==>
              labels != [] && !(labels[0] != "" && labels[0][0] == '_') && ServiceType(labels[1..]).Some?
  {
  }

  /** An instance and its type are the name they were split from. */
  lemma {:induction false} SplitIsWhole(labels: Labels)
    requires SplitInstance(labels).Some?
    ensures var (service, instance) := SplitInstance(labels).value;
            Join(labels) == instance + "." + service + ".local" && ServiceType(labels).None?
  {
    TypeIsNameWithoutDomain(labels[1..]);
    var (service, instance) := SplitInstance(labels).value;
    assert Join(labels) == instance + "." + (service + ".local");
  }

  /** A reverse-lookup name is neither the meta-query name nor a service type. */
  lemma {:induction false} ReverseIsNoService(owner: Labels, ip: IpAddr)
    requires IsReverseOf(owner, ip)
    ensures Join(owner) != SERVICES_META && ServiceType(owner).None?
  {
    var last := owner[|owner| - 1];
    assert EqIgnoreCase(last, "arpa");
    assert Lower(last)[3] == LowerChar(last[3]) && Lower("arpa")[3] == 'a';
    JoinEnd(owner);
    assert SERVICES_META[|SERVICES_META| - 1] == 'l' && LOCAL[4] == 'l';
  }

  /** A pointer record whose owner spells `ip` backwards, naming `name`. */
  predicate PointsBack(rr: ResourceRecord, ip: IpAddr, name: string) {
    rr.rdata.Ptr? && IsReverseOf(rr.name, ip) && Join(rr.rdata.target) == name
  }

  /** The instance a service record is about: the owner of an SRV, the target of a pointer under a type. */
  function InstanceOf(rr: ResourceRecord): Option<string> {
    match rr.rdata
    case Srv(_) => Some(Join(rr.name))
    case Ptr(target) => if Join(rr.name) == SERVICES_META then None else Some(Join(target))
    case _ => None
  }

  /** The service a record describes, whoever's it is. */
  function ServiceIn(rr: ResourceRecord): Option<Service> {
    match rr.rdata
    case Srv(_) =>
      var split := SplitInstance(rr.name);
      if split.None? then None else Some((split.value.0, Some(split.value.1)))
    case Ptr(target) =>
      var service := ServiceType(if Join(rr.name) == SERVICES_META then target else rr.name);
      var split := SplitInstance(target);
      if service.None? then None
      else if Join(rr.name) == SERVICES_META || split.None? then Some((service.value, None))
      else Some((service.value, Some(split.value.1)))
    case _ => None
  }

  /** Somebody else's service: its instance has an SRV target tied only to other addresses. */
  ghost predicate Foreign(records: seq<ResourceRecord>, srcIp: IpAddr, rr: ResourceRecord) {
    InstanceOf(rr).Some? && InstanceOf(rr).value in ProxiedNames(records, srcIp)
  }

  lemma {:induction false} ClaimMeans(records: seq<ResourceRecord>, srcIp: IpAddr, rr: ResourceRecord)
    ensures var c := ClaimOf(rr, srcIp, ProxiedNames(records, srcIp));
            && (c.Refused? <==> ServiceIn(rr).Some? && Foreign(records, srcIp, rr))
            && (forall s :: c == Offered(s) <==> ServiceIn(rr) == Some(s) && !Foreign(records, srcIp, rr))
            && (forall n :: c == Named(0, n) <==> Join(rr.name) == n && AddressOf(rr) == Some(srcIp))
            && (forall n :: c == Named(1, n) <==> PointsBack(rr, srcIp, n))
            && (c.Named? ==> c.rank <= 1)
  {
    if rr.rdata.Ptr? && IsReverseOf(rr.name, srcIp) {
      ReverseIsNoService(rr.name, srcIp);
    }
  }

  lemma {:induction false} ClaimMembers(claims: seq<Claim>)
    ensures forall s :: s in ServicesOf(claims) <==> Offered(s) in claims
    ensures forall r: nat, n :: (r, n) in NamesOf(claims) <==> Named(r, n) in claims
  {
    if claims != [] {
      var front, last := claims[..|claims| - 1], claims[|claims| - 1];
      ClaimMembers(front);
      assert claims == front + [last];
    }
  }

  lemma {:induction false} DedupMembers(xs: seq<Service>)
    ensures forall x :: x in Dedup(xs) <==> x in xs
    ensures forall i :: 0 < i < |Dedup(xs)| ==> Dedup(xs)[i - 1] != Dedup(xs)[i]
  {
    if |xs| >= 2 {
      DedupMembers(xs[..|xs| - 1]);
      assert xs == xs[..|xs| - 1] + [xs[|xs| - 1]];
    }
  }

  /** A service is on the sender's row exactly when some record describes it that is not on another's behalf. */
  lemma {:induction false} ServicesAreTheSenders(records: seq<ResourceRecord>, srcIp: IpAddr, s: Service)
    ensures s in FactsOf(records, srcIp).services <==>
              exists rr :: rr in records && ServiceIn(rr) == Some(s) && !Foreign(records, srcIp, rr)
  {
    var claims := Claims(records, srcIp, ProxiedNames(records, srcIp));
    ClaimMembers(claims);
    DedupMembers(ServicesOf(claims));
    forall rr ensures ClaimOf(rr, srcIp, ProxiedNames(records, srcIp)) == Offered(s) <==>
                        ServiceIn(rr) == Some(s) && !Foreign(records, srcIp, rr) {
      ClaimMeans(records, srcIp, rr);
    }
    if Offered(s) in claims {
      var i :| 0 <= i < |claims| && claims[i] == Offered(s);
      assert records[i] in records;
    }
  }

  predicate IsServiceRecord(rr: ResourceRecord) {
    ServiceIn(rr).Some?
  }

  lemma {:induction false} ServiceClaims(records: seq<ResourceRecord>, srcIp: IpAddr, rr: ResourceRecord)
    ensures var c := ClaimOf(rr, srcIp, ProxiedNames(records, srcIp));
            IsServiceRecord(rr) <==> c.Offered? || c.Refused?
  {
    ClaimMeans(records, srcIp, rr);
    var c := ClaimOf(rr, srcIp, ProxiedNames(records, srcIp));
    if c.Offered? {
      assert c == Offered(c.service);
    }
    if IsServiceRecord(rr) && !Foreign(records, srcIp, rr) {
      assert ServiceIn(rr) == Some(ServiceIn(rr).value);
    }
  }

  lemma {:induction false} ServicesCounted(claims: seq<Claim>, records: seq<ResourceRecord>)
    requires |claims| == |records|
    requires forall i :: 0 <= i < |records| ==> (IsServiceRecord(records[i]) <==> claims[i].Offered? || claims[i].Refused?)
    ensures |ServicesOf(claims)| + RefusedIn(claims) == |Filter(IsServiceRecord, records)|
  {
    var n := |records|;
    if n > 0 {
      ServicesCounted(claims[..n - 1], records[..n - 1]);
      FilterConcat(IsServiceRecord, records[..n - 1], [records[n - 1]]);
      assert records == records[..n - 1] + [records[n - 1]];
    }
  }

  /** Before neighbours are merged, every record describing a service is either kept or counted as refused. */
  lemma {:induction false} EveryServiceRecordCounted(records: seq<ResourceRecord>, srcIp: IpAddr)
    ensures var claims := Claims(records, srcIp, ProxiedNames(records, srcIp));
            |ServicesOf(claims)| + FactsOf(records, srcIp).proxied == |Filter(IsServiceRecord, records)|
  {
    var claims := Claims(records, srcIp, ProxiedNames(records, srcIp));
    forall i | 0 <= i < |records| ensures IsServiceRecord(records[i]) <==> claims[i].Offered? || claims[i].Refused? {
      ServiceClaims(records, srcIp, records[i]);
    }
    ServicesCounted(claims, records);
  }

  lemma {:induction false} FirstSeenMembers(xs: seq<string>)
    ensures forall x :: x in FirstSeen(xs) <==> x in xs
    ensures Distinct(FirstSeen(xs))
  {
    if xs != [] {
      FirstSeenMembers(xs[..|xs| - 1]);
      assert xs == xs[..|xs| - 1] + [xs[|xs| - 1]];
    }
  }

  lemma {:induction false} FirstSeenPrefix(xs: seq<string>, ys: seq<string>)
    ensures FirstSeen(xs) <= FirstSeen(xs + ys)
  {
    if ys == [] {
      assert xs + ys == xs;
    } else {
      FirstSeenPrefix(xs, ys[..|ys| - 1]);
      assert (xs + ys)[..|xs + ys| - 1] == xs + ys[..|ys| - 1];
    }
  }

  const OfRank: nat -> (((nat, string)) -> bool) := (r: nat) => ((n: (nat, string)) => n.0 == r)

  /** A list in rank order is its rank-0 part followed by its rank-1 part. */
  lemma {:induction false} RankParts(xs: seq<(nat, string)>)
    requires SortedBy(ByRank, xs) && forall n :: n in xs ==> n.0 <= 1
    ensures xs == Filter(OfRank(0), xs) + Filter(OfRank(1), xs)
  {
    if xs != [] {
      var rest := xs[1..];
      assert xs == [xs[0]] + rest;
      RankParts(rest);
      if xs[0].0 == 1 {
        NoneStronger(xs);
      }
    }
  }

  /** Behind a name of rank 1 there is none of rank 0. */
  lemma {:induction false} NoneStronger(xs: seq<(nat, string)>)
    requires SortedBy(ByRank, xs) && xs != [] && xs[0].0 == 1
    ensures Filter(OfRank(0), xs[1..]) == []
  {
    var rest := xs[1..];
    forall n | n in rest ensures n.0 >= 1 {
      var i :| 0 <= i < |rest| && rest[i] == n;
      assert ByRank(xs[0], xs[i + 1]);
    }
    if Filter(OfRank(0), rest) != [] {
      FilterMember(OfRank(0), rest, Filter(OfRank(0), rest)[0]);
    }
  }

  /** The names the sender's own address records carry, then the ones reverse pointers give, in record order. */
  ghost function NamesOfRank(records: seq<ResourceRecord>, srcIp: IpAddr, rank: nat): seq<string> {
    Second(Filter(OfRank(rank), NamesOf(Claims(records, srcIp, ProxiedNames(records, srcIp)))))
  }

  lemma {:induction false} SortedRanks(records: seq<ResourceRecord>, srcIp: IpAddr)
    ensures forall n :: n in Sort(ByRank, NamesOf(Claims(records, srcIp, ProxiedNames(records, srcIp)))) ==> n.0 <= 1
  {
    var claims := Claims(records, srcIp, ProxiedNames(records, srcIp));
    var sorted := Sort(ByRank, NamesOf(claims));
    SortSorts(ByRank, NamesOf(claims));
    ClaimMembers(claims);
    forall n | n in sorted ensures n.0 <= 1 {
      assert n in multiset(sorted);
      assert (n.0, n.1) in NamesOf(claims);
      var i :| 0 <= i < |claims| && claims[i] == Named(n.0, n.1);
      ClaimMeans(records, srcIp, records[i]);
    }
  }

  lemma {:induction false} SortSplits(names: seq<(nat, string)>)
    requires forall n :: n in Sort(ByRank, names) ==> n.0 <= 1
    ensures Sort(ByRank, names) == Filter(OfRank(0), names) + Filter(OfRank(1), names)
  {
    SortSorts(ByRank, names);
    SortStable(ByRank, OfRank(0), names);
    SortStable(ByRank, OfRank(1), names);
    RankParts(Sort(ByRank, names));
  }

  lemma {:induction false} HostnamesByRank(records: seq<ResourceRecord>, srcIp: IpAddr)
    ensures FactsOf(records, srcIp).hostnames == FirstSeen(NamesOfRank(records, srcIp, 0) + NamesOfRank(records, srcIp, 1))
  {
    var names := NamesOf(Claims(records, srcIp, ProxiedNames(records, srcIp)));
    SortedRanks(records, srcIp);
    SortSplits(names);
    var own, back := Filter(OfRank(0), names), Filter(OfRank(1), names);
    assert Second(own + back) == Second(own) + Second(back);
  }

  lemma {:induction false} RankMeans(records: seq<ResourceRecord>, srcIp: IpAddr, name: string)
    ensures name in NamesOfRank(records, srcIp, 0) <==> Ties(records, name, srcIp)
    ensures name in NamesOfRank(records, srcIp, 1) <==> exists rr :: rr in records && PointsBack(rr, srcIp, name)
  {
    var claims := Claims(records, srcIp, ProxiedNames(records, srcIp));
    var names := NamesOf(claims);
    ClaimMembers(claims);
    forall rr ensures && (ClaimOf(rr, srcIp, ProxiedNames(records, srcIp)) == Named(0, name) <==>
                          Join(rr.name) == name && AddressOf(rr) == Some(srcIp))
                      && (ClaimOf(rr, srcIp, ProxiedNames(records, srcIp)) == Named(1, name) <==> PointsBack(rr, srcIp, name)) {
      ClaimMeans(records, srcIp, rr);
    }
    forall r: nat ensures name in Second(Filter(OfRank(r), names)) <==> Named(r, name) in claims {
      FilterMember(OfRank(r), names, (r, name));
      if name in Second(Filter(OfRank(r), names)) {
        var i :| 0 <= i < |Filter(OfRank(r), names)| && Second(Filter(OfRank(r), names))[i] == name;
        FilterMember(OfRank(r), names, Filter(OfRank(r), names)[i]);
      }
      if (r, name) in Filter(OfRank(r), names) {
        var i :| 0 <= i < |Filter(OfRank(r), names)| && Filter(OfRank(r), names)[i] == (r, name);
        assert Second(Filter(OfRank(r), names))[i] == name;
      }
    }
    if Named(0, name) in claims {
      var i :| 0 <= i < |claims| && claims[i] == Named(0, name);
      assert Join(records[i].name) == name && AddressOf(records[i]) == Some(srcIp);
    }
    if Ties(records, name, srcIp) {
      var i :| 0 <= i < |records| && Join(records[i].name) == name && AddressOf(records[i]) == Some(srcIp);
      assert claims[i] == Named(0, name);
    }
    if Named(1, name) in claims {
      var i :| 0 <= i < |claims| && claims[i] == Named(1, name);
      assert records[i] in records && PointsBack(records[i], srcIp, name);
    }
    if rr :| rr in records && PointsBack(rr, srcIp, name) {
      var i :| 0 <= i < |records| && records[i] == rr;
      assert claims[i] == Named(1, name);
    }
  }

  /** The hostnames are exactly the names tied to the source, each once, address records before pointers. */
  lemma {:induction false} HostnamesAreTied(records: seq<ResourceRecord>, srcIp: IpAddr)
    ensures var names := FactsOf(records, srcIp).hostnames;
            && Distinct(names)
            && (forall name :: name in names <==>
                  Ties(records, name, srcIp) || exists rr :: rr in records && PointsBack(rr, srcIp, name))
            && (forall i, j :: 0 <= i < j < |names| && Ties(records, names[j], srcIp) ==> Ties(records, names[i], srcIp))
  {
    var names := FactsOf(records, srcIp).hostnames;
    var own, back := NamesOfRank(records, srcIp, 0), NamesOfRank(records, srcIp, 1);
    HostnamesByRank(records, srcIp);
    FirstSeenMembers(own + back);
    FirstSeenMembers(own);
    FirstSeenPrefix(own, back);
    forall name ensures && (name in own <==> Ties(records, name, srcIp))
                        && (name in back <==> exists rr :: rr in records && PointsBack(rr, srcIp, name)) {
      RankMeans(records, srcIp, name);
    }
    forall i, j | 0 <= i < j < |names| && Ties(records, names[j], srcIp) ensures Ties(records, names[i], srcIp) {
      var first := FirstSeen(own);
      assert names[j] in first;
      var k :| 0 <= k < |first| && first[k] == names[j];
      assert names[k] == names[j];
      assert names[i] == first[i];
    }
  }
}
