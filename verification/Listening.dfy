/**
 The listener from end to end: the window of `window.rs` fed with the flushes of `source.rs` and reading frames
 with the decoders of `dhcp.rs` and `mdns.rs`.

 Slicing a frame, parsing a DNS message into records, SSDP text and UTF-8 stay parameters.
 */
module Listening {
  import opened Prelude
  import AnnounceSource
  import Dhcp
  import Mdns
  import opened Frames
  import opened Tables
  import opened Window

  /** An address as octets, and as the number the window keys it by. */
  function InOctets(ip: IpAddr): Mdns.IpAddr {
    match ip
    case V4(n) => Mdns.V4(Octets(n, 4))
    case V6(n) => Mdns.V6(Octets(n, 16))
  }

  function InNumber(ip: Mdns.IpAddr): IpAddr {
    match ip
    case V4(o) => V4(Number(o))
    case V6(o) => V6(Number(o))
  }

  lemma {:induction false} SameAddress(ip: Mdns.IpAddr)
    ensures InOctets(InNumber(ip)) == ip
  {
    NumberSpells(if ip.V4? then ip.v4 else ip.v6);
  }

  datatype Parsers = Parsers(
    records: seq<Byte> -> Option<seq<Mdns.ResourceRecord>>, ssdp: seq<Byte> -> Option<SsdpFacts>, text: Dhcp.Text)

  ghost function MdnsFactsOf(p: Parsers, payload: seq<Byte>, ip: IpAddr): Option<Mdns.MdnsFacts> {
    var records := p.records(payload);
    if records.None? then None else Some(Mdns.FactsOf(records.value, InOctets(ip)))
  }

  /** The decoders the source reads frames with. */
  ghost function DecodersOf(p: Parsers): Decoders {
    Decoders((payload: seq<Byte>, ip: IpAddr) => MdnsFactsOf(p, payload, ip), p.ssdp, (payload: seq<Byte>) => Dhcp.Decoded(payload, p.text))
  }

  // ------------------------------------------------------------------------------------- addresses

  /** DHCP pairs an address only with the very client whose hardware address the message carries. */
  lemma {:induction false} PairsItsClient(msg: Dhcp.DhcpMessage, client: Dhcp.Mac, ip: IpAddr)
    requires DhcpPairs(msg, Number(client), ip)
    ensures msg.chaddr == client
  {
    NumberInjective(msg.chaddr, client);
  }

  /**
   What the guard lets through: a DHCP request from a third MAC, naming the gateway's as its client and any address
   as the one held, puts that address on the gateway.
   */
  lemma {:induction false} RequestReachesGateway(
      l: Listener, p: Parsers, gateway: Dhcp.Mac, third: Mac, srcIp: IpAddr, held: Dhcp.Ipv4)
    returns (frame: Frame)
    requires l.gateway == Some(Number(gateway)) && !l.IsOwn(Number(gateway))
    requires !l.IsOwn(third) && third != Number(gateway) && held != [0, 0, 0, 0]
    ensures frame.srcMac == third && frame.heard.Udp? && frame.heard.srcIp == srcIp
    ensures Sighted(Number(gateway), V4(Number(held))) in Sayings(l, DecodersOf(p), frame)
  {
    var payload := Dhcp.WriteMessage(Dhcp.Request, gateway, held, [0, 0, 0, 0], []);
    frame := Frame(third, Udp(srcIp, DHCP_CLIENT_PORT, DHCP_SERVER_PORT, payload));
    Dhcp.MessageRoundTrip(Dhcp.Request, gateway, held, [0, 0, 0, 0], [], [], p.text);
    assert payload + [] == payload;
    var msg := Dhcp.Decoded(payload, p.text).value;
    assert msg.chaddr == gateway && msg.ciaddr == Some(held);
    var ip := V4(Number(held));
    assert ClientSays(l, msg)[0] == Sighted(Number(gateway), ip);
    assert forall s :: s in ClientSays(l, msg) ==> s in UdpSays(l, DecodersOf(p), third, srcIp, DHCP_CLIENT_PORT, DHCP_SERVER_PORT, payload);
  }

  // ------------------------------------------------------------------------------------- names

  /** An mDNS message names its sender: by an address record, or by a reverse pointer when it has none of its own. */
  ghost predicate MdnsNames(p: Parsers, f: Frame, mac: Mac, name: string) {
    && f.srcMac == mac && f.heard.Udp? && IsPort(MDNS_PORT, f.heard.srcPort, f.heard.dstPort)
    && p.records(f.heard.payload).Some?
    && var records, ip := p.records(f.heard.payload).value, InOctets(f.heard.srcIp);
       || Mdns.Ties(records, name, ip)
       || ((exists rr :: rr in records && Mdns.PointsBack(rr, ip, name)) && forall n :: !Mdns.Ties(records, n, ip))
  }

  /** A DHCP client names itself. */
  ghost predicate DhcpNames(p: Parsers, f: Frame, mac: Mac, name: string) {
    && f.heard.Udp? && OnDhcpPort(f.heard.srcPort, f.heard.dstPort)
    && var msg := Dhcp.Decoded(f.heard.payload, p.text);
       msg.Some? && msg.value.op.Request? && Number(msg.value.chaddr) == mac && msg.value.hostname == Some(name)
  }

  /** The strongest claim comes first, so a name the message ties to its sender wins over one only pointed back to. */
  lemma {:induction false} FirstHostname(records: seq<Mdns.ResourceRecord>, ip: Mdns.IpAddr)
    requires Mdns.FactsOf(records, ip).hostnames != []
    ensures var name := Mdns.FactsOf(records, ip).hostnames[0];
            || Mdns.Ties(records, name, ip)
            || ((exists rr :: rr in records && Mdns.PointsBack(rr, ip, name)) && forall n :: !Mdns.Ties(records, n, ip))
  {
    var names := Mdns.FactsOf(records, ip).hostnames;
    Mdns.HostnamesAreTied(records, ip);
    assert names[0] in names;
    forall n | Mdns.Ties(records, n, ip) ensures Mdns.Ties(records, names[0], ip) {
      assert n in names;
      var j :| 0 <= j < |names| && names[j] == n;
    }
  }

  lemma {:induction false} NameSaid(l: Listener, p: Parsers, f: Frame, mac: Mac, name: string)
    requires Named(mac, name) in Sayings(l, DecodersOf(p), f) || Waits(mac, name) in Sayings(l, DecodersOf(p), f)
    ensures MdnsNames(p, f, mac, name) || DhcpNames(p, f, mac, name)
  {
    var d := DecodersOf(p);
    var src, srcIp, payload := f.srcMac, f.heard.srcIp, f.heard.payload;
    assert Named(mac, name) in UdpSays(l, d, src, srcIp, f.heard.srcPort, f.heard.dstPort, payload)
        || Waits(mac, name) in UdpSays(l, d, src, srcIp, f.heard.srcPort, f.heard.dstPort, payload);
    if IsPort(MDNS_PORT, f.heard.srcPort, f.heard.dstPort) {
      var facts := MdnsFactsOf(p, payload, srcIp).value;
      NameIsFirst(src, srcIp, facts, mac, name);
      FirstHostname(p.records(payload).value, InOctets(srcIp));
    }
  }

  lemma {:induction false} NameIsFirst(src: Mac, srcIp: IpAddr, facts: Mdns.MdnsFacts, mac: Mac, name: string)
    requires Named(mac, name) in MdnsSays(src, srcIp, facts) || Waits(mac, name) in MdnsSays(src, srcIp, facts)
    ensures facts.hostnames != [] && name == facts.hostnames[0] && mac == src
  {
    MdnsSaysOfSender(src, srcIp, facts.services);
  }

  /**
   A name on a row is one its device was given: tied to the sender's own address by an mDNS message of that very
   sender, or sent as its own by a DHCP client of that hardware address.
   */
  lemma {:induction false} NamesAreTied(l: Listener, p: Parsers, frames: seq<Option<Frame>>, mac: Mac, name: string)
    requires NamedBy(l, DecodersOf(p), frames, mac, name)
    ensures exists f :: Some(f) in frames && (MdnsNames(p, f, mac, name) || DhcpNames(p, f, mac, name))
  {
    var f :| Some(f) in frames
      && (Named(mac, name) in Sayings(l, DecodersOf(p), f) || Waits(mac, name) in Sayings(l, DecodersOf(p), f));
    NameSaid(l, p, f, mac, name);
  }

  /** In a frame sent from `ip`, that is the very address the message ties the name to. */
  lemma {:induction false} TiedToSender(p: Parsers, f: Frame, mac: Mac, name: string, ip: Mdns.IpAddr)
    requires MdnsNames(p, f, mac, name) && f.heard.srcIp == InNumber(ip)
    ensures var records := p.records(f.heard.payload).value;
            Mdns.Ties(records, name, ip) || exists rr :: rr in records && Mdns.PointsBack(rr, ip, name)
  {
    SameAddress(ip);
  }

  // ------------------------------------------------------------------------------------- flushes

  /** Slicing a captured frame, and reading a segment's key as the gateway's hardware address. */
  datatype Slicer = Slicer(frame: seq<Byte> -> Option<Frame>, gateway: string -> Option<Mac>)

  function ListenerOf(s: Slicer, identity: AnnounceSource.Identity): Listener {
    Listener(
      if identity.ownMac.Some? then Some(Number(identity.ownMac.value)) else None,
      if identity.networkKey.Some? then s.gateway(identity.networkKey.value) else None)
  }

  function Sliced(s: Slicer, frames: seq<seq<Byte>>): (r: seq<Option<Frame>>)
    ensures |r| == |frames| && forall i :: 0 <= i < |r| ==> r[i] == s.frame(frames[i])
  {
    seq(|frames|, i requires 0 <= i < |frames| => s.frame(frames[i]))
  }

  /** The frames of every flush are frames of the stream. */
  lemma {:induction false} FlushIsHeard(batches: seq<seq<AnnounceSource.Sample>>, b: nat, flush: AnnounceSource.Sample)
    requires b < |batches| && flush in batches[b] && flush.Flush?
    ensures forall f :: f in flush.frames ==> f in AnnounceSource.Flushed(batches)
  {
    if b == 0 {
      InBatch(batches[0], flush);
    } else {
      FlushIsHeard(batches[1..], b - 1, flush);
    }
  }

  lemma {:induction false} InBatch(batch: seq<AnnounceSource.Sample>, flush: AnnounceSource.Sample)
    requires flush in batch && flush.Flush?
    ensures forall f :: f in flush.frames ==> f in AnnounceSource.FlushedIn(batch)
  {
    if batch[0] != flush {
      assert batch == [batch[0]] + batch[1..];
      InBatch(batch[1..], flush);
    }
  }

  /** Some record of the stream is a frame that pairs `ip` with `mac`. */
  ghost predicate PairedInStream(source: AnnounceSource.AnnounceSource, s: Slicer, l: Listener, d: Decoders, mac: Mac, ip: IpAddr) {
    exists bytes, f :: bytes in source.all && s.frame(bytes) == Some(f) && PairsAddress(l, d, f, mac, ip)
  }

  /** A flush of the source as rows: each is a device that a frame of the capture paired with the row's address. */
  method RowsOf(source: AnnounceSource.AnnounceSource, s: Slicer, d: Decoders, b: nat, flush: AnnounceSource.Sample)
    returns (sample: Sample)
    requires source.Valid() && b < |source.batches| && flush in source.batches[b] && flush.Flush?
    ensures var l := ListenerOf(s, flush.identity);
            forall mac :: mac in sample.neighbors ==>
              && IsUnicast(mac) && !l.IsOwn(mac)
              && PairedInStream(source, s, l, d, mac, sample.neighbors[mac].ip)
              && (sample.neighbors[mac].hostname.Some? ==>
                    NamedBy(l, d, Sliced(s, flush.frames), mac, sample.neighbors[mac].hostname.value))
  {
    var l := ListenerOf(s, flush.identity);
    FromTheStream(source, s, l, d, b, flush);
    sample := Reading(l, d, Sliced(s, flush.frames));
  }

  lemma {:induction false} FromTheStream(
      source: AnnounceSource.AnnounceSource, s: Slicer, l: Listener, d: Decoders, b: nat, flush: AnnounceSource.Sample)
    requires source.Valid() && b < |source.batches| && flush in source.batches[b] && flush.Flush?
    ensures forall mac, ip :: Paired(l, d, Sliced(s, flush.frames), mac, ip) ==> PairedInStream(source, s, l, d, mac, ip)
  {
    var sliced := Sliced(s, flush.frames);
    FlushIsHeard(source.batches, b, flush);
    AnnounceSource.FlushedIsPrefix(source);
    forall mac, ip | Paired(l, d, sliced, mac, ip) ensures PairedInStream(source, s, l, d, mac, ip) {
      var f :| Some(f) in sliced && PairsAddress(l, d, f, mac, ip);
      var i :| 0 <= i < |sliced| && sliced[i] == Some(f);
      assert flush.frames[i] in flush.frames;
    }
  }
}
