/**
 What captured frames say of the devices on the segment (`window.rs`, `absorb` and what it calls): each frame is
 reduced to its `Sayings`, under the guards against our own frames and against what the gateway forwards.

 Slicing Ethernet frames, parsing DNS messages and SSDP text are parameters.
 */
module Frames {
  import opened Prelude
  import Dhcp
  import Mdns

  /** An Ethernet address as its 48-bit number, an IP address as the number its octets spell. */
  type Mac = nat

  datatype IpAddr = V4(v4: nat) | V6(v6: nat)

  const MDNS_PORT: nat := 5353
  const SSDP_PORT: nat := 1900
  const DHCP_SERVER_PORT: nat := 67
  const DHCP_CLIENT_PORT: nat := 68
  const DHCP_SERVER_SERVICE: string := "dhcp-server"
  const DHCP_VENDOR_CLASS_SERVICE: string := "vendor-class"

  datatype Kind = FromMdns | FromSsdp | FromDhcp

  datatype Detail = Absent | Text(text: string) | Type(messageType: Dhcp.MessageType)

  datatype Heard =
    | Arp(senderMac: Mac, senderIp: nat, reply: bool)
    | Udp(srcIp: IpAddr, srcPort: nat, dstPort: nat, payload: seq<Byte>)
    | Other

  datatype Frame = Frame(srcMac: Mac, heard: Heard)

  datatype SsdpFacts = SsdpFacts(service: string, detail: Option<string>)

  /** The protocol decoders, each total over payloads. */
  datatype Decoders = Decoders(
    mdns: (seq<Byte>, IpAddr) -> Option<Mdns.MdnsFacts>,
    ssdp: seq<Byte> -> Option<SsdpFacts>,
    dhcp: seq<Byte> -> Option<Dhcp.DhcpMessage>)

  predicate IsUnicast(mac: Mac) {
    mac / 0x100_0000_0000 % 2 == 0 && mac != 0xffff_ffff_ffff && mac != 0
  }

  /** Whether an IP source can name a device: no unspecified, group, broadcast or loopback address. */
  predicate Addressable(ip: IpAddr) {
    match ip
    case V4(a) => a != 0 && a / 0x1000_0000 != 0xe && a != 0xffff_ffff && a / 0x100_0000 != 127
    case V6(a) => a != 0 && a / 0x100_0000_0000_0000_0000_0000_0000_0000 != 0xff && a != 1
  }

  /** The number big-endian octets spell. */
  function Number(octets: seq<Byte>): nat {
    if octets == [] then 0 else 0x100 * Number(octets[..|octets| - 1]) + octets[|octets| - 1]
  }

  /** The `len` octets that spell a number. */
  function Octets(n: nat, len: nat): (o: seq<Byte>)
    ensures |o| == len
  {
    if len == 0 then [] else Octets(n / 0x100, len - 1) + [n % 0x100]
  }

  /** A number stands for exactly the octets that spell it. */
  lemma {:induction false} NumberSpells(octets: seq<Byte>)
    ensures Octets(Number(octets), |octets|) == octets
  {
    if octets != [] {
      NumberSpells(octets[..|octets| - 1]);
    }
  }

  /** Addresses of one length are told apart by their numbers. */
  lemma {:induction false} NumberInjective(a: seq<Byte>, b: seq<Byte>)
    requires |a| == |b| && Number(a) == Number(b)
    ensures a == b
  {
    NumberSpells(a);
    NumberSpells(b);
  }

  ghost function Power(n: nat): nat {
    if n == 0 then 1 else 0x100 * Power(n - 1)
  }

  ghost predicate AllAre(octets: seq<Byte>, b: Byte) {
    forall i :: 0 <= i < |octets| ==> octets[i] == b
  }

  /** The least and the greatest number are spelled by zeros and by ones alone. */
  lemma {:induction false} NumberExtremes(octets: seq<Byte>)
    ensures Number(octets) < Power(|octets|)
    ensures Number(octets) == 0 <==> AllAre(octets, 0)
    ensures Number(octets) == Power(|octets|) - 1 <==> AllAre(octets, 0xff)
  {
    if octets != [] {
      var front := octets[..|octets| - 1];
      NumberExtremes(front);
      AllSnoc(octets, 0);
      AllSnoc(octets, 0xff);
    }
  }

  lemma {:induction false} AllSnoc(octets: seq<Byte>, b: Byte)
    requires octets != []
    ensures AllAre(octets, b) <==> AllAre(octets[..|octets| - 1], b) && octets[|octets| - 1] == b
  {
    assert octets == octets[..|octets| - 1] + [octets[|octets| - 1]];
  }

  lemma {:induction false} FirstOctet(octets: seq<Byte>)
    requires octets != []
    ensures Power(|octets| - 1) > 0 && Number(octets) / Power(|octets| - 1) == octets[0]
  {
    if |octets| == 1 {
      assert Number(octets[..0]) == 0;
    } else {
      var front, last := octets[..|octets| - 1], octets[|octets| - 1];
      FirstOctet(front);
      DivideDown(Number(front), last, Power(|front| - 1));
    }
  }

  lemma {:induction false} DivideDown(n: nat, last: Byte, p: nat)
    requires p > 0
    ensures (0x100 * n + last) / (0x100 * p) == n / p
  {
    var q, r := n / p, n % p;
    assert n == q * p + r;
    assert 0x100 * n + last == q * (0x100 * p) + (0x100 * r + last);
    assert 0 <= 0x100 * r + last < 0x100 * p;
    Quotient(q, 0x100 * r + last, 0x100 * p);
  }

  lemma {:induction false} Quotient(q: nat, r: nat, p: nat)
    requires r < p
    ensures (q * p + r) / p == q
  {
    var d, m := (q * p + r) / p, (q * p + r) % p;
    assert (d - q) * p == r - m;
    SmallMultiple(d - q, p);
  }

  lemma {:induction false} SmallMultiple(k: int, p: nat)
    requires k * p < p && -(k * p) < p
    ensures k == 0
  {
  }

  lemma {:induction false} Powers()
    ensures Power(3) == 0x100_0000 && Power(4) == 0x1_0000_0000 && Power(5) == 0x100_0000_0000 && Power(6) == 0x1_0000_0000_0000
    ensures Power(15) == 0x100_0000_0000_0000_0000_0000_0000_0000
  {
    assert Power(7) == 0x100 * Power(6) && Power(9) == 0x1_0000 * Power(7) && Power(11) == 0x1_0000 * Power(9);
    assert Power(13) == 0x1_0000 * Power(11) && Power(15) == 0x1_0000 * Power(13);
  }

  /** In octets: a MAC can name a device unless its first octet has the group bit, or it is all ones or all zeros. */
  lemma {:induction false} UnicastMeans(octets: seq<Byte>)
    requires |octets| == 6
    ensures IsUnicast(Number(octets)) <==> octets[0] % 2 == 0 && !AllAre(octets, 0xff) && !AllAre(octets, 0)
  {
    Powers();
    FirstOctet(octets);
    NumberExtremes(octets);
  }

  /** An IPv4 source can: not 0.0.0.0, 224.0.0.0/4, 255.255.255.255 or 127.0.0.0/8. */
  lemma {:induction false} AddressableV4(octets: seq<Byte>)
    requires |octets| == 4
    ensures Addressable(V4(Number(octets))) <==>
              !AllAre(octets, 0) && !(224 <= octets[0] < 240) && !AllAre(octets, 0xff) && octets[0] != 127
  {
    Powers();
    FirstOctet(octets);
    NumberExtremes(octets);
    assert Number(octets) / 0x1000_0000 == Number(octets) / 0x100_0000 / 0x10;
  }

  /** An IPv6 source can: not ::, ff00::/8 or ::1. */
  lemma {:induction false} AddressableV6(octets: seq<Byte>)
    requires |octets| == 16
    ensures Addressable(V6(Number(octets))) <==>
              !AllAre(octets, 0) && octets[0] != 0xff && !(AllAre(octets[..15], 0) && octets[15] == 1)
  {
    Powers();
    FirstOctet(octets);
    NumberExtremes(octets);
    NumberExtremes(octets[..15]);
  }

  // ------------------------------------------------------------------------------------- what a frame says

  /** One thing a frame says of a device. */
  datatype Saying =
    | Sighted(mac: Mac, ip: IpAddr)
    | Named(mac: Mac, name: string)
    | Offers(mac: Mac, from: Option<IpAddr>, service: string, kind: Kind, detail: Detail)
    | Waits(mac: Mac, name: string)
    | Granted(mac: Mac, ip: IpAddr)

  /** Who is listening: our own MAC when it could be read, and the gateway's. */
  datatype Listener = Listener(own: Option<Mac>, gateway: Option<Mac>) {
    predicate IsOwn(mac: Mac) { own == Some(mac) }
  }

  function DetailOf(text: Option<string>): Detail {
    if text.Some? then Text(text.value) else Absent
  }

  function MdnsOffers(src: Mac, srcIp: IpAddr, services: seq<Mdns.Service>): seq<Saying> {
    if services == [] then []
    else
      var last := services[|services| - 1];
      MdnsOffers(src, srcIp, services[..|services| - 1]) + [Offers(src, Some(srcIp), last.0, FromMdns, DetailOf(last.1))]
  }

  function MdnsSays(src: Mac, srcIp: IpAddr, facts: Mdns.MdnsFacts): seq<Saying> {
    (if facts.hostnames == [] then [] else [Named(src, facts.hostnames[0])]) + MdnsOffers(src, srcIp, facts.services)
  }

  function Ip4(octets: Option<Dhcp.Ipv4>): Option<IpAddr> {
    if octets.Some? then Some(V4(Number(octets.value))) else None
  }

  function ClientSays(l: Listener, msg: Dhcp.DhcpMessage): seq<Saying> {
    var client, addr := Number(msg.chaddr), Ip4(msg.ciaddr);
    if l.IsOwn(client) then []
    else
      (if addr.Some? then [Sighted(client, addr.value)] else []) +
      (if msg.hostname.None? then []
       else if addr.Some? then [Named(client, msg.hostname.value)]
       else [Waits(client, msg.hostname.value)]) +
      (if msg.vendorClass.None? then []
       else [Offers(client, addr, DHCP_VENDOR_CLASS_SERVICE, FromDhcp, Text(msg.vendorClass.value))])
  }

  function ServerSays(l: Listener, src: Mac, srcIp: IpAddr, msg: Dhcp.DhcpMessage): seq<Saying> {
    var client, server := Number(msg.chaddr), Ip4(msg.serverId);
    [Offers(src, if server.Some? then server else Some(srcIp), DHCP_SERVER_SERVICE, FromDhcp,
            if msg.messageType.Some? then Type(msg.messageType.value) else Absent)] +
    if msg.messageType == Some(Dhcp.Ack) && msg.yiaddr.Some? && !l.IsOwn(client)
    then [Granted(client, Ip4(msg.yiaddr).value)] else []
  }

  predicate IsPort(port: nat, srcPort: nat, dstPort: nat) {
    srcPort == port || dstPort == port
  }

  /** Everything one frame says, under the guards; our own frames say nothing. */
  function Sayings(l: Listener, d: Decoders, frame: Frame): seq<Saying> {
    if l.IsOwn(frame.srcMac) then []
    else
      match frame.heard
      case Arp(mac, ip, reply) =>
        if !l.IsOwn(mac) && ip != 0 && !(reply && l.gateway == Some(frame.srcMac)) then [Sighted(mac, V4(ip))]
        else []
      case Udp(srcIp, srcPort, dstPort, payload) =>
        (if Addressable(srcIp) && l.gateway != Some(frame.srcMac) then [Sighted(frame.srcMac, srcIp)] else []) +
        UdpSays(l, d, frame.srcMac, srcIp, srcPort, dstPort, payload)
      case Other => []
  }

  function UdpSays(l: Listener, d: Decoders, src: Mac, srcIp: IpAddr, srcPort: nat, dstPort: nat, payload: seq<Byte>): seq<Saying> {
    if IsPort(MDNS_PORT, srcPort, dstPort) then
      var facts := d.mdns(payload, srcIp);
      if facts.None? then [] else MdnsSays(src, srcIp, facts.value)
    else if IsPort(SSDP_PORT, srcPort, dstPort) then
      var facts := d.ssdp(payload);
      if facts.None? then []
      else [Offers(src, Some(srcIp), facts.value.service, FromSsdp, DetailOf(facts.value.detail))]
    else if IsPort(DHCP_SERVER_PORT, srcPort, dstPort) || IsPort(DHCP_CLIENT_PORT, srcPort, dstPort) then
      var msg := d.dhcp(payload);
      if msg.None? then []
      else if msg.value.op.Request? then ClientSays(l, msg.value) else ServerSays(l, src, srcIp, msg.value)
    else []
  }

  /** The services a frame announces on another host's behalf. */
  function ProxiedBy(l: Listener, d: Decoders, frame: Frame): nat {
    if l.IsOwn(frame.srcMac) || !frame.heard.Udp? || !IsPort(MDNS_PORT, frame.heard.srcPort, frame.heard.dstPort) then 0
    else
      var facts := d.mdns(frame.heard.payload, frame.heard.srcIp);
      if facts.None? then 0 else facts.value.proxied
  }

  // ------------------------------------------------------------------------------------- exactly what is said

  /** Our own MAC, when it is known, is never spoken of. */
  lemma {:induction false} OwnIsNeverSaid(l: Listener, d: Decoders, frame: Frame)
    ensures forall s :: s in Sayings(l, d, frame) ==> !l.IsOwn(s.mac) && l.own != Some(s.mac)
    ensures l.own == Some(frame.srcMac) ==> Sayings(l, d, frame) == []
  {
    if frame.heard.Udp? && !l.IsOwn(frame.srcMac) {
      var facts := d.mdns(frame.heard.payload, frame.heard.srcIp);
      if facts.Some? {
        MdnsSaysOfSender(frame.srcMac, frame.heard.srcIp, facts.value.services);
      }
    }
  }

  lemma {:induction false} MdnsSaysOfSender(src: Mac, srcIp: IpAddr, services: seq<Mdns.Service>)
    ensures forall s :: s in MdnsOffers(src, srcIp, services) ==> s.Offers? && s.mac == src && s.from == Some(srcIp)
  {
    if services != [] {
      MdnsSaysOfSender(src, srcIp, services[..|services| - 1]);
    }
  }

  /** A DHCP message pairs `ip` with its client: one the client says it holds, or one acknowledged to it. */
  predicate DhcpPairs(msg: Dhcp.DhcpMessage, mac: Mac, ip: IpAddr) {
    && Number(msg.chaddr) == mac
    && if msg.op.Request? then Ip4(msg.ciaddr) == Some(ip)
       else msg.messageType == Some(Dhcp.Ack) && Ip4(msg.yiaddr) == Some(ip)
  }

  predicate OnDhcpPort(srcPort: nat, dstPort: nat) {
    && !IsPort(MDNS_PORT, srcPort, dstPort) && !IsPort(SSDP_PORT, srcPort, dstPort)
    && (IsPort(DHCP_SERVER_PORT, srcPort, dstPort) || IsPort(DHCP_CLIENT_PORT, srcPort, dstPort))
  }

  /** A frame pairs `ip` with `mac`: the sender of its ARP body, its IP source unless the gateway sent it, or by DHCP. */
  predicate PairsAddress(l: Listener, d: Decoders, frame: Frame, mac: Mac, ip: IpAddr) {
    && !l.IsOwn(frame.srcMac) && !l.IsOwn(mac)
    && match frame.heard
       case Arp(sender, addr, reply) =>
         sender == mac && addr != 0 && ip == V4(addr) && !(reply && l.gateway == Some(frame.srcMac))
       case Udp(srcIp, srcPort, dstPort, payload) =>
         || (frame.srcMac == mac && srcIp == ip && Addressable(srcIp) && l.gateway != Some(mac))
         || (OnDhcpPort(srcPort, dstPort) && d.dhcp(payload).Some? && DhcpPairs(d.dhcp(payload).value, mac, ip))
       case Other => false
  }

  /** Exactly which frames pair an address with a device. */
  lemma {:induction false} Pairings(l: Listener, d: Decoders, frame: Frame, mac: Mac, ip: IpAddr)
    ensures Sighted(mac, ip) in Sayings(l, d, frame) || Granted(mac, ip) in Sayings(l, d, frame) <==>
              PairsAddress(l, d, frame, mac, ip)
  {
    OwnIsNeverSaid(l, d, frame);
    if frame.heard.Udp? && !l.IsOwn(frame.srcMac) && !l.IsOwn(mac) {
      var (srcIp, srcPort, dstPort, payload) := (frame.heard.srcIp, frame.heard.srcPort, frame.heard.dstPort, frame.heard.payload);
      UdpPairings(l, d, frame.srcMac, srcIp, srcPort, dstPort, payload, mac, ip);
    }
  }

  lemma {:induction false} UdpPairings(
      l: Listener, d: Decoders, src: Mac, srcIp: IpAddr, srcPort: nat, dstPort: nat, payload: seq<Byte>, mac: Mac, ip: IpAddr)
    requires !l.IsOwn(mac)
    ensures var says := UdpSays(l, d, src, srcIp, srcPort, dstPort, payload);
            Sighted(mac, ip) in says || Granted(mac, ip) in says <==>
              OnDhcpPort(srcPort, dstPort) && d.dhcp(payload).Some? && DhcpPairs(d.dhcp(payload).value, mac, ip)
  {
    var facts := d.mdns(payload, srcIp);
    if facts.Some? {
      MdnsSaysOfSender(src, srcIp, facts.value.services);
    }
    var msg := d.dhcp(payload);
    if msg.Some? {
      DhcpSays(l, src, srcIp, msg.value, mac, ip);
    }
  }

  lemma {:induction false} DhcpSays(l: Listener, src: Mac, srcIp: IpAddr, msg: Dhcp.DhcpMessage, mac: Mac, ip: IpAddr)
    requires !l.IsOwn(mac)
    ensures var says := if msg.op.Request? then ClientSays(l, msg) else ServerSays(l, src, srcIp, msg);
            Sighted(mac, ip) in says || Granted(mac, ip) in says <==> DhcpPairs(msg, mac, ip)
  {
    if msg.op.Request? && Ip4(msg.ciaddr) == Some(ip) && Number(msg.chaddr) == mac {
      assert ClientSays(l, msg)[0] == Sighted(mac, ip);
    }
    if !msg.op.Request? && DhcpPairs(msg, mac, ip) {
      assert ServerSays(l, src, srcIp, msg)[1] == Granted(mac, ip);
    }
  }

  /**
   The forwarding guard, exactly: an address comes to the gateway's row by ARP naming the pair, unless the gateway
   itself replies it, or by DHCP about a client with the gateway's MAC; never as the source of a datagram.
   */
  lemma {:induction false} GatewayPairings(l: Listener, d: Decoders, frame: Frame, gateway: Mac, ip: IpAddr)
    requires l.gateway == Some(gateway) && !l.IsOwn(gateway)
    ensures Sighted(gateway, ip) in Sayings(l, d, frame) || Granted(gateway, ip) in Sayings(l, d, frame) <==>
              && !l.IsOwn(frame.srcMac)
              && match frame.heard
                 case Arp(sender, addr, reply) =>
                   sender == gateway && addr != 0 && ip == V4(addr) && !(reply && frame.srcMac == gateway)
                 case Udp(_, srcPort, dstPort, payload) =>
                   OnDhcpPort(srcPort, dstPort) && d.dhcp(payload).Some? && DhcpPairs(d.dhcp(payload).value, gateway, ip)
                 case Other => false
  {
    Pairings(l, d, frame, gateway, ip);
  }

  /** A frame gives `mac` a name: an mDNS sender its first one, a DHCP client the one it sends, along with the address it holds. */
  predicate NamesDevice(l: Listener, d: Decoders, frame: Frame, mac: Mac, name: string) {
    && !l.IsOwn(frame.srcMac) && frame.heard.Udp?
    && var (srcIp, srcPort, dstPort, payload) := (frame.heard.srcIp, frame.heard.srcPort, frame.heard.dstPort, frame.heard.payload);
       if IsPort(5353, srcPort, dstPort) then
         && frame.srcMac == mac && d.mdns(payload, srcIp).Some?
         && d.mdns(payload, srcIp).value.hostnames != [] && d.mdns(payload, srcIp).value.hostnames[0] == name
       else ClientSends(l, d, frame, mac, name) && d.dhcp(payload).value.ciaddr.Some?
  }

  /** A DHCP client other than us sends its name. */
  predicate ClientSends(l: Listener, d: Decoders, frame: Frame, mac: Mac, name: string) {
    && !l.IsOwn(frame.srcMac) && frame.heard.Udp? && OnDhcpPort(frame.heard.srcPort, frame.heard.dstPort)
    && d.dhcp(frame.heard.payload).Some?
    && var msg := d.dhcp(frame.heard.payload).value;
       msg.op.Request? && Number(msg.chaddr) == mac && !l.IsOwn(mac) && msg.hostname == Some(name)
  }

  /** Exactly which frames give a device a name, and which leave one waiting for its address. */
  lemma {:induction false} Namings(l: Listener, d: Decoders, frame: Frame, mac: Mac, name: string)
    ensures Named(mac, name) in Sayings(l, d, frame) <==> NamesDevice(l, d, frame, mac, name)
    ensures Waits(mac, name) in Sayings(l, d, frame) <==>
              ClientSends(l, d, frame, mac, name) && d.dhcp(frame.heard.payload).value.ciaddr.None?
  {
    if frame.heard.Udp? && !l.IsOwn(frame.srcMac) {
      var (srcIp, srcPort, dstPort, payload) := (frame.heard.srcIp, frame.heard.srcPort, frame.heard.dstPort, frame.heard.payload);
      UdpNamings(l, d, frame.srcMac, srcIp, srcPort, dstPort, payload, mac, name);
    }
  }

  lemma {:induction false} UdpNamings(
      l: Listener, d: Decoders, src: Mac, srcIp: IpAddr, srcPort: nat, dstPort: nat, payload: seq<Byte>, mac: Mac, name: string)
    requires !l.IsOwn(src)
    ensures var (says, frame) := (UdpSays(l, d, src, srcIp, srcPort, dstPort, payload), Frame(src, Udp(srcIp, srcPort, dstPort, payload)));
            && (Named(mac, name) in says <==> NamesDevice(l, d, frame, mac, name))
            && (Waits(mac, name) in says <==>
                  ClientSends(l, d, frame, mac, name) && d.dhcp(payload).value.ciaddr.None?)
  {
    var facts := d.mdns(payload, srcIp);
    if IsPort(MDNS_PORT, srcPort, dstPort) {
      if facts.Some? {
        MdnsSaysOfSender(src, srcIp, facts.value.services);
        var says := MdnsSays(src, srcIp, facts.value);
        assert facts.value.hostnames != [] ==> says[0] == Named(src, facts.value.hostnames[0]);
      }
    } else if OnDhcpPort(srcPort, dstPort) && d.dhcp(payload).Some? {
      DhcpNamings(l, src, srcIp, d.dhcp(payload).value, mac, name);
    }
  }

  lemma {:induction false} DhcpNamings(l: Listener, src: Mac, srcIp: IpAddr, msg: Dhcp.DhcpMessage, mac: Mac, name: string)
    ensures var says := if msg.op.Request? then ClientSays(l, msg) else ServerSays(l, src, srcIp, msg);
            var sends := msg.op.Request? && Number(msg.chaddr) == mac && !l.IsOwn(mac) && msg.hostname == Some(name);
            && (Named(mac, name) in says <==> sends && msg.ciaddr.Some?)
            && (Waits(mac, name) in says <==> sends && msg.ciaddr.None?)
  {
    var says := if msg.op.Request? then ClientSays(l, msg) else ServerSays(l, src, srcIp, msg);
    if msg.op.Request? && !l.IsOwn(Number(msg.chaddr)) && msg.hostname.Some? {
      assert says[if msg.ciaddr.Some? then 1 else 0] in says;
    }
  }

  /** What a frame offers on behalf of whom: mDNS its services, SSDP its one, DHCP a client's class or a server's presence. */
  ghost predicate OffersService(l: Listener, d: Decoders, frame: Frame, s: Saying)
    requires s.Offers?
  {
    && !l.IsOwn(frame.srcMac) && frame.heard.Udp?
    && var (srcIp, srcPort, dstPort, payload) := (frame.heard.srcIp, frame.heard.srcPort, frame.heard.dstPort, frame.heard.payload);
       if IsPort(5353, srcPort, dstPort) then
         && d.mdns(payload, srcIp).Some?
         && exists v :: v in d.mdns(payload, srcIp).value.services
                     && s == Offers(frame.srcMac, Some(srcIp), v.0, FromMdns, if v.1.Some? then Text(v.1.value) else Absent)
       else if IsPort(1900, srcPort, dstPort) then
         && d.ssdp(payload).Some?
         && var v := d.ssdp(payload).value;
            s == Offers(frame.srcMac, Some(srcIp), v.service, FromSsdp, if v.detail.Some? then Text(v.detail.value) else Absent)
       else
         && OnDhcpPort(srcPort, dstPort) && d.dhcp(payload).Some?
         && var msg := d.dhcp(payload).value;
            if msg.op.Request? then
              && !l.IsOwn(s.mac) && Number(msg.chaddr) == s.mac && msg.vendorClass.Some?
              && s.service == "vendor-class" && s.kind == FromDhcp && s.detail == Text(msg.vendorClass.value)
              && s.from == if msg.ciaddr.Some? then Some(V4(Number(msg.ciaddr.value))) else None
            else
              && s.mac == frame.srcMac && s.service == "dhcp-server" && s.kind == FromDhcp
              && s.detail == (if msg.messageType.Some? then Type(msg.messageType.value) else Absent)
              && s.from == if msg.serverId.Some? then Some(V4(Number(msg.serverId.value))) else Some(srcIp)
  }

  /** What is refused as announced for others: what an mDNS message of somebody else counted as such. */
  lemma {:induction false} ProxiedIsCounted(l: Listener, d: Decoders, frame: Frame)
    ensures ProxiedBy(l, d, frame) > 0 ==>
              && l.own != Some(frame.srcMac) && frame.heard.Udp? && 5353 in {frame.heard.srcPort, frame.heard.dstPort}
              && d.mdns(frame.heard.payload, frame.heard.srcIp).Some?
    ensures l.own != Some(frame.srcMac) && frame.heard.Udp? && 5353 in {frame.heard.srcPort, frame.heard.dstPort}
              && d.mdns(frame.heard.payload, frame.heard.srcIp).Some? ==>
              ProxiedBy(l, d, frame) == d.mdns(frame.heard.payload, frame.heard.srcIp).value.proxied
  {
  }

  /** Exactly what is offered, under which name, kind and detail, and from where. */
  lemma {:induction false} Offerings(l: Listener, d: Decoders, frame: Frame, s: Saying)
    requires s.Offers?
    ensures s in Sayings(l, d, frame) <==> OffersService(l, d, frame, s)
  {
    if frame.heard.Udp? && !l.IsOwn(frame.srcMac) {
      var (srcIp, srcPort, dstPort, payload) := (frame.heard.srcIp, frame.heard.srcPort, frame.heard.dstPort, frame.heard.payload);
      assert s in Sayings(l, d, frame) <==> s in UdpSays(l, d, frame.srcMac, srcIp, srcPort, dstPort, payload);
      var facts := d.mdns(payload, srcIp);
      if IsPort(MDNS_PORT, srcPort, dstPort) {
        if facts.Some? {
          MdnsOffersEach(frame.srcMac, srcIp, facts.value.services, s);
        }
      } else if OnDhcpPort(srcPort, dstPort) && d.dhcp(payload).Some? {
        DhcpOfferings(l, frame.srcMac, srcIp, d.dhcp(payload).value, s);
      }
    }
  }

  lemma {:induction false} MdnsOffersEach(src: Mac, srcIp: IpAddr, services: seq<Mdns.Service>, s: Saying)
    requires s.Offers?
    ensures s in MdnsOffers(src, srcIp, services) <==>
              exists v :: v in services && s == Offers(src, Some(srcIp), v.0, FromMdns, if v.1.Some? then Text(v.1.value) else Absent)
  {
    if services != [] {
      var front, last := services[..|services| - 1], services[|services| - 1];
      MdnsOffersEach(src, srcIp, front, s);
      assert services == front + [last];
    }
  }

  lemma {:induction false} DhcpOfferings(l: Listener, src: Mac, srcIp: IpAddr, msg: Dhcp.DhcpMessage, s: Saying)
    requires s.Offers?
    ensures s in (if msg.op.Request? then ClientSays(l, msg) else ServerSays(l, src, srcIp, msg)) <==>
              if msg.op.Request? then
                && !l.IsOwn(s.mac) && Number(msg.chaddr) == s.mac && msg.vendorClass.Some?
                && s.service == "vendor-class" && s.kind == FromDhcp && s.detail == Text(msg.vendorClass.value)
                && s.from == if msg.ciaddr.Some? then Some(V4(Number(msg.ciaddr.value))) else None
              else
                && s.mac == src && s.service == "dhcp-server" && s.kind == FromDhcp
                && s.detail == (if msg.messageType.Some? then Type(msg.messageType.value) else Absent)
                && s.from == if msg.serverId.Some? then Some(V4(Number(msg.serverId.value))) else Some(srcIp)
  {
    var says := if msg.op.Request? then ClientSays(l, msg) else ServerSays(l, src, srcIp, msg);
    if msg.op.Request? {
      if msg.vendorClass.Some? && !l.IsOwn(Number(msg.chaddr)) {
        assert says[|says| - 1] in says && says[|says| - 1].Offers?;
      }
    } else {
      assert says[0] in says;
    }
  }

  /** A frame names `ip` as the source of a service of `mac`: mDNS and SSDP by their IP source, DHCP by what it carries. */
  predicate SourcesService(l: Listener, d: Decoders, frame: Frame, mac: Mac, ip: IpAddr) {
    && !l.IsOwn(frame.srcMac) && frame.heard.Udp?
    && var (srcIp, srcPort, dstPort, payload) := (frame.heard.srcIp, frame.heard.srcPort, frame.heard.dstPort, frame.heard.payload);
       if IsPort(MDNS_PORT, srcPort, dstPort) then
         frame.srcMac == mac && srcIp == ip && d.mdns(payload, srcIp).Some? && d.mdns(payload, srcIp).value.services != []
       else if IsPort(SSDP_PORT, srcPort, dstPort) then frame.srcMac == mac && srcIp == ip && d.ssdp(payload).Some?
       else
         && OnDhcpPort(srcPort, dstPort) && d.dhcp(payload).Some?
         && var msg := d.dhcp(payload).value;
            if msg.op.Request? then
              !l.IsOwn(mac) && Number(msg.chaddr) == mac && msg.vendorClass.Some? && Ip4(msg.ciaddr) == Some(ip)
            else frame.srcMac == mac && ip == if msg.serverId.Some? then Ip4(msg.serverId).value else srcIp
  }

  /**
   Exactly which frames put an address on a service of a device. No guard stands here: of the gateway's services a
   forwarded announcement names whatever source it was forwarded from.
   */
  lemma {:induction false} ServiceSources(l: Listener, d: Decoders, frame: Frame, mac: Mac, ip: IpAddr)
    ensures (exists s :: s in Sayings(l, d, frame) && s.Offers? && s.mac == mac && s.from == Some(ip)) <==>
              SourcesService(l, d, frame, mac, ip)
  {
    if frame.heard.Udp? && !l.IsOwn(frame.srcMac) {
      var (src, srcIp, payload) := (frame.srcMac, frame.heard.srcIp, frame.heard.payload);
      var facts := d.mdns(payload, srcIp);
      var offered := UdpSays(l, d, src, srcIp, frame.heard.srcPort, frame.heard.dstPort, payload);
      assert forall s :: s in Sayings(l, d, frame) && s.Offers? <==> s in offered && s.Offers?;
      if IsPort(MDNS_PORT, frame.heard.srcPort, frame.heard.dstPort) {
        if facts.Some? {
          MdnsSaysOfSender(src, srcIp, facts.value.services);
          if facts.value.services != [] {
            var offers := MdnsOffers(src, srcIp, facts.value.services);
            assert offers[|offers| - 1] in offered;
          }
        }
      } else if IsPort(SSDP_PORT, frame.heard.srcPort, frame.heard.dstPort) {
        if offered != [] {
          assert offered[0] in offered;
        }
      } else if OnDhcpPort(frame.heard.srcPort, frame.heard.dstPort) && d.dhcp(payload).Some? {
        DhcpServices(l, src, srcIp, d.dhcp(payload).value, mac, ip);
      }
    }
  }

  lemma {:induction false} DhcpServices(l: Listener, src: Mac, srcIp: IpAddr, msg: Dhcp.DhcpMessage, mac: Mac, ip: IpAddr)
    ensures var says := if msg.op.Request? then ClientSays(l, msg) else ServerSays(l, src, srcIp, msg);
            (exists s :: s in says && s.Offers? && s.mac == mac && s.from == Some(ip)) <==>
              if msg.op.Request? then
                !l.IsOwn(mac) && Number(msg.chaddr) == mac && msg.vendorClass.Some? && Ip4(msg.ciaddr) == Some(ip)
              else src == mac && ip == if msg.serverId.Some? then Ip4(msg.serverId).value else srcIp
  {
    var says := if msg.op.Request? then ClientSays(l, msg) else ServerSays(l, src, srcIp, msg);
    if msg.op.Request? {
      if msg.vendorClass.Some? && !l.IsOwn(Number(msg.chaddr)) {
        assert says[|says| - 1].Offers? && says[|says| - 1] in says;
      }
    } else {
      assert says[0].Offers? && says[0] in says;
    }
  }
}
