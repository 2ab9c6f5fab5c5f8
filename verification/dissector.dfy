/** The packet classifier and dissector (dissector.rs): the one-line summary
    of the packet list, the protocol tree of the detail view, and the
    classifier for the application layer. Rendering of addresses and numbers
    and the UTF-8 check are supplied as a `Format`, so every property below
    holds whatever those renderings produce. */
module Dissector {
  import opened MachineInt
  import opened Wrappers
  import opened Model
  import opened Headers

  /** Text renderings the dissector takes from its libraries. */
  datatype Format = Format(
    /** A MAC address, `aa:bb:...`. */
    mac: seq<u8> -> string,
    /** An IPv4 address. */
    ipv4Addr: seq<u8> -> string,
    /** An IPv6 address. */
    ipv6Addr: seq<u8> -> string,
    /** A number in decimal. */
    decimal: int -> string,
    /** A number in lower-case hex, zero-padded to the given width. */
    hex: (int, nat) -> string,
    /** The name of an IP protocol number. */
    protocolName: int -> string,
    /** Whether the bytes are well-formed UTF-8. */
    validUtf8: seq<u8> -> bool)

  const TagTcp: string := "TCP"
  const TagUdp: string := "UDP"
  const TagIcmp: string := "ICMP"
  const TagIcmpv6: string := "ICMPv6"
  const TagIpv4: string := "IPv4"
  const TagIpv6: string := "IPv6"
  const TagArp: string := "ARP"
  const TagUnknown: string := "Unknown"

  const NameEthernet: string := "Ethernet"
  const NameIpv4: string := "Internet Protocol Version 4"
  const NameIpv6: string := "Internet Protocol Version 6"
  const NameArp: string := "Address Resolution Protocol"
  const NameTcp: string := "Transmission Control Protocol"
  const NameUdp: string := "User Datagram Protocol"
  const NameIcmp: string := "Internet Control Message Protocol"
  const NameDns: string := "Domain Name System"
  const NameHttp: string := "Hypertext Transfer Protocol"
  const NameHttps: string := "Hypertext Transfer Protocol Secure"
  const NameAppData: string := "Application Data"

  const DnsPort: u16 := 53
  const HttpPort: u16 := 80
  const HttpsPort: u16 := 443
  /** How many leading payload bytes the HTTP check inspects. */
  const HttpSniffLength: nat := 100

  /** `src → dst`. */
  function Route(src: string, dst: string): string
  {
    src + " \U{2192} " + dst
  }

  function Bytes(fmt: Format, n: int): string
  {
    fmt.decimal(n) + " bytes"
  }

  function Hex(fmt: Format, n: int, width: nat): string
  {
    "0x" + fmt.hex(n, width)
  }

  // ---------------------------------------------------------------------
  // Summary line

  function Ipv4Tag(protocol: u8): string
  {
    if protocol == IpProtoTcp then TagTcp
    else if protocol == IpProtoUdp then TagUdp
    else if protocol == IpProtoIcmp then TagIcmp
    else TagIpv4
  }

  function Ipv6Tag(nextHeader: u8): string
  {
    if nextHeader == IpProtoTcp then TagTcp
    else if nextHeader == IpProtoUdp then TagUdp
    else if nextHeader == IpProtoIcmpv6 then TagIcmpv6
    else TagIpv6
  }

  /** `src → dst`, followed by ` [port]` with the destination port when the
      IPv4 payload holds a TCP or UDP header. */
  function Ipv4Info(fmt: Format, src: string, dst: string, ip: Ipv4): string
  {
    if ip.protocol == IpProtoTcp then
      match ParseTcp(ip.payload)
      case Some(tcp) => Route(src, dst) + " [" + fmt.decimal(tcp.destinationPort) + "]"
      case None => Route(src, dst)
    else if ip.protocol == IpProtoUdp then
      match ParseUdp(ip.payload)
      case Some(udp) => Route(src, dst) + " [" + fmt.decimal(udp.destinationPort) + "]"
      case None => Route(src, dst)
    else Route(src, dst)
  }

  /** Whether the frame holds every header the summary needs: an Ethernet
      header, and a full IPv4 or IPv6 header when the EtherType announces one. */
  predicate Summarizable(raw: seq<u8>)
  {
    && |raw| >= EthernetHeaderLength
    && (BigEndian16(raw[12], raw[13]) == EtherTypeIpv4 ==> |raw| >= EthernetHeaderLength + Ipv4MinLength)
    && (BigEndian16(raw[12], raw[13]) == EtherTypeIpv6 ==> |raw| >= EthernetHeaderLength + Ipv6HeaderLength)
  }

  /** `parse_summary`: the packet-list row for a raw frame, or `None` when a
      header it needs is cut short. */
  function ParseSummary(fmt: Format, raw: seq<u8>, id: u64, timestampNs: i64): (r: Option<PacketSummary>)
    ensures |raw| < EthernetHeaderLength ==> r.None?
    ensures r.Some? <==> Summarizable(raw)
    ensures r.Some? ==> r.value.id == id && r.value.timestamp == timestampNs
    ensures r.Some? ==> r.value.length == AsU32(|raw|)
  {
    match ParseEthernet(raw)
    case None => None
    case Some(eth) =>
      if eth.etherType == EtherTypeIpv4 then
        match ParseIpv4(eth.payload)
        case None => None
        case Some(ip) =>
          var src := fmt.ipv4Addr(ip.source);
          var dst := fmt.ipv4Addr(ip.destination);
          Some(PacketSummary(id, timestampNs, src, dst, Ipv4Tag(ip.protocol), AsU32(|raw|),
                             Ipv4Info(fmt, src, dst, ip)))
      else if eth.etherType == EtherTypeIpv6 then
        match ParseIpv6(eth.payload)
        case None => None
        case Some(ip) =>
          var src := fmt.ipv6Addr(ip.source);
          var dst := fmt.ipv6Addr(ip.destination);
          Some(PacketSummary(id, timestampNs, src, dst, Ipv6Tag(ip.nextHeader), AsU32(|raw|), Route(src, dst)))
      else if eth.etherType == EtherTypeArp then
        Some(PacketSummary(id, timestampNs, fmt.mac(eth.source), fmt.mac(eth.destination), TagArp,
                           AsU32(|raw|), TagArp))
      else
        Some(PacketSummary(id, timestampNs, fmt.mac(eth.source), fmt.mac(eth.destination), TagUnknown,
                           AsU32(|raw|), TagUnknown))
  }

  /** The EtherType of a frame, read from bytes 12 and 13. */
  function EtherTypeOf(raw: seq<u8>): u16
    requires |raw| >= EthernetHeaderLength
  {
    BigEndian16(raw[12], raw[13])
  }

  /** The protocol tag is decided by the EtherType and the IP protocol
      number on the wire (byte 23 of an IPv4 frame, byte 20 of an IPv6 frame),
      each tag in exactly the situation it names. */
  lemma SummaryProtocolTag(fmt: Format, raw: seq<u8>, id: u64, timestampNs: i64)
    requires ParseSummary(fmt, raw, id, timestampNs).Some?
    ensures var tag := ParseSummary(fmt, raw, id, timestampNs).value.protocol;
            var et := EtherTypeOf(raw);
            && (tag == TagTcp <==> (et == EtherTypeIpv4 && raw[23] == IpProtoTcp)
                                   || (et == EtherTypeIpv6 && raw[20] == IpProtoTcp))
            && (tag == TagUdp <==> (et == EtherTypeIpv4 && raw[23] == IpProtoUdp)
                                   || (et == EtherTypeIpv6 && raw[20] == IpProtoUdp))
            && (tag == TagIcmp <==> et == EtherTypeIpv4 && raw[23] == IpProtoIcmp)
            && (tag == TagIcmpv6 <==> et == EtherTypeIpv6 && raw[20] == IpProtoIcmpv6)
            && (tag == TagIpv4 <==> et == EtherTypeIpv4 && raw[23] !in {IpProtoTcp, IpProtoUdp, IpProtoIcmp})
            && (tag == TagIpv6 <==> et == EtherTypeIpv6 && raw[20] !in {IpProtoTcp, IpProtoUdp, IpProtoIcmpv6})
            && (tag == TagArp <==> et == EtherTypeArp)
            && (tag == TagUnknown <==> et !in {EtherTypeIpv4, EtherTypeIpv6, EtherTypeArp})
  {
    var eth := ParseEthernet(raw).value;
    assert eth.etherType == EtherTypeOf(raw);
    if eth.etherType == EtherTypeIpv4 {
      assert eth.payload[9] == raw[23];
    } else if eth.etherType == EtherTypeIpv6 {
      assert eth.payload[6] == raw[20];
    }
  }

  /** For IP frames the addresses are the rendered IP addresses, and the info
      starts with `src → dst`; only an IPv4 TCP or UDP frame whose transport
      header is present adds ` [dstport]`, read from the transport header. */
  lemma SummaryIpInfo(fmt: Format, raw: seq<u8>, id: u64, timestampNs: i64)
    requires Summarizable(raw)
    requires EtherTypeOf(raw) in {EtherTypeIpv4, EtherTypeIpv6}
    ensures ParseSummary(fmt, raw, id, timestampNs).Some?
    ensures var s := ParseSummary(fmt, raw, id, timestampNs).value;
            var route := Route(s.sourceAddr, s.destAddr);
            && |route| <= |s.info| && s.info[..|route|] == route
            && (EtherTypeOf(raw) == EtherTypeIpv4 ==>
                  && s.sourceAddr == fmt.ipv4Addr(raw[26..30])
                  && s.destAddr == fmt.ipv4Addr(raw[30..34]))
            && (EtherTypeOf(raw) == EtherTypeIpv6 ==>
                  && s.sourceAddr == fmt.ipv6Addr(raw[22..38])
                  && s.destAddr == fmt.ipv6Addr(raw[38..54])
                  && s.info == route)
            && (EtherTypeOf(raw) == EtherTypeIpv4 ==>
                  var ip := ParseIpv4(raw[EthernetHeaderLength..]).value;
                  var hasPort := (raw[23] == IpProtoTcp && |ip.payload| >= TcpMinLength)
                                 || (raw[23] == IpProtoUdp && |ip.payload| >= UdpHeaderLength);
                  && (s.info != route <==> hasPort)
                  && (hasPort ==>
                        s.info == route + " [" + fmt.decimal(BigEndian16(ip.payload[2], ip.payload[3])) + "]"))
  {
    if EtherTypeOf(raw) == EtherTypeIpv4 {
      Ipv4SummaryShape(fmt, raw, id, timestampNs);
      var ip := ParseIpv4(raw[EthernetHeaderLength..]).value;
      Ipv4InfoShape(fmt, fmt.ipv4Addr(raw[26..30]), fmt.ipv4Addr(raw[30..34]), ip);
    } else {
      Ipv6SummaryShape(fmt, raw, id, timestampNs);
    }
  }

  /** The summary of an IPv4 frame, assembled from the decoded header. */
  lemma Ipv4SummaryShape(fmt: Format, raw: seq<u8>, id: u64, timestampNs: i64)
    requires Summarizable(raw) && EtherTypeOf(raw) == EtherTypeIpv4
    ensures |raw[EthernetHeaderLength..]| >= Ipv4MinLength
    ensures var ip := ParseIpv4(raw[EthernetHeaderLength..]).value;
            var src := fmt.ipv4Addr(raw[26..30]);
            var dst := fmt.ipv4Addr(raw[30..34]);
            && ip.protocol == raw[23]
            && ParseSummary(fmt, raw, id, timestampNs)
               == Some(PacketSummary(id, timestampNs, src, dst, Ipv4Tag(ip.protocol), AsU32(|raw|),
                                     Ipv4Info(fmt, src, dst, ip)))
  {
    var eth := ParseEthernet(raw).value;
    assert eth.payload == raw[EthernetHeaderLength..];
    var ip := ParseIpv4(eth.payload).value;
    SliceShift(raw, EthernetHeaderLength, 12, 16);
    SliceShift(raw, EthernetHeaderLength, 16, 20);
    assert ip.source == raw[26..30];
    assert ip.destination == raw[30..34];
  }

  /** The info of an IPv4 frame: the route, with ` [port]` exactly when a TCP
      or UDP header is present, the port being its destination port. */
  lemma Ipv4InfoShape(fmt: Format, src: string, dst: string, ip: Ipv4)
    ensures var info := Ipv4Info(fmt, src, dst, ip);
            var route := Route(src, dst);
            var hasPort := (ip.protocol == IpProtoTcp && |ip.payload| >= TcpMinLength)
                           || (ip.protocol == IpProtoUdp && |ip.payload| >= UdpHeaderLength);
            && |route| <= |info| && info[..|route|] == route
            && (info != route <==> hasPort)
            && (hasPort ==>
                  info == route + " [" + fmt.decimal(BigEndian16(ip.payload[2], ip.payload[3])) + "]")
  {
    var route := Route(src, dst);
    var info := Ipv4Info(fmt, src, dst, ip);
    if ip.protocol == IpProtoTcp && ParseTcp(ip.payload).Some? {
      assert info == route + (" [" + fmt.decimal(ParseTcp(ip.payload).value.destinationPort) + "]");
      assert |info| > |route|;
    } else if ip.protocol == IpProtoUdp && ParseUdp(ip.payload).Some? {
      assert info == route + (" [" + fmt.decimal(ParseUdp(ip.payload).value.destinationPort) + "]");
      assert |info| > |route|;
    } else {
      assert info == route;
    }
  }

  /** The summary of an IPv6 frame, assembled from the decoded header. */
  lemma Ipv6SummaryShape(fmt: Format, raw: seq<u8>, id: u64, timestampNs: i64)
    requires Summarizable(raw) && EtherTypeOf(raw) == EtherTypeIpv6
    ensures |raw| >= EthernetHeaderLength + Ipv6HeaderLength
    ensures var src := fmt.ipv6Addr(raw[22..38]);
            var dst := fmt.ipv6Addr(raw[38..54]);
            ParseSummary(fmt, raw, id, timestampNs)
            == Some(PacketSummary(id, timestampNs, src, dst, Ipv6Tag(raw[20]), AsU32(|raw|), Route(src, dst)))
  {
    var eth := ParseEthernet(raw).value;
    assert eth.payload == raw[EthernetHeaderLength..];
    var ip := ParseIpv6(eth.payload).value;
    SliceShift(raw, EthernetHeaderLength, 8, 24);
    SliceShift(raw, EthernetHeaderLength, 24, 40);
    assert ip.source == raw[22..38];
    assert ip.destination == raw[38..54];
    assert ip.nextHeader == raw[20];
  }

  lemma SliceShift(b: seq<u8>, k: nat, i: nat, j: nat)
    requires i <= j && k + j <= |b|
    ensures b[k..][i..j] == b[k + i..k + j]
  {
  }

  /** ARP and every other EtherType: the addresses are the Ethernet source and
      destination MACs and the info is the protocol tag itself. */
  lemma SummaryLinkOnly(fmt: Format, raw: seq<u8>, id: u64, timestampNs: i64)
    requires |raw| >= EthernetHeaderLength
    requires EtherTypeOf(raw) !in {EtherTypeIpv4, EtherTypeIpv6}
    ensures var r := ParseSummary(fmt, raw, id, timestampNs);
            && r.Some?
            && r.value.sourceAddr == fmt.mac(raw[6..12])
            && r.value.destAddr == fmt.mac(raw[0..6])
            && r.value.info == r.value.protocol
            && r.value.protocol == (if EtherTypeOf(raw) == EtherTypeArp then TagArp else TagUnknown)
  {
  }

  // ---------------------------------------------------------------------
  // Application layer

  /** The code points of an ASCII literal, compared byte by byte. */
  predicate StartsWith(b: seq<u8>, lit: string)
  {
    |lit| <= |b| && forall i :: 0 <= i < |lit| ==> b[i] as int == lit[i] as int
  }

  /** The field the HTTP check records: the request method or that the
      payload is a response, checked in the order GET, POST, PUT, DELETE,
      HTTP/. `None` when no marker matches. */
  function HttpMarker(head: seq<u8>): Option<(string, string)>
  {
    if StartsWith(head, "GET") then Some(("Method", "GET"))
    else if StartsWith(head, "POST") then Some(("Method", "POST"))
    else if StartsWith(head, "PUT") then Some(("Method", "PUT"))
    else if StartsWith(head, "DELETE") then Some(("Method", "DELETE"))
    else if StartsWith(head, "HTTP/") then Some(("Type", "Response"))
    else None
  }

  /** The bytes the HTTP check inspects: the first 100 of the payload. */
  function SniffHead(payload: seq<u8>): seq<u8>
  {
    payload[..Min(|payload|, HttpSniffLength)]
  }

  predicate IsDns(srcPort: u16, dstPort: u16)
  {
    srcPort == DnsPort || dstPort == DnsPort
  }

  /** Whether the payload is recognised as HTTP traffic: TCP, a web port on
      either side, UTF-8 text in the inspected head, and a known marker. */
  predicate IsHttp(fmt: Format, srcPort: u16, dstPort: u16, payload: seq<u8>, isTcp: bool)
  {
    && isTcp
    && (srcPort in {HttpPort, HttpsPort} || dstPort in {HttpPort, HttpsPort})
    && fmt.validUtf8(SniffHead(payload))
    && HttpMarker(SniffHead(payload)).Some?
  }

  /** `parse_application_layer`: appends at most one application layer to
      `layers` for a transport payload. */
  function ParseApplicationLayer(fmt: Format, layers: seq<ProtocolLayer>, srcPort: u16, dstPort: u16,
                                 payload: seq<u8>, isTcp: bool): (r: seq<ProtocolLayer>)
    ensures |payload| == 0 ==> r == layers
    ensures |payload| > 0 ==> |r| == |layers| + 1 && r[..|layers|] == layers
    ensures |payload| > 0 ==> r[|layers|].name in {NameDns, NameHttp, NameHttps, NameAppData}
    ensures |payload| > 0 && !isTcp ==> r[|layers|].name in {NameDns, NameAppData}
  {
    if |payload| == 0 then layers
    else if IsDns(srcPort, dstPort) then
      layers + [ProtocolLayer(NameDns, [
        ("Port", if srcPort == DnsPort then "53 (Response)" else "53 (Query)"),
        ("Payload Length", Bytes(fmt, |payload|))])]
    else if IsHttp(fmt, srcPort, dstPort, payload, isTcp) then
      var name := if srcPort == HttpsPort || dstPort == HttpsPort then NameHttps else NameHttp;
      layers + [ProtocolLayer(name, [HttpMarker(SniffHead(payload)).value, ("Payload Length", Bytes(fmt, |payload|))])]
    else
      layers + [ProtocolLayer(NameAppData, [("Payload Length", Bytes(fmt, |payload|))])]
  }

  /** How the appended layer is chosen: DNS when port 53 is on either side
      (a response exactly when it is the source port); otherwise HTTP only for
      TCP, named Secure exactly when port 443 is involved, with the matched
      marker as first field; otherwise generic application data. */
  lemma ApplicationLayerChoice(fmt: Format, layers: seq<ProtocolLayer>, srcPort: u16, dstPort: u16,
                               payload: seq<u8>, isTcp: bool)
    requires |payload| > 0
    ensures var app := ParseApplicationLayer(fmt, layers, srcPort, dstPort, payload, isTcp)[|layers|];
            var http := !IsDns(srcPort, dstPort) && IsHttp(fmt, srcPort, dstPort, payload, isTcp);
            var secure := srcPort == HttpsPort || dstPort == HttpsPort;
            && (app.name == NameDns <==> IsDns(srcPort, dstPort))
            && (app.name == NameDns ==>
                  app.fields[0] == ("Port", if srcPort == DnsPort then "53 (Response)" else "53 (Query)"))
            && (app.name == NameHttps <==> http && secure)
            && (app.name == NameHttp <==> http && !secure)
            && ((app.name == NameHttp || app.name == NameHttps) ==>
                  isTcp && app.fields == [HttpMarker(SniffHead(payload)).value, ("Payload Length", Bytes(fmt, |payload|))])
            && (app.name == NameAppData <==> !IsDns(srcPort, dstPort) && !http)
            && app.fields[|app.fields| - 1] == ("Payload Length", Bytes(fmt, |payload|))
  {
  }

  /** The HTTP markers exclude one another, so the order in which they are
      tried never changes the outcome. */
  lemma HttpMarkersExclusive(head: seq<u8>)
    ensures var markers := ["GET", "POST", "PUT", "DELETE", "HTTP/"];
            forall i, j :: 0 <= i < j < |markers| ==> !(StartsWith(head, markers[i]) && StartsWith(head, markers[j]))
  {
    var markers := ["GET", "POST", "PUT", "DELETE", "HTTP/"];
    forall i, j | 0 <= i < j < |markers|
      ensures !(StartsWith(head, markers[i]) && StartsWith(head, markers[j]))
    {
      if StartsWith(head, markers[i]) {
        assert head[0] as int == markers[i][0] as int;
        assert head[1] as int == markers[i][1] as int;
      }
    }
  }

  // ---------------------------------------------------------------------
  // Protocol tree

  function EthernetLayer(fmt: Format, eth: Ethernet): ProtocolLayer
  {
    ProtocolLayer(NameEthernet, [
      ("Destination", fmt.mac(eth.destination)),
      ("Source", fmt.mac(eth.source)),
      ("Type", Hex(fmt, eth.etherType, 4))])
  }

  function Ipv4Layer(fmt: Format, ip: Ipv4): ProtocolLayer
  {
    ProtocolLayer(NameIpv4, [
      ("Version", "4"),
      ("Header Length", Bytes(fmt, ip.headerLength * 4)),
      ("Total Length", Bytes(fmt, ip.totalLength)),
      ("Identification", Hex(fmt, ip.identification, 4)),
      ("Flags", Hex(fmt, ip.flags, 2)),
      ("TTL", fmt.decimal(ip.ttl)),
      ("Protocol", fmt.decimal(ip.protocol) + " (" + fmt.protocolName(ip.protocol) + ")"),
      ("Source", fmt.ipv4Addr(ip.source)),
      ("Destination", fmt.ipv4Addr(ip.destination))])
  }

  function Ipv6Layer(fmt: Format, ip: Ipv6): ProtocolLayer
  {
    ProtocolLayer(NameIpv6, [
      ("Version", "6"),
      ("Traffic Class", Hex(fmt, ip.trafficClass, 2)),
      ("Flow Label", Hex(fmt, ip.flowLabel, 5)),
      ("Payload Length", Bytes(fmt, ip.payloadLength)),
      ("Next Header", fmt.decimal(ip.nextHeader) + " (" + fmt.protocolName(ip.nextHeader) + ")"),
      ("Hop Limit", fmt.decimal(ip.hopLimit)),
      ("Source", fmt.ipv6Addr(ip.source)),
      ("Destination", fmt.ipv6Addr(ip.destination))])
  }

  function TcpLayer(fmt: Format, tcp: Tcp): ProtocolLayer
  {
    ProtocolLayer(NameTcp, [
      ("Source Port", fmt.decimal(tcp.sourcePort)),
      ("Destination Port", fmt.decimal(tcp.destinationPort)),
      ("Sequence Number", fmt.decimal(tcp.sequence)),
      ("Acknowledgment Number", fmt.decimal(tcp.acknowledgement)),
      ("Data Offset", Bytes(fmt, tcp.dataOffset * 4)),
      ("Flags", Hex(fmt, tcp.flags, 2)),
      ("Window Size", fmt.decimal(tcp.window))])
  }

  function UdpLayer(fmt: Format, udp: Udp): ProtocolLayer
  {
    ProtocolLayer(NameUdp, [
      ("Source Port", fmt.decimal(udp.sourcePort)),
      ("Destination Port", fmt.decimal(udp.destinationPort)),
      ("Length", Bytes(fmt, udp.length)),
      ("Checksum", Hex(fmt, udp.checksum, 4))])
  }

  /** A TCP layer and its application layer, when the segment header is
      present. */
  function TcpLayers(fmt: Format, layers: seq<ProtocolLayer>, segment: seq<u8>): (r: seq<ProtocolLayer>)
    ensures |layers| <= |r| <= |layers| + 2 && r[..|layers|] == layers
    ensures |r| > |layers| <==> |segment| >= TcpMinLength
    ensures |r| > |layers| ==> r[|layers|].name == NameTcp
    ensures |r| == |layers| + 2 ==> r[|layers| + 1].name in {NameDns, NameHttp, NameHttps, NameAppData}
  {
    match ParseTcp(segment)
    case None => layers
    case Some(tcp) =>
      var withTcp := layers + [TcpLayer(fmt, tcp)];
      if |tcp.payload| > 0 then
        ParseApplicationLayer(fmt, withTcp, tcp.sourcePort, tcp.destinationPort, tcp.payload, true)
      else withTcp
  }

  /** A UDP layer and its application layer, when the datagram header is
      present. */
  function UdpLayers(fmt: Format, layers: seq<ProtocolLayer>, datagram: seq<u8>): (r: seq<ProtocolLayer>)
    ensures |layers| <= |r| <= |layers| + 2 && r[..|layers|] == layers
    ensures |r| > |layers| <==> |datagram| >= UdpHeaderLength
    ensures |r| > |layers| ==> r[|layers|].name == NameUdp
    ensures |r| == |layers| + 2 ==> r[|layers| + 1].name in {NameDns, NameAppData}
  {
    match ParseUdp(datagram)
    case None => layers
    case Some(udp) =>
      var withUdp := layers + [UdpLayer(fmt, udp)];
      if |udp.payload| > 0 then
        ParseApplicationLayer(fmt, withUdp, udp.sourcePort, udp.destinationPort, udp.payload, false)
      else withUdp
  }

  function ArpLayer(fmt: Format, payload: seq<u8>): ProtocolLayer
  {
    ProtocolLayer(NameArp, [("Payload Length", Bytes(fmt, |payload|))])
  }

  /** The IPv4 layer and what it carries. */
  function Ipv4Layers(fmt: Format, link: seq<ProtocolLayer>, ip: Ipv4): (r: seq<ProtocolLayer>)
    ensures |link| + 1 <= |r| <= |link| + 3 && r[..|link|] == link && r[|link|] == Ipv4Layer(fmt, ip)
  {
    var withIp := link + [Ipv4Layer(fmt, ip)];
    if ip.protocol == IpProtoTcp then TcpLayers(fmt, withIp, ip.payload)
    else if ip.protocol == IpProtoUdp then UdpLayers(fmt, withIp, ip.payload)
    else if ip.protocol == IpProtoIcmp then
      withIp + [ProtocolLayer(NameIcmp, [("Payload Length", Bytes(fmt, |ip.payload|))])]
    else withIp
  }

  /** The IPv6 layer and what it carries; ICMPv6 gets no layer of its own. */
  function Ipv6Layers(fmt: Format, link: seq<ProtocolLayer>, ip: Ipv6): (r: seq<ProtocolLayer>)
    ensures |link| + 1 <= |r| <= |link| + 3 && r[..|link|] == link && r[|link|] == Ipv6Layer(fmt, ip)
  {
    var withIp := link + [Ipv6Layer(fmt, ip)];
    if ip.nextHeader == IpProtoTcp then TcpLayers(fmt, withIp, ip.payload)
    else if ip.nextHeader == IpProtoUdp then UdpLayers(fmt, withIp, ip.payload)
    else withIp
  }

  /** Layers from the Ethernet layer down, or `None` when the announced IP
      header is cut short. */
  function InnerLayers(fmt: Format, eth: Ethernet): (r: Option<seq<ProtocolLayer>>)
    ensures r.Some? <==> (eth.etherType == EtherTypeIpv4 ==> |eth.payload| >= Ipv4MinLength)
                         && (eth.etherType == EtherTypeIpv6 ==> |eth.payload| >= Ipv6HeaderLength)
    ensures r.Some? ==> 1 <= |r.value| <= 4 && r.value[0] == EthernetLayer(fmt, eth)
  {
    var link := [EthernetLayer(fmt, eth)];
    if eth.etherType == EtherTypeIpv4 then
      match ParseIpv4(eth.payload)
      case None => None
      case Some(ip) =>
        var layers := Ipv4Layers(fmt, link, ip);
        assert layers[0] == layers[..1][0] == link[0];
        Some(layers)
    else if eth.etherType == EtherTypeIpv6 then
      match ParseIpv6(eth.payload)
      case None => None
      case Some(ip) =>
        var layers := Ipv6Layers(fmt, link, ip);
        assert layers[0] == layers[..1][0] == link[0];
        Some(layers)
    else if eth.etherType == EtherTypeArp then
      Some(link + [ArpLayer(fmt, eth.payload)])
    else Some(link)
  }

  function FieldNames(layer: ProtocolLayer): seq<string>
  {
    seq(|layer.fields|, i requires 0 <= i < |layer.fields| => layer.fields[i].0)
  }

  function LayerNames(layers: seq<ProtocolLayer>): seq<string>
  {
    seq(|layers|, i requires 0 <= i < |layers| => layers[i].name)
  }

  /** `dissect_packet`: the protocol tree of a frame, its summary (with time
      stamp 0) and its bytes; `None` exactly when the summary fails. */
  function DissectPacket(fmt: Format, raw: seq<u8>, id: u64): (r: Option<PacketDetail>)
    ensures r.Some? <==> ParseSummary(fmt, raw, id, 0).Some?
    ensures r.Some? ==> r.value.summary == ParseSummary(fmt, raw, id, 0).value
    ensures r.Some? ==> r.value.summary.timestamp == 0 && r.value.rawBytes == raw
    ensures r.Some? ==> 1 <= |r.value.layers| <= 4
    ensures r.Some? ==> r.value.layers[0].name == NameEthernet
                        && FieldNames(r.value.layers[0]) == ["Destination", "Source", "Type"]
  {
    match ParseEthernet(raw)
    case None => None
    case Some(eth) =>
      assert FieldNames(EthernetLayer(fmt, eth)) == ["Destination", "Source", "Type"];
      match InnerLayers(fmt, eth)
      case None => None
      case Some(layers) =>
        match ParseSummary(fmt, raw, id, 0)
        case None => None
        case Some(summary) => Some(PacketDetail(summary, layers, raw))
  }

  /** The shape of every protocol tree: the link layer, then at most one
      network, one transport and one application layer, each only above a
      layer that can carry it. */
  predicate WellStacked(names: seq<string>)
  {
    && 1 <= |names| <= 4
    && names[0] == NameEthernet
    && (|names| >= 2 ==> names[1] in {NameIpv4, NameIpv6, NameArp})
    && (|names| >= 3 ==>
          && names[1] in {NameIpv4, NameIpv6}
          && names[2] in {NameTcp, NameUdp, NameIcmp}
          && (names[2] == NameIcmp ==> names[1] == NameIpv4))
    && (|names| == 4 ==>
          && names[2] in {NameTcp, NameUdp}
          && names[3] in {NameDns, NameHttp, NameHttps, NameAppData}
          && (names[3] in {NameHttp, NameHttps} ==> names[2] == NameTcp))
  }

  /** The layering facts about `InnerLayers`, in terms of the decoded
      Ethernet header. */
  predicate InnerLayeringHolds(eth: Ethernet, names: seq<string>)
  {
    var et := eth.etherType;
    && (et == EtherTypeIpv4 ==> |eth.payload| >= Ipv4MinLength)
    && (et == EtherTypeIpv6 ==> |eth.payload| >= Ipv6HeaderLength)
    && WellStacked(names)
    && (|names| >= 2 <==> et in {EtherTypeIpv4, EtherTypeIpv6, EtherTypeArp})
    && (|names| >= 2 ==> (names[1] == NameIpv4 <==> et == EtherTypeIpv4)
                         && (names[1] == NameIpv6 <==> et == EtherTypeIpv6))
    && (|names| >= 3 && names[2] == NameTcp <==> Carries(eth, IpProtoTcp, TcpMinLength))
    && (|names| >= 3 && names[2] == NameUdp <==> Carries(eth, IpProtoUdp, UdpHeaderLength))
    && (|names| >= 3 && names[2] == NameIcmp <==> et == EtherTypeIpv4 && eth.payload[9] == IpProtoIcmp)
  }

  /** The IP header in the frame announces `protocol`, and the IP payload
      holds at least `minLength` bytes for its header. */
  predicate Carries(eth: Ethernet, protocol: u8, minLength: nat)
  {
    || (&& eth.etherType == EtherTypeIpv4 && |eth.payload| >= Ipv4MinLength && eth.payload[9] == protocol
        && |ParseIpv4(eth.payload).value.payload| >= minLength)
    || (&& eth.etherType == EtherTypeIpv6 && |eth.payload| >= Ipv6HeaderLength && eth.payload[6] == protocol
        && |ParseIpv6(eth.payload).value.payload| >= minLength)
  }

  lemma Ipv4Layering(fmt: Format, eth: Ethernet)
    requires eth.etherType == EtherTypeIpv4 && |eth.payload| >= Ipv4MinLength
    ensures InnerLayeringHolds(eth, LayerNames(InnerLayers(fmt, eth).value))
  {
    var ip := ParseIpv4(eth.payload).value;
    var withIp := [EthernetLayer(fmt, eth), Ipv4Layer(fmt, ip)];
    var layers := InnerLayers(fmt, eth).value;
    assert layers == Ipv4Layers(fmt, [EthernetLayer(fmt, eth)], ip);
    assert layers[..2] == withIp;
    assert layers[0].name == NameEthernet && layers[1].name == NameIpv4;
    if ip.protocol == IpProtoTcp {
      assert layers == TcpLayers(fmt, withIp, ip.payload);
    } else if ip.protocol == IpProtoUdp {
      assert layers == UdpLayers(fmt, withIp, ip.payload);
    } else if ip.protocol == IpProtoIcmp {
      assert |layers| == 3 && layers[2].name == NameIcmp;
    } else {
      assert layers == withIp;
    }
  }

  lemma Ipv6Layering(fmt: Format, eth: Ethernet)
    requires eth.etherType == EtherTypeIpv6 && |eth.payload| >= Ipv6HeaderLength
    ensures InnerLayeringHolds(eth, LayerNames(InnerLayers(fmt, eth).value))
  {
    var ip := ParseIpv6(eth.payload).value;
    var withIp := [EthernetLayer(fmt, eth), Ipv6Layer(fmt, ip)];
    var layers := InnerLayers(fmt, eth).value;
    assert layers == Ipv6Layers(fmt, [EthernetLayer(fmt, eth)], ip);
    assert layers[..2] == withIp;
    assert layers[0].name == NameEthernet && layers[1].name == NameIpv6;
    if ip.nextHeader == IpProtoTcp {
      assert layers == TcpLayers(fmt, withIp, ip.payload);
    } else if ip.nextHeader == IpProtoUdp {
      assert layers == UdpLayers(fmt, withIp, ip.payload);
    } else {
      assert layers == withIp;
    }
  }

  /** Every dissection is well stacked; its network layer is the one the
      EtherType announces, and its transport layer the one the IP protocol
      number on the wire announces. */
  lemma DissectLayering(fmt: Format, raw: seq<u8>, id: u64)
    requires DissectPacket(fmt, raw, id).Some?
    ensures var names := LayerNames(DissectPacket(fmt, raw, id).value.layers);
            var et := EtherTypeOf(raw);
            && WellStacked(names)
            && (|names| >= 2 <==> et in {EtherTypeIpv4, EtherTypeIpv6, EtherTypeArp})
            && (|names| >= 2 ==> (names[1] == NameIpv4 <==> et == EtherTypeIpv4)
                                 && (names[1] == NameIpv6 <==> et == EtherTypeIpv6))
            && (|names| >= 3 && names[2] == NameTcp ==>
                  (et == EtherTypeIpv4 && raw[23] == IpProtoTcp) || (et == EtherTypeIpv6 && raw[20] == IpProtoTcp))
            && (|names| >= 3 && names[2] == NameUdp ==>
                  (et == EtherTypeIpv4 && raw[23] == IpProtoUdp) || (et == EtherTypeIpv6 && raw[20] == IpProtoUdp))
            && (|names| >= 3 && names[2] == NameIcmp <==> et == EtherTypeIpv4 && raw[23] == IpProtoIcmp)
  {
    var eth := ParseEthernet(raw).value;
    var layers := InnerLayers(fmt, eth).value;
    assert DissectPacket(fmt, raw, id).value.layers == layers;
    assert eth.etherType == EtherTypeOf(raw);
    if eth.etherType == EtherTypeIpv4 {
      Ipv4Layering(fmt, eth);
      assert eth.payload[9] == raw[23];
    } else if eth.etherType == EtherTypeIpv6 {
      Ipv6Layering(fmt, eth);
      assert eth.payload[6] == raw[20];
    } else {
      var names := LayerNames(layers);
      assert names[0] == NameEthernet;
      if eth.etherType == EtherTypeArp {
        assert |names| == 2 && names[1] == NameArp;
      } else {
        assert |names| == 1;
      }
    }
  }
}
