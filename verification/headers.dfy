/** Decoding of the Ethernet II, IPv4 (RFC 791 section 3.1), IPv6
    (RFC 8200 section 3), TCP (RFC 9293 section 3.1) and UDP (RFC 768)
    headers, as the dissector obtains them from its packet library: a
    constructor succeeds exactly when the buffer holds the fixed part of the
    header and fields are read big-endian at their standard offsets. Each
    header bounds its payload differently: Ethernet and UDP payloads are all
    the bytes after the 14- or 8-byte header (the UDP length field is not
    consulted); a TCP payload is everything after the data-offset header;
    an IPv4 payload is total length minus IHL·4 bytes after the IHL header,
    and an IPv6 payload is payload-length bytes after the 40-byte header,
    both clamped to the bytes present. A header length below the minimum
    counts as the minimum. */
module Headers {
  import opened MachineInt
  import opened Wrappers

  const EtherTypeIpv4: u16 := 0x0800
  const EtherTypeArp: u16 := 0x0806
  const EtherTypeIpv6: u16 := 0x86DD

  const IpProtoIcmp: u8 := 1
  const IpProtoTcp: u8 := 6
  const IpProtoUdp: u8 := 17
  const IpProtoIcmpv6: u8 := 58

  const EthernetHeaderLength: nat := 14
  const Ipv4MinLength: nat := 20
  const Ipv6HeaderLength: nat := 40
  const TcpMinLength: nat := 20
  const UdpHeaderLength: nat := 8

  function BigEndian16(hi: u8, lo: u8): u16
  {
    hi as int * 0x100 + lo as int
  }

  function BigEndian32(b: seq<u8>): u32
    requires |b| == 4
  {
    ((b[0] as int * 0x100 + b[1] as int) * 0x100 + b[2] as int) * 0x100 + b[3] as int
  }

  /** Subtraction that stops at zero (Rust `saturating_sub` on `usize`). */
  function SatSub(a: nat, b: nat): nat
  {
    if a >= b then a - b else 0
  }

  /** At most `len` bytes of `b` from `start`, clamped to what is present. */
  function Window(b: seq<u8>, start: nat, len: nat): (r: seq<u8>)
    ensures |r| <= len
  {
    if |b| <= start then [] else b[start..Min(start + len, |b|)]
  }

  datatype Ethernet = Ethernet(destination: seq<u8>, source: seq<u8>, etherType: u16, payload: seq<u8>)

  function ParseEthernet(b: seq<u8>): (r: Option<Ethernet>)
    ensures r.Some? <==> |b| >= EthernetHeaderLength
    ensures r.Some? ==> r.value.payload == b[EthernetHeaderLength..]
  {
    if |b| < EthernetHeaderLength then None
    else Some(Ethernet(b[0..6], b[6..12], BigEndian16(b[12], b[13]), b[EthernetHeaderLength..]))
  }

  datatype Ipv4 = Ipv4(
    headerLength: nat,
    totalLength: u16,
    identification: u16,
    flags: nat,
    ttl: u8,
    protocol: u8,
    source: seq<u8>,
    destination: seq<u8>,
    payload: seq<u8>)

  function ParseIpv4(b: seq<u8>): (r: Option<Ipv4>)
    ensures r.Some? <==> |b| >= Ipv4MinLength
    ensures r.Some? ==> r.value.protocol == b[9]
  {
    if |b| < Ipv4MinLength then None
    else
      var ihl := b[0] % 16;
      var total := BigEndian16(b[2], b[3]);
      var start := Ipv4MinLength + SatSub(ihl * 4, Ipv4MinLength);
      Some(Ipv4(ihl, total, BigEndian16(b[4], b[5]), b[6] / 32, b[8], b[9], b[12..16], b[16..20],
                Window(b, start, SatSub(total, ihl * 4))))
  }

  datatype Ipv6 = Ipv6(
    trafficClass: nat,
    flowLabel: nat,
    payloadLength: u16,
    nextHeader: u8,
    hopLimit: u8,
    source: seq<u8>,
    destination: seq<u8>,
    payload: seq<u8>)

  function ParseIpv6(b: seq<u8>): (r: Option<Ipv6>)
    ensures r.Some? <==> |b| >= Ipv6HeaderLength
    ensures r.Some? ==> r.value.nextHeader == b[6]
  {
    if |b| < Ipv6HeaderLength then None
    else
      var payloadLength := BigEndian16(b[4], b[5]);
      Some(Ipv6((b[0] % 16) * 16 + b[1] / 16, (b[1] % 16) * 0x1_0000 + b[2] as int * 0x100 + b[3] as int,
                payloadLength, b[6], b[7], b[8..24], b[24..40],
                Window(b, Ipv6HeaderLength, payloadLength)))
  }

  datatype Tcp = Tcp(
    sourcePort: u16,
    destinationPort: u16,
    sequence: u32,
    acknowledgement: u32,
    dataOffset: nat,
    flags: u8,
    window: u16,
    payload: seq<u8>)

  function ParseTcp(b: seq<u8>): (r: Option<Tcp>)
    ensures r.Some? <==> |b| >= TcpMinLength
    ensures r.Some? ==> r.value.destinationPort == BigEndian16(b[2], b[3])
  {
    if |b| < TcpMinLength then None
    else
      var offset := b[12] / 16;
      var start := TcpMinLength + SatSub(offset * 4, TcpMinLength);
      Some(Tcp(BigEndian16(b[0], b[1]), BigEndian16(b[2], b[3]), BigEndian32(b[4..8]), BigEndian32(b[8..12]),
               offset, b[13], BigEndian16(b[14], b[15]),
               if |b| <= start then [] else b[start..]))
  }

  datatype Udp = Udp(sourcePort: u16, destinationPort: u16, length: u16, checksum: u16, payload: seq<u8>)

  function ParseUdp(b: seq<u8>): (r: Option<Udp>)
    ensures r.Some? <==> |b| >= UdpHeaderLength
    ensures r.Some? ==> r.value.destinationPort == BigEndian16(b[2], b[3])
  {
    if |b| < UdpHeaderLength then None
    else
      Some(Udp(BigEndian16(b[0], b[1]), BigEndian16(b[2], b[3]), BigEndian16(b[4], b[5]), BigEndian16(b[6], b[7]),
               b[UdpHeaderLength..]))
  }
}
