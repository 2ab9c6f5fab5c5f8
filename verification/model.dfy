/** The plain records shared by the capture, dissection and export code. */
module Model {
  import opened MachineInt

  /** A raw frame kept in the packet cache, with its capture time in
      nanoseconds since the Unix epoch. */
  datatype CachedPacket = CachedPacket(data: seq<u8>, timestampNs: i64)

  /** One row of the packet list. */
  datatype PacketSummary = PacketSummary(
    id: u64,
    timestamp: i64,
    sourceAddr: string,
    destAddr: string,
    protocol: string,
    length: u32,
    info: string)

  /** A decoded protocol layer; field order is display order. */
  datatype ProtocolLayer = ProtocolLayer(name: string, fields: seq<(string, string)>)

  /** The protocol tree and hex view of one packet. */
  datatype PacketDetail = PacketDetail(
    summary: PacketSummary,
    layers: seq<ProtocolLayer>,
    rawBytes: seq<u8>)
}
