/** A reader for the libpcap savefile format (IETF draft-ietf-opsawg-pcap,
    section 4 "File Header" and section 5 "Packet Record"), restricted to the
    little-endian byte order the writer uses. It is the independent
    definition against which the writer in `Export` is proved. */
module PcapFormat {
  import opened MachineInt
  import opened Wrappers

  /** Length of the file header in bytes. */
  const FileHeaderLength: nat := 24
  /** Length of a packet record header in bytes. */
  const RecordHeaderLength: nat := 16

  /** A little-endian unsigned 16-bit field. */
  function ReadU16(b: seq<u8>): u16
    requires |b| == 2
  {
    b[0] as int + 0x100 * (b[1] as int)
  }

  /** A little-endian unsigned 32-bit field. */
  function ReadU32(b: seq<u8>): u32
    requires |b| == 4
  {
    b[0] as int + 0x100 * (b[1] as int) + 0x1_0000 * (b[2] as int) + 0x100_0000 * (b[3] as int)
  }

  /** A little-endian two's complement 32-bit field. */
  function ReadI32(b: seq<u8>): i32
    requires |b| == 4
  {
    var u := ReadU32(b);
    if u < 0x8000_0000 then u else u - TWO_32
  }

  /** The fields of the file header, in file order. */
  datatype FileHeader = FileHeader(
    magic: u32,
    versionMajor: u16,
    versionMinor: u16,
    thisZone: i32,
    sigFigs: u32,
    snapLen: u32,
    linkType: u32)

  /** One packet record: the four header fields and the captured bytes. */
  datatype Record = Record(tsSec: u32, tsUsec: u32, capLen: u32, origLen: u32, data: seq<u8>)

  /** Reads the file header; yields the header and the bytes after it. */
  function ParseFileHeader(b: seq<u8>): (r: Option<(FileHeader, seq<u8>)>)
    ensures r.Some? <==> |b| >= FileHeaderLength
    ensures r.Some? ==> r.value.1 == b[FileHeaderLength..]
  {
    if |b| < FileHeaderLength then None
    else
      Some((FileHeader(ReadU32(b[0..4]), ReadU16(b[4..6]), ReadU16(b[6..8]), ReadI32(b[8..12]),
                       ReadU32(b[12..16]), ReadU32(b[16..20]), ReadU32(b[20..24])),
            b[FileHeaderLength..]))
  }

  /** Reads one packet record: a 16-byte header whose third field gives the
      number of captured bytes that follow. Yields the record and the rest. */
  function ParseRecord(b: seq<u8>): (r: Option<(Record, seq<u8>)>)
    ensures r.Some? ==> |r.value.1| <= |b| - RecordHeaderLength
  {
    if |b| < RecordHeaderLength then None
    else
      var capLen := ReadU32(b[8..12]);
      if |b| < RecordHeaderLength + capLen then None
      else
        Some((Record(ReadU32(b[0..4]), ReadU32(b[4..8]), capLen, ReadU32(b[12..16]),
                     b[RecordHeaderLength..RecordHeaderLength + capLen]),
              b[RecordHeaderLength + capLen..]))
  }

  /** Reads packet records until the input is used up; fails on a truncated
      record. */
  function ParseRecords(b: seq<u8>): Option<seq<Record>>
    decreases |b|
  {
    if |b| == 0 then Some([])
    else
      match ParseRecord(b)
      case None => None
      case Some((rec, rest)) =>
        match ParseRecords(rest)
        case None => None
        case Some(recs) => Some([rec] + recs)
  }

  /** Reads a whole savefile. */
  function ParseFile(b: seq<u8>): Option<(FileHeader, seq<Record>)>
  {
    match ParseFileHeader(b)
    case None => None
    case Some((h, rest)) =>
      match ParseRecords(rest)
      case None => None
      case Some(recs) => Some((h, recs))
  }
}
