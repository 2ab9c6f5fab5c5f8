/** The PCAP writer: the 24-byte file header, one record per exported packet,
    and the conversion of nanosecond capture times to the format's
    (seconds, microseconds) pair. Output is the byte sequence the writer
    produces; the file it goes to is not modelled. */
module Export {
  import opened MachineInt
  import opened Wrappers
  import opened Model
  import opened PcapFormat

  const PcapMagic: u32 := 0xA1B2C3D4
  const VersionMajor: u16 := 2
  const VersionMinor: u16 := 4
  /** GMT to local correction. */
  const ThisZone: i32 := 0
  /** Accuracy of time stamps. */
  const SigFigs: u32 := 0
  const SnapLen: u32 := 65535
  /** LINKTYPE_ETHERNET. */
  const LinkTypeEthernet: u32 := 1

  const NanosPerSecond: int := 1_000_000_000
  const NanosPerMicro: int := 1_000
  const MaxMicros: int := 999_999

  /** Rust `u16::to_le_bytes`. */
  function LeU16(x: u16): (r: seq<u8>)
    ensures |r| == 2 && ReadU16(r) == x
  {
    [x % 0x100, x / 0x100]
  }

  /** Rust `u32::to_le_bytes`. */
  function LeU32(x: u32): (r: seq<u8>)
    ensures |r| == 4 && ReadU32(r) == x
  {
    var q1 := x / 0x100;
    var q2 := q1 / 0x100;
    var q3 := q2 / 0x100;
    assert x == x % 0x100 + 0x100 * q1;
    assert q1 == q1 % 0x100 + 0x100 * q2;
    assert q2 == q2 % 0x100 + 0x100 * q3;
    [x % 0x100, q1 % 0x100, q2 % 0x100, q3]
  }

  /** Rust `i32::to_le_bytes`: the two's complement bit pattern. */
  function LeI32(x: i32): (r: seq<u8>)
    ensures |r| == 4 && ReadI32(r) == x
  {
    LeU32(AsU32(x))
  }

  /** Quotient and remainder by 256 are determined by any decomposition. */
  lemma DivByteUnique(x: int, q: int, r: int)
    requires x == 0x100 * q + r && 0 <= r < 0x100
    ensures x / 0x100 == q && x % 0x100 == r
  {
  }

  /** Every 2-byte field is the encoding of the value it decodes to, so the
      encoding is a bijection. */
  lemma LeU16Inverse(b: seq<u8>)
    requires |b| == 2
    ensures LeU16(ReadU16(b)) == b
  {
    DivByteUnique(ReadU16(b), b[1], b[0]);
  }

  /** Every 4-byte field is the encoding of the value it decodes to. */
  lemma LeU32Inverse(b: seq<u8>)
    requires |b| == 4
    ensures LeU32(ReadU32(b)) == b
  {
    var x := ReadU32(b);
    var q3 := b[3] as int;
    var q2 := b[2] as int + 0x100 * q3;
    var q1 := b[1] as int + 0x100 * q2;
    assert x == b[0] as int + 0x100 * q1;
    DivByteUnique(x, q1, b[0]);
    DivByteUnique(q1, q2, b[1]);
    DivByteUnique(q2, q3, b[2]);
  }

  /** The file header the writer promises. */
  const WrittenHeader: FileHeader :=
    FileHeader(0xA1B2C3D4, 2, 4, 0, 0, 65535, 1)

  /** `write_pcap_header`: magic, version 2.4, zone, accuracy, snapshot
      length and link type, each little-endian. */
  function WritePcapHeader(): (r: seq<u8>)
    ensures |r| == FileHeaderLength
    ensures r[..4] == [0xD4, 0xC3, 0xB2, 0xA1]
    ensures ParseFileHeader(r) == Some((WrittenHeader, []))
  {
    var r := LeU32(PcapMagic) + LeU16(VersionMajor) + LeU16(VersionMinor) + LeI32(ThisZone)
             + LeU32(SigFigs) + LeU32(SnapLen) + LeU32(LinkTypeEthernet);
    HeaderFields(LeU32(PcapMagic), LeU16(VersionMajor), LeU16(VersionMinor), LeI32(ThisZone),
                 LeU32(SigFigs), LeU32(SnapLen), LeU32(LinkTypeEthernet));
    r
  }

  /** Where the seven fields of a file header sit in their concatenation. */
  lemma HeaderFields(a: seq<u8>, b: seq<u8>, c: seq<u8>, d: seq<u8>, e: seq<u8>, f: seq<u8>, g: seq<u8>)
    requires |a| == 4 && |b| == 2 && |c| == 2 && |d| == 4 && |e| == 4 && |f| == 4 && |g| == 4
    ensures var r := a + b + c + d + e + f + g;
            && |r| == 24
            && r[0..4] == a && r[4..6] == b && r[6..8] == c && r[8..12] == d
            && r[12..16] == e && r[16..20] == f && r[20..24] == g
  {
    var r := a + b + c + d + e + f + g;
    assert r[0..4] == a;
    assert r[4..6] == b;
    assert r[6..8] == c;
    assert r[8..12] == d;
    assert r[12..16] == e;
    assert r[16..20] == f;
    assert r[20..24] == g;
  }

  /** `write_packet`: time stamp seconds, microseconds, captured and original
      length (both the data length cut to 32 bits, as `len() as u32`), then
      the data itself. */
  function WritePacket(data: seq<u8>, tsSec: u32, tsUsec: u32): (r: seq<u8>)
    ensures |r| == RecordHeaderLength + |data|
    ensures r[RecordHeaderLength..] == data
    ensures ReadU32(r[0..4]) == tsSec && ReadU32(r[4..8]) == tsUsec
    ensures ReadU32(r[8..12]) == AsU32(|data|) && ReadU32(r[12..16]) == AsU32(|data|)
  {
    var capturedLen := AsU32(|data|);
    var originalLen := capturedLen;
    var r := LeU32(tsSec) + LeU32(tsUsec) + LeU32(capturedLen) + LeU32(originalLen) + data;
    assert r[0..4] == LeU32(tsSec);
    assert r[4..8] == LeU32(tsUsec);
    assert r[8..12] == LeU32(capturedLen);
    assert r[12..16] == LeU32(originalLen);
    r
  }

  /** A record written for data shorter than 2^32 bytes reads back as exactly
      that record, leaving whatever follows it untouched. */
  lemma RecordRoundTrip(data: seq<u8>, tsSec: u32, tsUsec: u32, rest: seq<u8>)
    requires |data| < TWO_32
    ensures ParseRecord(WritePacket(data, tsSec, tsUsec) + rest)
            == Some((Record(tsSec, tsUsec, |data|, |data|, data), rest))
  {
    var w := WritePacket(data, tsSec, tsUsec);
    var b := w + rest;
    assert b[0..4] == w[0..4] && b[4..8] == w[4..8];
    assert b[8..12] == w[8..12] && b[12..16] == w[12..16];
    assert b[RecordHeaderLength..RecordHeaderLength + |data|] == data;
    assert b[RecordHeaderLength + |data|..] == rest;
  }

  /** The conversion in `export_pcap` of a nanosecond time stamp to seconds
      and microseconds: Rust's truncating `/` and `%`, the `min(999_999)`
      clamp, and the wrapping `as u32` casts. */
  function SplitTimestamp(ns: i64): (r: (u32, u32))
    ensures 0 <= ns < TWO_32 * NanosPerSecond ==>
              && r.1 <= MaxMicros
              && r.0 * NanosPerSecond + r.1 * NanosPerMicro <= ns
              && ns < r.0 * NanosPerSecond + r.1 * NanosPerMicro + NanosPerMicro
  {
    var sec := Quot(ns, NanosPerSecond);
    var usec := Min(Quot(Rem(ns, NanosPerSecond), NanosPerMicro), MaxMicros);
    if 0 <= ns < TWO_32 * NanosPerSecond then
      SplitInRange(ns);
      (AsU32(sec), AsU32(usec))
    else
      (AsU32(sec), AsU32(usec))
  }

  lemma SplitInRange(ns: int)
    requires 0 <= ns < TWO_32 * NanosPerSecond
    ensures var sec := Quot(ns, NanosPerSecond);
            var usec := Min(Quot(Rem(ns, NanosPerSecond), NanosPerMicro), MaxMicros);
            && 0 <= sec < TWO_32 && 0 <= usec <= MaxMicros
            && sec * NanosPerSecond + usec * NanosPerMicro <= ns
            && ns < sec * NanosPerSecond + usec * NanosPerMicro + NanosPerMicro
  {
    var sec := ns / NanosPerSecond;
    var rem := ns % NanosPerSecond;
    assert ns == sec * NanosPerSecond + rem;
    assert sec < TWO_32;
    var usec := rem / NanosPerMicro;
    assert rem == usec * NanosPerMicro + rem % NanosPerMicro;
    assert usec <= MaxMicros;
  }

  /** The records `export_pcap` writes: one per list entry whose id is in the
      cache, in list order; the others are skipped. */
  function WriteRecords(cache: map<u64, CachedPacket>, list: seq<PacketSummary>): seq<u8>
  {
    if |list| == 0 then []
    else
      var here :=
        if list[0].id in cache then
          var cached := cache[list[0].id];
          var (sec, usec) := SplitTimestamp(cached.timestampNs);
          WritePacket(cached.data, sec, usec)
        else [];
      here + WriteRecords(cache, list[1..])
  }

  /** Every cached packet fits the 32-bit length fields of a record; the
      capture's 65535-byte snapshot length guarantees it. */
  predicate Fits(cache: map<u64, CachedPacket>)
  {
    forall id :: id in cache ==> |cache[id].data| < TWO_32
  }

  /** The list entries `export_pcap` writes a record for: those whose id is
      cached, each as often as it occurs, in list order. */
  function InCache(cache: map<u64, CachedPacket>, list: seq<PacketSummary>): (r: seq<PacketSummary>)
    ensures |r| <= |list|
    ensures forall i :: 0 <= i < |r| ==> r[i].id in cache && r[i] in list
    ensures (forall i :: 0 <= i < |list| ==> list[i].id in cache) ==> r == list
  {
    if |list| == 0 then []
    else if list[0].id in cache then [list[0]] + InCache(cache, list[1..])
    else InCache(cache, list[1..])
  }

  /** An entry is kept as often as it occurs in the list when its id is
      cached, and never otherwise. */
  lemma {:induction false} InCacheMultiplicity(cache: map<u64, CachedPacket>, list: seq<PacketSummary>, x: PacketSummary)
    ensures multiset(InCache(cache, list))[x] == if x.id in cache then multiset(list)[x] else 0
    decreases |list|
  {
    if |list| > 0 {
      InCacheMultiplicity(cache, list[1..], x);
      assert list == [list[0]] + list[1..];
      assert multiset(list)[x] == multiset([list[0]])[x] + multiset(list[1..])[x];
    }
  }

  /** Filtering a concatenation filters each part, so the kept entries keep
      their list order. */
  lemma {:induction false} InCacheAppend(cache: map<u64, CachedPacket>, a: seq<PacketSummary>, b: seq<PacketSummary>)
    ensures InCache(cache, a + b) == InCache(cache, a) + InCache(cache, b)
    decreases |a|
  {
    if |a| == 0 {
      assert a + b == b;
    } else {
      assert (a + b)[0] == a[0];
      assert (a + b)[1..] == a[1..] + b;
      InCacheAppend(cache, a[1..], b);
    }
  }

  /** The record a reader should see for a cached packet. */
  function RecordOf(cached: CachedPacket): Record
    requires |cached.data| < TWO_32
  {
    var (sec, usec) := SplitTimestamp(cached.timestampNs);
    Record(sec, usec, |cached.data|, |cached.data|, cached.data)
  }

  /** The records a reader should see for the kept list entries. */
  function RecordsOf(cache: map<u64, CachedPacket>, kept: seq<PacketSummary>): seq<Record>
    requires Fits(cache)
    requires forall i :: 0 <= i < |kept| ==> kept[i].id in cache
  {
    seq(|kept|, i requires 0 <= i < |kept| => RecordOf(cache[kept[i].id]))
  }

  /** `export_pcap` (export.rs): the file header followed by the records.
      Read back, the file gives the promised header and exactly one record
      per cached list entry, in list order, carrying that packet's bytes and
      converted time stamp; uncached entries are skipped. */
  function ExportPcap(cache: map<u64, CachedPacket>, list: seq<PacketSummary>): (r: seq<u8>)
    ensures |r| >= FileHeaderLength && r[..FileHeaderLength] == WritePcapHeader()
    ensures Fits(cache) ==> ParseFile(r) == Some((WrittenHeader, RecordsOf(cache, InCache(cache, list))))
  {
    var r := WritePcapHeader() + WriteRecords(cache, list);
    assert r[..FileHeaderLength] == WritePcapHeader();
    if Fits(cache) then
      FileReadBack(cache, list);
      r
    else
      r
  }

  lemma FileReadBack(cache: map<u64, CachedPacket>, list: seq<PacketSummary>)
    requires Fits(cache)
    ensures ParseFile(WritePcapHeader() + WriteRecords(cache, list))
            == Some((WrittenHeader, RecordsOf(cache, InCache(cache, list))))
  {
    var body := WriteRecords(cache, list);
    HeaderReadBack(body);
    RecordsRoundTrip(cache, list);
  }

  /** The written file header reads back whatever follows it. */
  lemma HeaderReadBack(rest: seq<u8>)
    ensures ParseFileHeader(WritePcapHeader() + rest) == Some((WrittenHeader, rest))
  {
    var h := WritePcapHeader();
    var b := h + rest;
    assert b[0..4] == h[0..4] && b[4..6] == h[4..6] && b[6..8] == h[6..8];
    assert b[8..12] == h[8..12] && b[12..16] == h[12..16];
    assert b[16..20] == h[16..20] && b[20..24] == h[20..24];
    assert b[FileHeaderLength..] == rest;
  }

  lemma {:induction false} RecordsRoundTrip(cache: map<u64, CachedPacket>, list: seq<PacketSummary>)
    requires Fits(cache)
    ensures ParseRecords(WriteRecords(cache, list)) == Some(RecordsOf(cache, InCache(cache, list)))
    decreases |list|
  {
    if |list| == 0 {
      assert RecordsOf(cache, []) == [];
    } else {
      var tail := WriteRecords(cache, list[1..]);
      var keptTail := InCache(cache, list[1..]);
      RecordsRoundTrip(cache, list[1..]);
      if list[0].id in cache {
        var cached := cache[list[0].id];
        var (sec, usec) := SplitTimestamp(cached.timestampNs);
        var w := WritePacket(cached.data, sec, usec);
        assert WriteRecords(cache, list) == w + tail;
        RecordRoundTrip(cached.data, sec, usec, tail);
        assert |w + tail| > 0;
        assert InCache(cache, list) == [list[0]] + keptTail;
        RecordsOfCons(cache, list[0], keptTail);
        assert ParseRecords(w + tail) == Some([RecordOf(cached)] + RecordsOf(cache, keptTail));
      } else {
        assert WriteRecords(cache, list) == tail;
      }
    }
  }

  lemma RecordsOfCons(cache: map<u64, CachedPacket>, x: PacketSummary, kept: seq<PacketSummary>)
    requires Fits(cache) && x.id in cache
    requires forall i :: 0 <= i < |kept| ==> kept[i].id in cache
    ensures RecordsOf(cache, [x] + kept) == [RecordOf(cache[x.id])] + RecordsOf(cache, kept)
  {
  }
}
