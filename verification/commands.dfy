/** The commands the desktop front end invokes (lib.rs), over the shared
    application state: whether a capture session owns the stop channel, and
    the packet cache the capture task fills. */
module Commands {
  import opened MachineInt
  import opened Wrappers
  import opened Model
  import opened PacketCache
  import opened Dissector
  import opened Export
  import opened PcapFormat
  import opened Capture
  import opened Sorting

  /** `Active` while a stop sender is stored, that is while a capture task
      started by this state may be running. */
  datatype Session = Idle | Active

  datatype AppState = AppState(session: Session, cache: Cache)

  const ErrAlreadyCapturing := "Capture already in progress"
  const ErrStopSignal := "Failed to send stop signal: "
  const ErrNotFound := "Packet not found in cache."
  const ErrDissect := "Failed to dissect packet."
  const ErrNoIds := "No packets to export"
  const ErrNoValid := "No valid packets found in cache"
  const ErrCreateFile := "Failed to create file: "

  /** `start_capture`: refused while a session is active; otherwise a session
      begins with an empty cache. */
  function StartCapture(s: AppState): (r: (AppState, Result<(), string>))
    ensures r.1.Err? <==> s.session.Active?
    ensures r.1.Err? ==> r.0 == s && r.1.error == ErrAlreadyCapturing
    ensures r.1.Ok? ==> r.0.session.Active? && r.0.cache == map[]
  {
    if s.session.Active? then (s, Err(ErrAlreadyCapturing))
    else (AppState(Active, map[]), Ok(()))
  }

  /** `stop_capture`. The stored sender is taken before the signal is sent,
      so the session ends even when sending fails (the capture task then sees
      the channel closed, which stops it as well). `send` is the outcome of
      the non-blocking send. The cache is kept for inspection and export. */
  function StopCapture(s: AppState, send: Result<(), string>): (r: (AppState, Result<(), string>))
    ensures r.0 == AppState(Idle, s.cache)
    ensures r.1.Err? <==> s.session.Active? && send.Err?
    ensures r.1.Err? ==> r.1.error == ErrStopSignal + send.error
  {
    if s.session.Active? && send.Err? then (AppState(Idle, s.cache), Err(ErrStopSignal + send.error))
    else (AppState(Idle, s.cache), Ok(()))
  }

  /** `get_packet_detail`: the full dissection of a cached packet. */
  function GetPacketDetail(fmt: Format, s: AppState, id: u64): (r: Result<PacketDetail, string>)
    ensures id !in s.cache ==> r == Err(ErrNotFound)
    ensures id in s.cache ==> (r.Ok? <==> Summarizable(s.cache[id].data))
    ensures id in s.cache && r.Err? ==> r.error == ErrDissect
    ensures r.Ok? ==> r.value.rawBytes == s.cache[id].data && r.value.summary.id == id
    ensures r.Ok? ==> Some(r.value) == DissectPacket(fmt, s.cache[id].data, id)
  {
    if id in s.cache then
      match DissectPacket(fmt, s.cache[id].data, id)
      case Some(detail) => Ok(detail)
      case None => Err(ErrDissect)
    else Err(ErrNotFound)
  }

  /** The summaries `export_pcap` collects: one per requested id that is
      cached and summarizes, in request order, with the cached time stamp. */
  function Selected(fmt: Format, cache: Cache, ids: seq<u64>): (r: seq<PacketSummary>)
    ensures |r| <= |ids|
    ensures forall i :: 0 <= i < |r| ==>
              && r[i].id in cache
              && r[i].id in ids
              && ParseSummary(fmt, cache[r[i].id].data, r[i].id, cache[r[i].id].timestampNs) == Some(r[i])
    decreases |ids|
  {
    if |ids| == 0 then []
    else Collect(fmt, cache, ids[0]) + Selected(fmt, cache, ids[1..])
  }

  /** What one requested id contributes. */
  function Collect(fmt: Format, cache: Cache, id: u64): (r: seq<PacketSummary>)
    ensures |r| <= 1
    ensures |r| == 1 <==> id in cache && Summarizable(cache[id].data)
    ensures |r| == 1 ==> r[0].id == id
                         && ParseSummary(fmt, cache[id].data, id, cache[id].timestampNs) == Some(r[0])
  {
    if id in cache then
      match ParseSummary(fmt, cache[id].data, id, cache[id].timestampNs)
      case Some(summary) => [summary]
      case None => []
    else []
  }

  function IdsOf(list: seq<PacketSummary>): (r: seq<u64>)
    ensures |r| == |list| && forall i :: 0 <= i < |list| ==> r[i] == list[i].id
  {
    seq(|list|, i requires 0 <= i < |list| => list[i].id)
  }

  lemma IdsOfAppend(a: seq<PacketSummary>, b: seq<PacketSummary>)
    ensures IdsOf(a + b) == IdsOf(a) + IdsOf(b)
  {
  }

  /** Each requested id contributes as many summaries as it occurs in the
      request when it is cached and its frame summarizes, and none otherwise. */
  lemma {:induction false} SelectedMultiplicity(fmt: Format, cache: Cache, ids: seq<u64>, k: u64)
    ensures multiset(IdsOf(Selected(fmt, cache, ids)))[k]
            == if k in cache && Summarizable(cache[k].data) then multiset(ids)[k] else 0
    decreases |ids|
  {
    if |ids| > 0 {
      var id := ids[0];
      var here := Collect(fmt, cache, id);
      var rest := Selected(fmt, cache, ids[1..]);
      SelectedMultiplicity(fmt, cache, ids[1..], k);
      assert Selected(fmt, cache, ids) == here + rest;
      IdsOfAppend(here, rest);
      var kept := id in cache && Summarizable(cache[id].data);
      if kept {
        assert IdsOf(here) == [id];
      } else {
        assert IdsOf(here) == [];
      }
      CountCons(IdsOf(Selected(fmt, cache, ids)), IdsOf(here), IdsOf(rest), ids, k,
                k in cache && Summarizable(cache[k].data), kept);
    }
  }

  /** Counting occurrences of `k` across one step of a filter over `ids`:
      the head keeps `ids[0]` exactly when `keptHead`, and the tail already
      counts `k` as the filter should. */
  lemma CountCons(total: seq<u64>, head: seq<u64>, tail: seq<u64>, ids: seq<u64>, k: u64,
                  keptK: bool, keptHead: bool)
    requires |ids| > 0
    requires total == head + tail
    requires head == if keptHead then [ids[0]] else []
    requires k == ids[0] ==> keptK == keptHead
    requires multiset(tail)[k] == if keptK then multiset(ids[1..])[k] else 0
    ensures multiset(total)[k] == if keptK then multiset(ids)[k] else 0
  {
    assert ids == [ids[0]] + ids[1..];
  }

  /** The order in which packets are written: the collected summaries,
      stably sorted by id. */
  function ExportOrder(fmt: Format, cache: Cache, ids: seq<u64>): seq<PacketSummary>
  {
    SortById(Selected(fmt, cache, ids))
  }

  /** A successful export: the count reported to the front end and the bytes
      written to the file. */
  datatype Exported = Exported(count: nat, file: seq<u8>)

  /** `export_pcap` (the command). `createError` is the failure, if any, of
      creating the file. */
  function ExportPcapCommand(fmt: Format, s: AppState, ids: seq<u64>, createError: Option<string>): (r: Result<Exported, string>)
    ensures |ids| == 0 ==> r == Err(ErrNoIds)
    ensures |ids| > 0 && |Selected(fmt, s.cache, ids)| == 0 ==> r == Err(ErrNoValid)
    ensures |ids| > 0 && |Selected(fmt, s.cache, ids)| > 0 && createError.Some? ==>
              r == Err(ErrCreateFile + createError.value)
    ensures r.Ok? <==> |ids| > 0 && |Selected(fmt, s.cache, ids)| > 0 && createError.None?
    ensures r.Ok? ==> r.value.count == |Selected(fmt, s.cache, ids)|
  {
    if |ids| == 0 then Err(ErrNoIds)
    else
      var list := Selected(fmt, s.cache, ids);
      if |list| == 0 then Err(ErrNoValid)
      else
        var sorted := SortById(list);
        SortMembers(list);
        if createError.Some? then Err(ErrCreateFile + createError.value)
        else Ok(Exported(|sorted|, ExportPcap(s.cache, sorted)))
  }

  /** The count an export reports is the number of records a reader finds in
      the written file; the records come in ascending id order, each with the
      bytes and converted time stamp of the cached packet it names. */
  lemma ExportCountMatchesFile(fmt: Format, s: AppState, ids: seq<u64>)
    requires Fits(s.cache)
    ensures var r := ExportPcapCommand(fmt, s, ids, None);
            r.Ok? ==>
            var order := ExportOrder(fmt, s.cache, ids);
            && r.value.count == |order|
            && (forall i :: 0 <= i < |order| ==> order[i].id in s.cache)
            && (forall i, j :: 0 <= i < j < |order| ==> order[i].id <= order[j].id)
            && ParseFile(r.value.file) == Some((WrittenHeader, RecordsOf(s.cache, order)))
  {
    var list := Selected(fmt, s.cache, ids);
    var order := SortById(list);
    if |ids| == 0 || |list| == 0 {
      return;
    }
    assert ExportPcapCommand(fmt, s, ids, None) == Ok(Exported(|order|, ExportPcap(s.cache, order)));
    OrderCached(fmt, s.cache, ids);
    SortedPairwise(order);
  }

  /** Every entry of the export order is cached, so the exporter writes a
      record for each. */
  lemma OrderCached(fmt: Format, cache: Cache, ids: seq<u64>)
    ensures var order := ExportOrder(fmt, cache, ids);
            && (forall i :: 0 <= i < |order| ==> order[i].id in cache)
            && InCache(cache, order) == order
  {
    var list := Selected(fmt, cache, ids);
    SortMembers(list);
  }

  /** A session can be started again once it has been stopped, whatever
      happened to the stop signal. */
  lemma StartStopStart(s: AppState, send: Result<(), string>)
    requires s.session.Idle?
    ensures var (s1, r1) := StartCapture(s);
            var (s2, _) := StopCapture(s1, send);
            var (s3, r3) := StartCapture(s2);
            && r1.Ok? && r3.Ok? && s3 == AppState(Active, map[])
  {
  }

  /** A second start while a session runs fails and changes nothing, and a
      second stop always succeeds. */
  lemma RepeatedCommands(s: AppState, send1: Result<(), string>, send2: Result<(), string>)
    ensures s.session.Active? ==> StartCapture(s) == (s, Err(ErrAlreadyCapturing))
    ensures var (s1, _) := StopCapture(s, send1);
            StopCapture(s1, send2) == (s1, Ok(()))
  {
  }

  /** After a session starts and its capture task drains frames numbered
      from 1 into the shared cache, the newest frame, when it has a summary,
      can be inspected, and its detail carries the captured bytes. */
  lemma NewestFrameInspectable(fmt: Format, s: AppState, frames: seq<Frame>)
    requires s.session.Idle?
    requires 0 < |frames| < TWO_64
    requires Summarizable(frames[|frames| - 1].data)
    ensures var s0 := StartCapture(s).0;
            var s1 := s0.(cache := Drain(fmt, s0.cache, [], Number(frames, 0)).1);
            var d := GetPacketDetail(fmt, s1, |frames|);
            d.Ok? && d.value.rawBytes == frames[|frames| - 1].data
  {
    var ps := Number(frames, 0);
    var last := ps[|ps| - 1];
    assert last.id == |frames|;
    assert ParseSummary(fmt, last.data, last.id, last.timestampNs).Some?;
    DrainKeepsNewest(fmt, map[], [], ps);
  }
}
