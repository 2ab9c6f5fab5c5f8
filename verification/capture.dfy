/** The capture task (capture.rs) without its threads and channels: the
    capture thread's numbering and time stamps, the handling of each received
    frame, and the batching of summaries for the front end over an abstract
    millisecond clock. */
module Capture {
  import opened MachineInt
  import opened Wrappers
  import opened Model
  import opened PacketCache
  import opened Dissector
  import opened Export

  const BatchSize: nat := 50
  const BatchTimeoutMs: nat := 250

  // ---------------------------------------------------------------------
  // Capture thread

  /** A frame as the capture library delivers it: the bytes and the header's
      time stamp in seconds and microseconds. */
  datatype Frame = Frame(data: seq<u8>, tvSec: i64, tvUsec: i64)

  /** A numbered frame, as it crosses the channel to the capture loop. */
  datatype Incoming = Incoming(id: u64, data: seq<u8>, timestampNs: i64)

  /** The nanosecond time stamp of a frame, in wrapping `i64` arithmetic. */
  function CaptureTimestamp(tvSec: i64, tvUsec: i64): (ns: i64)
    ensures 0 <= tvSec < TWO_32 && 0 <= tvUsec < 1_000_000 ==>
              ns == tvSec * NanosPerSecond + tvUsec * NanosPerMicro
  {
    WrapI64(tvSec * NanosPerSecond + tvUsec * NanosPerMicro)
  }

  /** The capture thread's numbering: the counter is incremented before each
      frame is sent, so a thread whose counter starts at `counter` sends ids
      `counter + 1`, `counter + 2`, ... */
  function Number(frames: seq<Frame>, counter: u64): (r: seq<Incoming>)
    requires counter + |frames| < TWO_64
    ensures |r| == |frames|
    ensures forall i :: 0 <= i < |r| ==>
              && r[i].id == counter + 1 + i
              && r[i].data == frames[i].data
              && r[i].timestampNs == CaptureTimestamp(frames[i].tvSec, frames[i].tvUsec)
    decreases |frames|
  {
    if |frames| == 0 then []
    else
      var f := frames[0];
      [Incoming(counter + 1, f.data, CaptureTimestamp(f.tvSec, f.tvUsec))] + Number(frames[1..], counter + 1)
  }

  /** A fresh capture thread numbers its frames 1, 2, 3, ... in strictly
      increasing order. */
  lemma NumberingFromZero(frames: seq<Frame>)
    requires |frames| < TWO_64
    ensures var r := Number(frames, 0);
            && (|r| > 0 ==> r[0].id == 1)
            && forall i, j :: 0 <= i < j < |r| ==> r[i].id < r[j].id
  {
  }

  /** The exporter's split of a capture time stamp gives back the seconds and
      microseconds the capture library reported, for every time stamp
      representable in the format. */
  lemma ExportedTimestampRoundTrip(tvSec: i64, tvUsec: i64)
    requires 0 <= tvSec < TWO_32 && 0 <= tvUsec < 1_000_000
    ensures SplitTimestamp(CaptureTimestamp(tvSec, tvUsec)) == (tvSec as u32, tvUsec as u32)
  {
    var ns := tvSec * NanosPerSecond + tvUsec * NanosPerMicro;
    assert CaptureTimestamp(tvSec, tvUsec) == ns;
    assert ns / NanosPerSecond == tvSec;
    assert ns % NanosPerSecond == tvUsec * NanosPerMicro;
    assert (tvUsec * NanosPerMicro) / NanosPerMicro == tvUsec;
  }

  // ---------------------------------------------------------------------
  // Receiving frames

  /** Whether a received frame yields a summary; by the contract of
      `ParseSummary` this is `Summarizable(p.data)`, stated here through the
      parse itself, which is how the capture loop decides. */
  predicate Summarized(fmt: Format, p: Incoming)
  {
    ParseSummary(fmt, p.data, p.id, p.timestampNs).Some?
  }

  /** The summaries of the received frames that have one, in arrival order. */
  function Summaries(fmt: Format, ps: seq<Incoming>): (r: seq<PacketSummary>)
    ensures |r| <= |ps|
  {
    if |ps| == 0 then []
    else
      match ParseSummary(fmt, ps[0].data, ps[0].id, ps[0].timestampNs)
      case Some(s) => [s] + Summaries(fmt, ps[1..])
      case None => Summaries(fmt, ps[1..])
  }

  /** Handling of one received frame: a frame that yields a summary is cached
      (with trimming) and its summary joins the batch; any other frame is
      dropped. */
  function Receive(fmt: Format, cache: Cache, batch: seq<PacketSummary>, p: Incoming): (seq<PacketSummary>, Cache)
  {
    match ParseSummary(fmt, p.data, p.id, p.timestampNs)
    case Some(s) => (batch + [s], InsertAndEvict(cache, p.id, CachedPacket(p.data, p.timestampNs)))
    case None => (batch, cache)
  }

  /** What receiving one frame does: the batch gains that frame's summary,
      if any; the cache stays within its bound; the only key it can gain is
      the id of a frame that has a summary. */
  lemma ReceiveStep(fmt: Format, cache: Cache, batch: seq<PacketSummary>, p: Incoming)
    ensures var r := Receive(fmt, cache, batch, p);
            && r.0 == batch + Summaries(fmt, [p])
            && (|cache| <= MaxCacheSize ==> |r.1| <= MaxCacheSize)
            && forall k :: k in r.1 ==> k in cache || (k == p.id && Summarized(fmt, p))
  {
    assert [p][1..] == [];
  }

  /** Every frame yields its own summary, at its own position, exactly when
      every frame has one; otherwise some frame is left out. */
  lemma {:induction false} SummariesComplete(fmt: Format, ps: seq<Incoming>)
    ensures |Summaries(fmt, ps)| == |ps| <==> forall i :: 0 <= i < |ps| ==> Summarized(fmt, ps[i])
    ensures |Summaries(fmt, ps)| == |ps| ==>
              forall i :: 0 <= i < |ps| ==>
                ParseSummary(fmt, ps[i].data, ps[i].id, ps[i].timestampNs) == Some(Summaries(fmt, ps)[i])
    decreases |ps|
  {
    if |ps| > 0 {
      SummariesComplete(fmt, ps[1..]);
      assert forall i :: 1 <= i < |ps| ==> ps[1..][i - 1] == ps[i];
    }
  }

  /** The summaries of a non-empty list are those of its first frame followed
      by those of the rest. */
  lemma SummariesCons(fmt: Format, ps: seq<Incoming>)
    requires |ps| > 0
    ensures Summaries(fmt, ps) == Summaries(fmt, [ps[0]]) + Summaries(fmt, ps[1..])
  {
    assert [ps[0]][1..] == [];
  }

  /** The summaries of a non-empty list are those of all but its last frame
      followed by those of the last. */
  lemma {:induction false} SummariesSnoc(fmt: Format, ps: seq<Incoming>)
    requires |ps| > 0
    ensures Summaries(fmt, ps) == Summaries(fmt, ps[..|ps| - 1]) + Summaries(fmt, [ps[|ps| - 1]])
    decreases |ps|
  {
    if |ps| == 1 {
      assert ps[..0] == [];
      assert ps == [ps[0]];
    } else {
      var init := ps[..|ps| - 1];
      var last := [ps[|ps| - 1]];
      SummariesCons(fmt, ps);
      SummariesSnoc(fmt, ps[1..]);
      assert ps[1..][..|ps[1..]| - 1] == init[1..];
      assert ps[1..][|ps[1..]| - 1] == ps[|ps| - 1];
      SummariesCons(fmt, init);
      assert init[0] == ps[0];
      calc {
        Summaries(fmt, ps);
        Summaries(fmt, [ps[0]]) + (Summaries(fmt, init[1..]) + Summaries(fmt, last));
        (Summaries(fmt, [ps[0]]) + Summaries(fmt, init[1..])) + Summaries(fmt, last);
        Summaries(fmt, init) + Summaries(fmt, last);
      }
    }
  }

  /** The drain loop: every frame waiting in the channel, in order; the state
      after a frame is that frame received into the state after the frames
      before it. */
  function Drain(fmt: Format, cache: Cache, batch: seq<PacketSummary>, ps: seq<Incoming>): (r: (seq<PacketSummary>, Cache))
    ensures r.0 == batch + Summaries(fmt, ps)
    ensures |cache| <= MaxCacheSize ==> |r.1| <= MaxCacheSize
    ensures forall k :: k in r.1 ==>
              k in cache || exists i :: 0 <= i < |ps| && ps[i].id == k && Summarized(fmt, ps[i])
    decreases |ps|
  {
    if |ps| == 0 then (batch, cache)
    else
      var init := ps[..|ps| - 1];
      var last := ps[|ps| - 1];
      var before := Drain(fmt, cache, batch, init);
      DrainStep(fmt, cache, batch, ps, init, before);
      Receive(fmt, before.1, before.0, last)
  }

  /** One turn of the drain loop keeps its three facts: receiving the last
      frame into the state after the others. */
  lemma DrainStep(fmt: Format, cache: Cache, batch: seq<PacketSummary>, ps: seq<Incoming>, init: seq<Incoming>,
                  before: (seq<PacketSummary>, Cache))
    requires |ps| > 0 && init == ps[..|ps| - 1]
    requires before.0 == batch + Summaries(fmt, init)
    requires |cache| <= MaxCacheSize ==> |before.1| <= MaxCacheSize
    requires forall k :: k in before.1 ==>
               k in cache || exists i :: 0 <= i < |init| && init[i].id == k && Summarized(fmt, init[i])
    ensures var r := Receive(fmt, before.1, before.0, ps[|ps| - 1]);
            && r.0 == batch + Summaries(fmt, ps)
            && (|cache| <= MaxCacheSize ==> |r.1| <= MaxCacheSize)
            && forall k :: k in r.1 ==>
                 k in cache || exists i :: 0 <= i < |ps| && ps[i].id == k && Summarized(fmt, ps[i])
  {
    var last := ps[|ps| - 1];
    var r := Receive(fmt, before.1, before.0, last);
    ReceiveStep(fmt, before.1, before.0, last);
    SummariesSnoc(fmt, ps);
    AppendTwice(batch, Summaries(fmt, init), Summaries(fmt, [last]), Summaries(fmt, ps), r.0);
    DrainStepKeys(fmt, cache, ps, init, before.1, r.1);
  }

  /** Appending in two steps appends the concatenation. */
  lemma AppendTwice(batch: seq<PacketSummary>, first: seq<PacketSummary>, second: seq<PacketSummary>,
                    both: seq<PacketSummary>, after: seq<PacketSummary>)
    requires both == first + second
    requires after == (batch + first) + second
    ensures after == batch + both
  {
  }

  lemma DrainStepKeys(fmt: Format, cache: Cache, ps: seq<Incoming>, init: seq<Incoming>, before: Cache, after: Cache)
    requires |ps| > 0 && init == ps[..|ps| - 1]
    requires forall k :: k in before ==>
               k in cache || exists i :: 0 <= i < |init| && init[i].id == k && Summarized(fmt, init[i])
    requires forall k :: k in after ==> k in before || (k == ps[|ps| - 1].id && Summarized(fmt, ps[|ps| - 1]))
    ensures forall k :: k in after ==>
              k in cache || exists i :: 0 <= i < |ps| && ps[i].id == k && Summarized(fmt, ps[i])
  {
    forall k | k in after && k !in cache
      ensures exists i :: 0 <= i < |ps| && ps[i].id == k && Summarized(fmt, ps[i])
    {
      if k in before {
        var j :| 0 <= j < |init| && init[j].id == k && Summarized(fmt, init[j]);
        assert ps[j] == init[j];
      }
    }
  }

  /** A received frame without a summary leaves both the cache and the batch
      as they were. */
  lemma UnparsableFrameIgnored(fmt: Format, cache: Cache, batch: seq<PacketSummary>, p: Incoming)
    requires !Summarized(fmt, p)
    ensures Receive(fmt, cache, batch, p) == (batch, cache)
  {
  }

  /** A summarized frame whose id is above every cached id is in the cache
      right after it is received, with its bytes and time stamp. */
  lemma NewestFrameCached(fmt: Format, cache: Cache, batch: seq<PacketSummary>, p: Incoming)
    requires Summarized(fmt, p)
    requires forall k :: k in cache ==> k < p.id
    ensures var c := Receive(fmt, cache, batch, p).1;
            p.id in c && c[p.id] == CachedPacket(p.data, p.timestampNs)
  {
    FreshIdSurvives(cache, p.id, CachedPacket(p.data, p.timestampNs));
  }

  /** The newest summarized frame of a drain, with an id above every cached
      id and every other drained id, is in the cache once the drain ends. */
  lemma DrainKeepsNewest(fmt: Format, cache: Cache, batch: seq<PacketSummary>, ps: seq<Incoming>)
    requires |ps| > 0 && Summarized(fmt, ps[|ps| - 1])
    requires forall k :: k in cache ==> k < ps[|ps| - 1].id
    requires forall i :: 0 <= i < |ps| - 1 ==> ps[i].id < ps[|ps| - 1].id
    ensures var last := ps[|ps| - 1];
            var c := Drain(fmt, cache, batch, ps).1;
            last.id in c && c[last.id] == CachedPacket(last.data, last.timestampNs)
  {
    var init := ps[..|ps| - 1];
    var last := ps[|ps| - 1];
    var before := Drain(fmt, cache, batch, init);
    assert forall i :: 0 <= i < |init| ==> init[i] == ps[i];
    KeysBelow(fmt, cache, init, before.1, last.id);
    DrainLastCached(fmt, cache, batch, ps, before);
  }

  /** A summarized last frame whose id is above every key the other frames
      left in the cache is cached when the drain ends. */
  lemma DrainLastCached(fmt: Format, cache: Cache, batch: seq<PacketSummary>, ps: seq<Incoming>,
                        before: (seq<PacketSummary>, Cache))
    requires |ps| > 0 && Summarized(fmt, ps[|ps| - 1])
    requires before == Drain(fmt, cache, batch, ps[..|ps| - 1])
    requires forall k :: k in before.1 ==> k < ps[|ps| - 1].id
    ensures var last := ps[|ps| - 1];
            var c := Drain(fmt, cache, batch, ps).1;
            last.id in c && c[last.id] == CachedPacket(last.data, last.timestampNs)
  {
    NewestFrameCached(fmt, before.1, before.0, ps[|ps| - 1]);
  }

  /** Every key of a cache grown only by the given frames is below a bound
      that exceeds every earlier key and every frame id. */
  lemma KeysBelow(fmt: Format, cache: Cache, init: seq<Incoming>, grown: Cache, bound: u64)
    requires forall k :: k in grown ==>
               k in cache || exists i :: 0 <= i < |init| && init[i].id == k && Summarized(fmt, init[i])
    requires forall k :: k in cache ==> k < bound
    requires forall i :: 0 <= i < |init| ==> init[i].id < bound
    ensures forall k :: k in grown ==> k < bound
  {
  }

  // ---------------------------------------------------------------------
  // Batching

  /** The summaries awaiting emission and the clock reading of the last
      emission, in milliseconds. */
  datatype Batcher = Batcher(pending: seq<PacketSummary>, lastEmit: nat)

  /** `Instant::elapsed`, which never goes below zero. */
  function Elapsed(b: Batcher, now: nat): nat
  {
    if now >= b.lastEmit then now - b.lastEmit else 0
  }

  /** The emission rule: the batch is full or the timeout has passed. */
  predicate Due(b: Batcher, now: nat)
  {
    |b.pending| >= BatchSize || Elapsed(b, now) >= BatchTimeoutMs
  }

  /** The check after each drain: a due, non-empty batch is emitted and the
      timer restarts; otherwise nothing changes. */
  function Flush(b: Batcher, now: nat): (r: (Batcher, Option<seq<PacketSummary>>))
    ensures r.1.Some? <==> |b.pending| > 0 && Due(b, now)
    ensures r.1.Some? ==> r.1.value == b.pending && r.0 == Batcher([], now)
    ensures r.1.None? ==> r.0 == b
  {
    if Due(b, now) && |b.pending| > 0 then (Batcher([], now), Some(b.pending))
    else (b, None)
  }

  /** No emission is owed: nothing waits, or the batch is neither full nor
      timed out. */
  predicate Settled(b: Batcher, now: nat)
  {
    |b.pending| == 0 || !Due(b, now)
  }

  /** After the check nothing more is owed, and checking again at the same
      instant changes nothing. */
  lemma FlushSettles(b: Batcher, now: nat)
    ensures Settled(Flush(b, now).0, now)
    ensures Flush(Flush(b, now).0, now) == (Flush(b, now).0, None)
  {
  }

  // ---------------------------------------------------------------------
  // The capture loop

  datatype LoopState = LoopState(cache: Cache, batcher: Batcher)

  /** What the loop can observe in one round: the stop signal, or the end of
      a 10 ms sleep, after which it drains the frames waiting in the channel
      and finds the channel either empty or closed by the capture thread. */
  datatype Event = Stop | Poll(arrived: seq<Incoming>, disconnected: bool, now: nat)

  /** The result of one round: the new state, the batches emitted in it, and
      whether the loop goes on. */
  datatype Round = Round(state: LoopState, emitted: seq<seq<PacketSummary>>, running: bool)

  /** Emission of whatever is left on the way out. */
  function FinalFlush(pending: seq<PacketSummary>): (r: seq<seq<PacketSummary>>)
  {
    if |pending| > 0 then [pending] else []
  }

  /** One round of the capture loop. On the stop signal, and when the channel
      turns out closed, a non-empty batch is emitted before the loop ends;
      otherwise the emission rule is applied after the drain. */
  function Step(fmt: Format, s: LoopState, e: Event): Round
  {
    match e
    case Stop =>
      Round(LoopState(s.cache, Batcher([], s.batcher.lastEmit)), FinalFlush(s.batcher.pending), false)
    case Poll(arrived, disconnected, now) =>
      var (pending, cache) := Drain(fmt, s.cache, s.batcher.pending, arrived);
      if disconnected then
        Round(LoopState(cache, Batcher([], s.batcher.lastEmit)), FinalFlush(pending), false)
      else
        var (b, out) := Flush(Batcher(pending, s.batcher.lastEmit), now);
        Round(LoopState(cache, b), if out.Some? then [out.value] else [], true)
  }

  function Concat(batches: seq<seq<PacketSummary>>): seq<PacketSummary>
  {
    if |batches| == 0 then [] else batches[0] + Concat(batches[1..])
  }

  /** The frames an event delivers. */
  function Arrivals(e: Event): seq<Incoming>
  {
    if e.Poll? then e.arrived else []
  }

  /** One round loses and duplicates nothing: the emitted batches followed by
      what still waits are what waited before followed by the new summaries,
      in order; no emitted batch is empty; a round that ends the loop leaves
      nothing waiting; a round that goes on owes no emission; and the cache
      stays within its bound. */
  lemma StepConserves(fmt: Format, s: LoopState, e: Event)
    requires |s.cache| <= MaxCacheSize
    ensures var r := Step(fmt, s, e);
            && Concat(r.emitted) + r.state.batcher.pending == s.batcher.pending + Summaries(fmt, Arrivals(e))
            && (forall i :: 0 <= i < |r.emitted| ==> |r.emitted[i]| > 0)
            && (!r.running ==> |r.state.batcher.pending| == 0)
            && (r.running ==> e.Poll? && Settled(r.state.batcher, e.now))
            && |r.state.cache| <= MaxCacheSize
  {
    var r := Step(fmt, s, e);
    match e
    case Stop =>
      assert Summaries(fmt, Arrivals(e)) == [];
      if |s.batcher.pending| > 0 {
        assert Concat(r.emitted) == s.batcher.pending + Concat([]);
      }
    case Poll(arrived, disconnected, now) =>
      var (pending, cache) := Drain(fmt, s.cache, s.batcher.pending, arrived);
      if disconnected {
        if |pending| > 0 {
          assert Concat(r.emitted) == pending + Concat([]);
        }
      } else {
        var (b, out) := Flush(Batcher(pending, s.batcher.lastEmit), now);
        FlushSettles(Batcher(pending, s.batcher.lastEmit), now);
        if out.Some? {
          assert Concat(r.emitted) == pending + Concat([]);
        }
      }
  }

  /** A whole capture session: rounds until one ends the loop or the events
      run out. Yields the final state, every emitted batch in order, and
      whether the loop still runs. */
  function Run(fmt: Format, s: LoopState, events: seq<Event>): Round
    decreases |events|
  {
    if |events| == 0 then Round(s, [], true)
    else
      var r := Step(fmt, s, events[0]);
      if !r.running then r
      else
        var rest := Run(fmt, r.state, events[1..]);
        Round(rest.state, r.emitted + rest.emitted, rest.running)
  }

  /** The summaries of the frames delivered by the events the session
      consumed. */
  function Delivered(fmt: Format, s: LoopState, events: seq<Event>): seq<PacketSummary>
    decreases |events|
  {
    if |events| == 0 then []
    else
      var r := Step(fmt, s, events[0]);
      Summaries(fmt, Arrivals(events[0])) + (if r.running then Delivered(fmt, r.state, events[1..]) else [])
  }

  lemma ConcatAppend(a: seq<seq<PacketSummary>>, b: seq<seq<PacketSummary>>)
    ensures Concat(a + b) == Concat(a) + Concat(b)
    decreases |a|
  {
    if |a| == 0 {
      assert a + b == b;
    } else {
      assert (a + b)[1..] == a[1..] + b;
      ConcatAppend(a[1..], b);
    }
  }

  /** Two rounds that each conserve summaries conserve them together. */
  lemma ChainConservation(a: seq<seq<PacketSummary>>, b: seq<seq<PacketSummary>>,
                          p0: seq<PacketSummary>, p1: seq<PacketSummary>, p2: seq<PacketSummary>,
                          here: seq<PacketSummary>, later: seq<PacketSummary>)
    requires Concat(a) + p1 == p0 + here
    requires Concat(b) + p2 == p1 + later
    ensures Concat(a + b) + p2 == p0 + (here + later)
  {
    ConcatAppend(a, b);
    calc {
      Concat(a + b) + p2;
      Concat(a) + (Concat(b) + p2);
      Concat(a) + (p1 + later);
      (Concat(a) + p1) + later;
    }
  }

  /** Over a whole session every delivered summary is emitted exactly once,
      in arrival order, except those still waiting when the events run out;
      a session that has ended leaves nothing waiting; and the cache never
      exceeds its bound. */
  lemma {:induction false} RunConserves(fmt: Format, s: LoopState, events: seq<Event>)
    requires |s.cache| <= MaxCacheSize
    ensures var r := Run(fmt, s, events);
            && Concat(r.emitted) + r.state.batcher.pending == s.batcher.pending + Delivered(fmt, s, events)
            && (!r.running ==> |r.state.batcher.pending| == 0)
            && |r.state.cache| <= MaxCacheSize
    decreases |events|
  {
    if |events| > 0 {
      var r := Step(fmt, s, events[0]);
      var here := Summaries(fmt, Arrivals(events[0]));
      StepConserves(fmt, s, events[0]);
      assert Concat(r.emitted) + r.state.batcher.pending == s.batcher.pending + here;
      if r.running {
        var rest := Run(fmt, r.state, events[1..]);
        var later := Delivered(fmt, r.state, events[1..]);
        assert Run(fmt, s, events) == Round(rest.state, r.emitted + rest.emitted, rest.running);
        assert Delivered(fmt, s, events) == here + later;
        RunConserves(fmt, r.state, events[1..]);
        assert Concat(rest.emitted) + rest.state.batcher.pending == r.state.batcher.pending + later;
        ChainConservation(r.emitted, rest.emitted, s.batcher.pending, r.state.batcher.pending,
                          rest.state.batcher.pending, here, later);
      } else {
        assert Run(fmt, s, events) == r;
        assert Delivered(fmt, s, events) == here + [];
      }
    }
  }
}
