/** The bounded raw-packet cache shared by the capture loop and the commands:
    an ordered map from packet id to frame, trimmed to its lowest ids after
    each insertion. */
module PacketCache {
  import opened MachineInt
  import opened Model

  const MaxCacheSize: nat := 100_000

  type Cache = map<u64, CachedPacket>

  lemma {:induction false} LeastOf(s: set<u64>) returns (m: u64)
    requires s != {}
    ensures m in s && forall k :: k in s ==> m <= k
  {
    var x :| x in s;
    if s == {x} {
      m := x;
    } else {
      var m' := LeastOf(s - {x});
      m := if x < m' then x else m';
      assert forall k :: k in s ==> k == x || k in s - {x};
    }
  }

  lemma MinExists(s: set<u64>)
    requires s != {}
    ensures exists m :: m in s && forall k :: k in s ==> m <= k
  {
    var m := LeastOf(s);
  }

  /** The first key of the ordered map. */
  function MinKey(s: set<u64>): (m: u64)
    requires s != {}
    ensures m in s && forall k :: k in s ==> m <= k
  {
    MinExists(s);
    var m :| m in s && forall k :: k in s ==> m <= k;
    m
  }

  /** `evicted` is the set of the `n` lowest keys of `keys`. */
  ghost predicate LowestKeys(evicted: set<u64>, keys: set<u64>, n: nat)
  {
    && evicted <= keys
    && |evicted| == n
    && forall e, k :: e in evicted && k in keys - evicted ==> e < k
  }

  /** Adding the least key to the lowest `n` keys of the others gives the
      lowest `n + 1` keys of the whole. */
  lemma LowestKeysStep(keys: set<u64>, m: u64, evicted: set<u64>, n: nat)
    requires m in keys && forall k :: k in keys ==> m <= k
    requires LowestKeys(evicted, keys - {m}, n)
    ensures LowestKeys(evicted + {m}, keys, n + 1)
  {
    assert m !in evicted;
    assert keys - (evicted + {m}) == (keys - {m}) - evicted;
  }

  /** Removes the `n` lowest keys, one first key at a time. */
  function EvictLowest(c: Cache, n: nat): (r: Cache)
    requires n <= |c|
    ensures r.Keys <= c.Keys
    ensures LowestKeys(c.Keys - r.Keys, c.Keys, n)
    ensures forall k :: k in r ==> r[k] == c[k]
    decreases n
  {
    if n == 0 then c
    else
      var m := MinKey(c.Keys);
      var rest := c - {m};
      assert rest.Keys == c.Keys - {m};
      assert |rest| == |rest.Keys| == |c.Keys| - 1 == |c| - 1;
      var r := EvictLowest(rest, n - 1);
      assert forall k :: k in r ==> r[k] == rest[k] == c[k];
      LowestKeysStep(c.Keys, m, rest.Keys - r.Keys, n - 1);
      assert c.Keys - r.Keys == (rest.Keys - r.Keys) + {m};
      r
  }

  /** The insertion and trimming in the capture loop: store the frame under
      its id, then, if the map holds more than `MaxCacheSize` entries, remove
      the surplus lowest ids. */
  function InsertAndEvict(c: Cache, id: u64, packet: CachedPacket): (r: Cache)
    ensures |r| <= MaxCacheSize
    ensures |c[id := packet]| <= MaxCacheSize ==> r == c[id := packet]
    ensures |c[id := packet]| > MaxCacheSize ==>
              && |r| == MaxCacheSize
              && LowestKeys(c[id := packet].Keys - r.Keys, c[id := packet].Keys, |c[id := packet]| - MaxCacheSize)
    ensures r.Keys <= c.Keys + {id}
    ensures forall k :: k in r ==> r[k] == c[id := packet][k]
  {
    var inserted := c[id := packet];
    if |inserted| > MaxCacheSize then
      var r := EvictLowest(inserted, |inserted| - MaxCacheSize);
      assert |inserted.Keys - r.Keys| == |inserted.Keys| - |r.Keys|;
      r
    else inserted
  }

  /** An id above every cached id is the newest entry, so it is never among
      the evicted ones and its frame is stored. */
  lemma FreshIdSurvives(c: Cache, id: u64, packet: CachedPacket)
    requires forall k :: k in c ==> k < id
    ensures var r := InsertAndEvict(c, id, packet);
            id in r && r[id] == packet
  {
    var inserted := c[id := packet];
    var r := InsertAndEvict(c, id, packet);
    if |inserted| > MaxCacheSize {
      var evicted := inserted.Keys - r.Keys;
      assert |r| > 0;
      var k :| k in r;
      assert k in inserted.Keys - evicted;
      assert k <= id;
      assert id !in evicted;
    }
  }
}
