/** The stable ordering of summaries by id that the export command applies
    before writing (`sort_by_key` on the id). */
module Sorting {
  import opened MachineInt
  import opened Model

  /** Ids never decrease from one entry to the next. */
  predicate SortedById(s: seq<PacketSummary>)
    decreases |s|
  {
    |s| <= 1 || (s[0].id <= s[1].id && SortedById(s[1..]))
  }

  /** In a sorted list every entry's id is at most every later entry's id. */
  lemma {:induction false} SortedPairwise(s: seq<PacketSummary>)
    requires SortedById(s)
    ensures forall i, j :: 0 <= i < j < |s| ==> s[i].id <= s[j].id
    decreases |s|
  {
    if |s| > 1 {
      SortedPairwise(s[1..]);
      assert forall j :: 1 <= j < |s| ==> s[j] == s[1..][j - 1];
    }
  }

  /** The entries of `s` carrying id `k`, in their order in `s`. */
  function WithId(s: seq<PacketSummary>, k: u64): seq<PacketSummary>
    decreases |s|
  {
    if |s| == 0 then []
    else (if s[0].id == k then [s[0]] else []) + WithId(s[1..], k)
  }

  lemma {:induction false} WithIdAbove(s: seq<PacketSummary>, k: u64)
    requires SortedById(s) && (|s| > 0 ==> s[0].id > k)
    ensures WithId(s, k) == []
    decreases |s|
  {
    if |s| > 0 {
      WithIdAbove(s[1..], k);
    }
  }

  lemma {:induction false} WithIdAppend(s: seq<PacketSummary>, x: PacketSummary, k: u64)
    ensures WithId(s + [x], k) == WithId(s, k) + (if x.id == k then [x] else [])
    decreases |s|
  {
    if |s| == 0 {
      assert WithId([x], k) == (if x.id == k then [x] else []) + WithId([], k);
    } else {
      var head := if s[0].id == k then [s[0]] else [];
      var tail := if x.id == k then [x] else [];
      assert (s + [x])[0] == s[0];
      assert (s + [x])[1..] == s[1..] + [x];
      assert WithId(s + [x], k) == head + WithId(s[1..] + [x], k);
      WithIdAppend(s[1..], x, k);
      assert WithId(s, k) == head + WithId(s[1..], k);
      Associative(head, WithId(s[1..], k), tail);
    }
  }

  /** Insertion after every entry whose id is not larger, which is what keeps
      the sort stable (`InsertStable`). */
  function Insert(x: PacketSummary, s: seq<PacketSummary>): (r: seq<PacketSummary>)
    requires SortedById(s)
    ensures SortedById(r)
    ensures multiset(r) == multiset(s) + multiset{x}
    ensures |r| == |s| + 1
    ensures r[0] == x || (|s| > 0 && r[0] == s[0])
    decreases |s|
  {
    if |s| == 0 then [x]
    else if x.id < s[0].id then [x] + s
    else
      var t := Insert(x, s[1..]);
      assert s == [s[0]] + s[1..];
      assert ([s[0]] + t)[1..] == t;
      [s[0]] + t
  }

  lemma Associative(a: seq<PacketSummary>, b: seq<PacketSummary>, c: seq<PacketSummary>)
    ensures a + (b + c) == (a + b) + c
  {
  }

  lemma WithIdCons(y: PacketSummary, t: seq<PacketSummary>, k: u64)
    ensures WithId([y] + t, k) == (if y.id == k then [y] else []) + WithId(t, k)
  {
    assert ([y] + t)[1..] == t;
  }

  /** Inserting `x` adds it after every entry already carrying its id. */
  lemma {:induction false} InsertStable(x: PacketSummary, s: seq<PacketSummary>, k: u64)
    requires SortedById(s)
    ensures WithId(Insert(x, s), k) == WithId(s, k) + (if x.id == k then [x] else [])
    decreases |s|
  {
    var tail := if x.id == k then [x] else [];
    if |s| == 0 {
      assert Insert(x, s) == [x] + [];
      WithIdCons(x, [], k);
    } else if x.id < s[0].id {
      assert Insert(x, s) == [x] + s;
      WithIdCons(x, s, k);
      if x.id == k {
        WithIdAbove(s, k);
      }
    } else {
      var t := Insert(x, s[1..]);
      var head := if s[0].id == k then [s[0]] else [];
      assert Insert(x, s) == [s[0]] + t;
      InsertStable(x, s[1..], k);
      assert WithId(t, k) == WithId(s[1..], k) + tail;
      WithIdCons(s[0], t, k);
      assert WithId(s, k) == head + WithId(s[1..], k);
      Associative(head, WithId(s[1..], k), tail);
    }
  }

  /** A sort by id: the result is ordered and holds the same entries
      (`SortStable` adds that it is stable). */
  function SortById(s: seq<PacketSummary>): (r: seq<PacketSummary>)
    ensures SortedById(r)
    ensures multiset(r) == multiset(s)
    ensures |r| == |s|
    decreases |s|
  {
    if |s| == 0 then []
    else
      var init := s[..|s| - 1];
      assert s == init + [s[|s| - 1]];
      Insert(s[|s| - 1], SortById(init))
  }

  /** Entries sharing an id keep their relative order. */
  lemma {:induction false} SortStable(s: seq<PacketSummary>, k: u64)
    ensures WithId(SortById(s), k) == WithId(s, k)
    decreases |s|
  {
    if |s| > 0 {
      var init := s[..|s| - 1];
      var last := s[|s| - 1];
      assert s == init + [last];
      SortStable(init, k);
      InsertStable(last, SortById(init), k);
      WithIdAppend(init, last, k);
    }
  }

  /** The sorted list is as long as the input and every entry of it is an
      entry of the input. */
  lemma SortMembers(s: seq<PacketSummary>)
    ensures forall i :: 0 <= i < |SortById(s)| ==> SortById(s)[i] in s
    ensures |SortById(s)| == |s|
  {
    var r := SortById(s);
    assert |r| == |multiset(r)| == |multiset(s)| == |s|;
    forall i | 0 <= i < |r|
      ensures r[i] in s
    {
      assert r[i] in multiset(r);
    }
  }
}
