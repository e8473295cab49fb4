/**
 Index blobs and the store they are written to: what serialising a table keeps, sorted
 traversal of a blob, and the recursive split that turns an oversize blob into shards.
*/
module Blobs {
  import opened Bytes
  import opened IndexTable
  import opened CellSpec
  import opened Levels

  /** On disk a tombstone keeps no offset. */
  function OnDisk(e: Entry): Entry {
    if e.del then Entry(INVALID_OFFSET, true) else e
  }

  /** Serialising settles each key on its newest entry, tombstones included. */
  function Collapse(t: Table): Blob {
    map k | k in Keys(t.data) + t.flat.Keys && Get(t, k).Some? :: OnDisk(Get(t, k).value)
  }

  function Strip(b: Blob): Blob {
    map k | k in b && !b[k].del :: b[k]
  }

  function Restrict(b: Blob, ks: seq<Key>): Blob {
    map k | k in ks && k in b :: b[k]
  }

  predicate Sorted(ks: seq<Key>) {
    forall i, j | 0 <= i < j < |ks| :: Less(ks[i], ks[j])
  }

  /** Append-only store of index blobs. */
  class IndexStore {
    var blobs: Disk
    var next: nat

    predicate Valid()
      reads this
    {
      forall p | p in blobs :: p < next
    }

    constructor ()
      ensures Valid() && blobs == map[]
    {
      blobs, next := map[], 0;
    }

    method Flush(b: Blob) returns (pos: nat)
      requires Valid()
      modifies this
      ensures Valid() && pos == old(next) && pos < next && blobs == old(blobs)[pos := b]
    {
      pos := next;
      blobs, next := blobs[pos := b], next + 1;
    }

    method Load(pos: nat) returns (b: Blob)
      requires pos in blobs
      ensures b == blobs[pos]
    {
      b := blobs[pos];
    }
  }

  predicate Kept(d: Disk, d': Disk) {
    forall p | p in d :: p in d' && d'[p] == d[p]
  }

  // ---- sorted traversal ----

  predicate Least(s: set<Key>, k: Key) {
    k in s && forall j | j in s && j != k :: Less(k, j)
  }

  lemma LeastOf(s: set<Key>, x: Key, m: Key) returns (k: Key)
    requires x in s && Least(s - {x}, m)
    ensures Least(s, k)
  {
    LessTotal(x, m);
    k := if Less(x, m) then x else m;
    forall j | j in s && j != k ensures Less(k, j) {
      if k == x && j != m {
        LessTransitive(x, m, j);
      }
    }
  }

  lemma {:induction false} MinExists(s: set<Key>)
    requires s != {}
    ensures exists k :: Least(s, k)
    decreases s
  {
    var x :| x in s;
    if s == {x} {
      assert Least(s, x);
    } else {
      MinExists(s - {x});
      var m :| Least(s - {x}, m);
      var k := LeastOf(s, x, m);
    }
  }

  /** The keys of a table in byte order. */
  method SortKeys(s: set<Key>) returns (ks: seq<Key>)
    ensures Sorted(ks) && (forall k :: k in ks <==> k in s)
  {
    ks := [];
    var todo := s;
    while todo != {}
      invariant Sorted(ks)
      invariant forall k :: k in s <==> k in ks || k in todo
      invariant forall i, k | 0 <= i < |ks| && k in todo :: Less(ks[i], k)
      decreases todo
    {
      MinExists(todo);
      var m :| m in todo && Least(todo, m);
      todo, ks := todo - {m}, ks + [m];
    }
  }

  // ---- split ----

  function Concat(chunks: seq<seq<Key>>): seq<Key> {
    if chunks == [] then [] else Concat(chunks[..|chunks| - 1]) + chunks[|chunks| - 1]
  }

  lemma {:induction false} ConcatPlus(a: seq<seq<Key>>, b: seq<seq<Key>>)
    ensures Concat(a + b) == Concat(a) + Concat(b)
  {
    if b == [] {
      assert a + b == a;
    } else {
      var n := |b| - 1;
      assert (a + b)[..|a + b| - 1] == a + b[..n];
      ConcatPlus(a, b[..n]);
    }
  }

  /** A chunk that fits the limit, or cannot be split further. */
  predicate Fits(b: Blob, size: Blob -> nat, limit: nat, chunk: seq<Key>) {
    chunk != [] && (size(Restrict(b, chunk)) <= limit || |chunk| == 1)
  }

  /** `chunk` is one half of the range from `lo` to `hi`, which does not fit. */
  predicate HalfOf(ks: seq<Key>, b: Blob, size: Blob -> nat, limit: nat, lo: nat, hi: nat, chunk: seq<Key>) {
    && lo < hi <= |ks| && !Fits(b, size, limit, ks[lo..hi])
    && (chunk == ks[lo..lo + (hi - lo) / 2] || chunk == ks[lo + (hi - lo) / 2..hi])
  }

  ghost predicate Halved(ks: seq<Key>, b: Blob, size: Blob -> nat, limit: nat, chunk: seq<Key>) {
    exists lo: nat, hi: nat :: HalfOf(ks, b, size, limit, lo, hi, chunk)
  }

  ghost predicate AllHalved(ks: seq<Key>, b: Blob, size: Blob -> nat, limit: nat, chunks: seq<seq<Key>>) {
    forall i | 0 <= i < |chunks| :: Halved(ks, b, size, limit, chunks[i])
  }

  /** Nothing is cut smaller than it has to be: a chunk is the whole, or half of a range that does not fit. */
  ghost predicate Bisected(ks: seq<Key>, b: Blob, size: Blob -> nat, limit: nat, chunks: seq<seq<Key>>) {
    chunks == [ks] || AllHalved(ks, b, size, limit, chunks)
  }

  lemma AllHalvedPlus(ks: seq<Key>, b: Blob, size: Blob -> nat, limit: nat, l: seq<seq<Key>>, r: seq<seq<Key>>)
    requires AllHalved(ks, b, size, limit, l) && AllHalved(ks, b, size, limit, r)
    ensures AllHalved(ks, b, size, limit, l + r)
  {
  }

  lemma SliceOfSlice(ks: seq<Key>, from: nat, to: nat, lo: nat, hi: nat)
    requires from <= to <= |ks| && lo <= hi <= to - from
    ensures ks[from..to][lo..hi] == ks[from + lo..from + hi]
  {
    var part, range := ks[from..to], ks[from + lo..from + hi];
    assert |part[lo..hi]| == |range|;
    assert forall i | 0 <= i < |range| :: part[lo..hi][i] == part[lo + i] == range[i];
  }

  /** What is half of a range of a part is half of that range of the whole. */
  lemma HalfWithin(ks: seq<Key>, from: nat, to: nat, b: Blob, size: Blob -> nat, limit: nat, lo: nat, hi: nat,
                   chunk: seq<Key>)
    requires from <= to <= |ks| && HalfOf(ks[from..to], b, size, limit, lo, hi, chunk)
    ensures from + hi <= |ks| && HalfOf(ks, b, size, limit, from + lo, from + hi, chunk)
  {
    var mid := lo + (hi - lo) / 2;
    SliceOfSlice(ks, from, to, lo, hi);
    if chunk == ks[from..to][lo..mid] {
      SliceOfSlice(ks, from, to, lo, mid);
    } else {
      SliceOfSlice(ks, from, to, mid, hi);
    }
  }

  lemma HalvedWithin(ks: seq<Key>, from: nat, to: nat, b: Blob, size: Blob -> nat, limit: nat, chunk: seq<Key>)
    requires from <= to <= |ks| && Halved(ks[from..to], b, size, limit, chunk)
    ensures Halved(ks, b, size, limit, chunk)
  {
    var lo: nat, hi: nat :| HalfOf(ks[from..to], b, size, limit, lo, hi, chunk);
    HalfWithin(ks, from, to, b, size, limit, lo, hi, chunk);
  }

  /** The chunks of one half of a range that does not fit. */
  lemma HalvesLift(ks: seq<Key>, from: nat, to: nat, b: Blob, size: Blob -> nat, limit: nat, chunks: seq<seq<Key>>)
    requires ks != [] && !Fits(b, size, limit, ks)
    requires (from == 0 && to == |ks| / 2) || (from == |ks| / 2 && to == |ks|)
    requires Bisected(ks[from..to], b, size, limit, chunks)
    ensures AllHalved(ks, b, size, limit, chunks)
  {
    if chunks == [ks[from..to]] {
      assert ks[0..|ks|] == ks;
      assert HalfOf(ks, b, size, limit, 0, |ks|, chunks[0]);
    } else {
      forall i | 0 <= i < |chunks| ensures Halved(ks, b, size, limit, chunks[i]) {
        HalvedWithin(ks, from, to, b, size, limit, chunks[i]);
      }
    }
  }

  ghost predicate AllFit(b: Blob, size: Blob -> nat, limit: nat, chunks: seq<seq<Key>>) {
    forall i | 0 <= i < |chunks| :: Fits(b, size, limit, chunks[i])
  }

  lemma AllFitPlus(b: Blob, size: Blob -> nat, limit: nat, l: seq<seq<Key>>, r: seq<seq<Key>>)
    requires AllFit(b, size, limit, l) && AllFit(b, size, limit, r)
    ensures AllFit(b, size, limit, l + r)
  {
  }

  lemma ConcatOne(ks: seq<Key>)
    ensures Concat([ks]) == ks
  {
    assert [ks][..0] == [];
  }

  lemma HalvesMeet(ks: seq<Key>, mid: nat)
    requires mid <= |ks|
    ensures ks[0..mid] + ks[mid..|ks|] == ks
  {
  }

  /** The chunks of both halves are chunks of a range that does not fit. */
  lemma Joined(ks: seq<Key>, b: Blob, size: Blob -> nat, limit: nat, l: seq<seq<Key>>, r: seq<seq<Key>>)
    requires ks != [] && !Fits(b, size, limit, ks)
    requires Bisected(ks[0..|ks| / 2], b, size, limit, l) && Bisected(ks[|ks| / 2..|ks|], b, size, limit, r)
    ensures AllHalved(ks, b, size, limit, l + r)
  {
    HalvesLift(ks, 0, |ks| / 2, b, size, limit, l);
    HalvesLift(ks, |ks| / 2, |ks|, b, size, limit, r);
    AllHalvedPlus(ks, b, size, limit, l, r);
  }

  /** `split_recursive`: bisect by index until every chunk fits. */
  method SplitRecursive(ks: seq<Key>, b: Blob, size: Blob -> nat, limit: nat) returns (chunks: seq<seq<Key>>)
    ensures Concat(chunks) == ks && AllFit(b, size, limit, chunks)
    ensures ks != [] ==> chunks != [] && (|chunks| == 1 <==> Fits(b, size, limit, ks))
    ensures Bisected(ks, b, size, limit, chunks)
    decreases |ks|
  {
    if ks == [] {
      return [];
    }
    if size(Restrict(b, ks)) <= limit || |ks| == 1 {
      ConcatOne(ks);
      return [ks];
    }
    var mid := |ks| / 2;
    var left := SplitRecursive(ks[0..mid], b, size, limit);
    var right := SplitRecursive(ks[mid..|ks|], b, size, limit);
    chunks := left + right;
    ConcatPlus(left, right);
    HalvesMeet(ks, mid);
    AllFitPlus(b, size, limit, left, right);
    Joined(ks, b, size, limit, left, right);
  }
}
