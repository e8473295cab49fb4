/**
 The on-disk levels of one cell: an L0 blob, and below it a single L1 blob or a run of shards
 ordered by key range.  A position names a blob in the index store.
*/
module Levels {
  import opened Bytes
  import opened IndexTable
  import opened CellSpec

  /** One shard: the bounds of its content and where its blob is. */
  datatype Shard = Shard(min: Key, max: Key, pos: nat)

  datatype Levels = Levels(l0: Option<nat>, l1: Option<nat>, shards: seq<Shard>)

  type Disk = map<nat, Blob>

  /** Bounds in order and disjoint. */
  predicate Ordered(sh: seq<Shard>) {
    && (forall i | 0 <= i < |sh| :: Leq(sh[i].min, sh[i].max))
    && (forall i, j | 0 <= i < j < |sh| :: Less(sh[i].max, sh[j].min))
  }

  predicate Tight(s: Shard, b: Blob) {
    && s.min in b && s.max in b
    && forall k | k in b :: Leq(s.min, k) && Leq(k, s.max)
  }

  predicate ShardsOk(sh: seq<Shard>, d: Disk) {
    && Ordered(sh)
    && forall i | 0 <= i < |sh| :: sh[i].pos in d && Tight(sh[i], d[sh[i].pos])
  }

  predicate IsSharded(lv: Levels) {
    lv.shards != []
  }

  predicate LevelsOk(lv: Levels, d: Disk) {
    && (lv.l0.Some? ==> lv.l0.value in d)
    && (lv.l1.Some? ==> lv.l1.value in d)
    && (IsSharded(lv) ==> lv.l1.None?)
    && ShardsOk(lv.shards, d)
  }

  /** Every blob position the levels use. */
  function Positions(lv: Levels): set<nat> {
    (if lv.l0.Some? then {lv.l0.value} else {})
    + (if lv.l1.Some? then {lv.l1.value} else {})
    + (set i | 0 <= i < |lv.shards| :: lv.shards[i].pos)
  }

  /** How many shards begin at or below `k`: the btree predecessor is the last of them. */
  function Predecessors(sh: seq<Shard>, k: Key): (n: nat)
    requires Ordered(sh)
    ensures n <= |sh|
    ensures forall i | 0 <= i < n :: Leq(sh[i].min, k)
    ensures forall i | n <= i < |sh| :: Less(k, sh[i].min)
  {
    if sh == [] then 0
    else
      var last := |sh| - 1;
      OrderedPrefix(sh, last);
      if Leq(sh[last].min, k) then
        (AllBelow(sh, last, k); |sh|)
      else
        (LessTotal(sh[last].min, k); Predecessors(sh[..last], k))
  }

  lemma OrderedPrefix(sh: seq<Shard>, n: nat)
    requires Ordered(sh) && n <= |sh|
    ensures Ordered(sh[..n])
  {
  }

  lemma AllBelow(sh: seq<Shard>, n: nat, k: Key)
    requires Ordered(sh) && n < |sh| && Leq(sh[n].min, k)
    ensures forall i | 0 <= i < n :: Leq(sh[i].min, k)
  {
    forall i | 0 <= i < n ensures Leq(sh[i].min, k) {
      assert Leq(sh[i].min, sh[i].max) && Less(sh[i].max, sh[n].min);
      if sh[i].min != sh[i].max {
        LessTransitive(sh[i].min, sh[i].max, sh[n].min);
      }
      if sh[n].min != k {
        LessTransitive(sh[i].min, sh[n].min, k);
      }
    }
  }

  predicate Covers(s: Shard, k: Key) {
    Leq(s.min, k) && Leq(k, s.max)
  }

  /** `shard_for`: the predecessor, if its content range reaches `k`. */
  function ShardFor(sh: seq<Shard>, k: Key): (r: Option<nat>)
    requires Ordered(sh)
    ensures r.Some? ==> r.value < |sh| && Covers(sh[r.value], k)
  {
    var n := Predecessors(sh, k);
    if n > 0 && Leq(k, sh[n - 1].max) then Some(n - 1) else None
  }

  /** The shard picked is the only one whose range covers the key; none is picked only when none covers it. */
  lemma ShardForCovers(sh: seq<Shard>, k: Key, i: nat)
    requires Ordered(sh) && i < |sh|
    ensures ShardFor(sh, k) == Some(i) <==> Covers(sh[i], k)
  {
    var n := Predecessors(sh, k);
    if Covers(sh[i], k) {
      assert i < n by {
        if n <= i {
          NotLeqLess(sh[i].min, k);
        }
      }
      if i < n - 1 {
        assert Less(sh[i].max, sh[n - 1].min) && Leq(sh[n - 1].min, k);
        LessLeq(sh[i].max, sh[n - 1].min, k);
        NotLeqLess(k, sh[i].max);
      }
    }
  }

  lemma NotLeqLess(a: Key, b: Key)
    ensures !(Leq(a, b) && Less(b, a))
  {
    LessIrreflexive(a);
    if Less(a, b) && Less(b, a) {
      LessTransitive(a, b, a);
    }
  }

  lemma LessLeq(a: Key, b: Key, c: Key)
    requires Less(a, b) && Leq(b, c)
    ensures Less(a, c)
  {
    if b != c {
      LessTransitive(a, b, c);
    }
  }

  lemma LeqLess(a: Key, b: Key, c: Key)
    requires Leq(a, b) && Less(b, c)
    ensures Less(a, c)
  {
    if a != b {
      LessTransitive(a, b, c);
    }
  }

  lemma MapPlus(a: Blob, b: Blob, c: Blob)
    ensures (a + b) + c == a + (b + c)
  {
  }

  /** All shards together, read as one blob. */
  function Union(sh: seq<Shard>, d: Disk): Blob {
    if sh == [] then map[]
    else Union(sh[..|sh| - 1], d) + (if sh[|sh| - 1].pos in d then d[sh[|sh| - 1].pos] else map[])
  }

  /** The one shard a lookup opens answers for all of them. */
  lemma {:induction false} UnionLookup(sh: seq<Shard>, d: Disk, k: Key)
    requires ShardsOk(sh, d)
    ensures Find(Union(sh, d), k)
         == var i := ShardFor(sh, k); if i.Some? then Find(d[sh[i.value].pos], k) else None
  {
    if sh != [] {
      var n := |sh| - 1;
      OrderedPrefix(sh, n);
      UnionLookup(sh[..n], d, k);
      if k in d[sh[n].pos] {
        ShardForCovers(sh, k, n);
      } else {
        var i, j := ShardFor(sh, k), ShardFor(sh[..n], k);
        if i.Some? && i.value < n {
          ShardForCovers(sh[..n], k, i.value);
        }
        if j.Some? {
          ShardForCovers(sh, k, j.value);
        }
      }
    }
  }

  function BlobAt(d: Disk, p: Option<nat>): Option<Blob> {
    if p.Some? && p.value in d then Some(d[p.value]) else None
  }

  /** The contents the levels stand for. */
  function ImageOf(lv: Levels, d: Disk): Image {
    Image(BlobAt(d, lv.l0), if IsSharded(lv) then Some(Union(lv.shards, d)) else BlobAt(d, lv.l1), IsSharded(lv))
  }

  /** Lookup the way the read path walks the levels: L0, then L1 or the covering shard. */
  function Lookup(lv: Levels, d: Disk, k: Key): Option<Entry>
    requires LevelsOk(lv, d)
  {
    Or(InLevel(BlobAt(d, lv.l0), k),
       if IsSharded(lv) then
         var i := ShardFor(lv.shards, k);
         if i.Some? then Find(d[lv.shards[i.value].pos], k) else None
       else InLevel(BlobAt(d, lv.l1), k))
  }

  lemma LookupIsImage(lv: Levels, d: Disk, k: Key)
    requires LevelsOk(lv, d)
    ensures View(Lookup(lv, d, k)) == DiskVal(ImageOf(lv, d), k)
  {
    UnionLookup(lv.shards, d, k);
  }
}
