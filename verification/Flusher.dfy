/**
 The index flusher: merges a cell's dirty table into its levels in every output shape, splits
 and rewrites shards, re-points relocated values and moves flagged blobs.
*/
module Flusher {
  import opened Bytes
  import opened IndexTable
  import opened CellSpec
  import opened Levels
  import opened Blobs

  /** `sh` is a well-formed run of shards holding exactly `b`. */
  predicate Holds(sh: seq<Shard>, d: Disk, b: Blob) {
    ShardsOk(sh, d) && Union(sh, d) == b
  }

  // ---- runs of shards ----

  lemma {:induction false} UnionKept(sh: seq<Shard>, d: Disk, d': Disk)
    requires ShardsOk(sh, d) && Kept(d, d')
    ensures ShardsOk(sh, d') && Union(sh, d') == Union(sh, d)
  {
    if sh != [] {
      OrderedPrefix(sh, |sh| - 1);
      UnionKept(sh[..|sh| - 1], d, d');
    }
  }

  /** Two runs in order make one run. */
  lemma {:induction false} UnionPlus(a: seq<Shard>, b: seq<Shard>, d: Disk)
    ensures Union(a + b, d) == Union(a, d) + Union(b, d)
  {
    if b == [] {
      assert a + b == a;
    } else {
      var n := |b| - 1;
      var last := if b[n].pos in d then d[b[n].pos] else map[];
      assert (a + b)[..|a + b| - 1] == a + b[..n] && (a + b)[|a + b| - 1] == b[n];
      UnionPlus(a, b[..n], d);
      MapPlus(Union(a, d), Union(b[..n], d), last);
    }
  }

  lemma JoinRuns(a: seq<Shard>, b: seq<Shard>, d: Disk)
    requires ShardsOk(a, d) && ShardsOk(b, d)
    requires forall i, j | 0 <= i < |a| && 0 <= j < |b| :: Less(a[i].max, b[j].min)
    ensures ShardsOk(a + b, d) && Union(a + b, d) == Union(a, d) + Union(b, d)
  {
    UnionPlus(a, b, d);
    var c := a + b;
    forall i, j | 0 <= i < j < |c| ensures Less(c[i].max, c[j].min) {
      if j < |a| {
        assert c[i] == a[i] && c[j] == a[j];
      } else if |a| <= i {
        assert c[i] == b[i - |a|] && c[j] == b[j - |a|];
      } else {
        assert c[i] == a[i] && c[j] == b[j - |a|];
      }
    }
  }

  /** A single shard written under its content bounds. */
  lemma OneShard(ks: seq<Key>, b: Blob, d: Disk, pos: nat)
    requires Sorted(ks) && ks != [] && pos in d && d[pos] == b && (forall k :: k in ks <==> k in b)
    ensures Holds([Shard(ks[0], ks[|ks| - 1], pos)], d, b)
  {
    var s := Shard(ks[0], ks[|ks| - 1], pos);
    forall k | k in b ensures Leq(s.min, k) && Leq(k, s.max) {
      var i :| 0 <= i < |ks| && ks[i] == k;
    }
    assert [s][..0] == [];
    assert Union([s], d) == map[] + b;
  }

  lemma SortedSlices(a: seq<Key>, c: seq<Key>)
    requires Sorted(a + c)
    ensures Sorted(a) && Sorted(c) && forall i, j | 0 <= i < |a| && 0 <= j < |c| :: Less(a[i], c[j])
  {
    var s := a + c;
    assert forall i | 0 <= i < |a| :: s[i] == a[i];
    assert forall j | 0 <= j < |c| :: s[|a| + j] == c[j];
  }

  /** `sh` holds the part of `b` under `ks`, each shard bounded by keys of `ks`. */
  predicate Writes(sh: seq<Shard>, d: Disk, b: Blob, ks: seq<Key>) {
    && Holds(sh, d, Restrict(b, ks))
    && forall i | 0 <= i < |sh| :: sh[i].min in ks && sh[i].max in ks
  }

  /** The first `n` chunks are written, one shard each. */
  predicate Chunked(sh: seq<Shard>, was: Disk, d: Disk, b: Blob, chunks: seq<seq<Key>>, n: nat)
    requires n <= |chunks|
  {
    && |sh| == n && Writes(sh, d, b, Concat(chunks[..n]))
    && forall i | 0 <= i < n :: sh[i].pos !in was && sh[i].pos in d && d[sh[i].pos] == Restrict(b, chunks[i])
  }

  lemma ChunkedStep(sh: seq<Shard>, s: Shard, was: Disk, d: Disk, d': Disk, b: Blob, chunks: seq<seq<Key>>, n: nat)
    requires n < |chunks| && |sh| == n && s.pos !in d && Kept(was, d)
    requires forall i | 0 <= i < n :: sh[i].pos !in was && sh[i].pos in d && d[sh[i].pos] == Restrict(b, chunks[i])
    requires d' == d[s.pos := Restrict(b, chunks[n])]
    requires Concat(chunks[..n + 1]) == Concat(chunks[..n]) + chunks[n]
    requires Writes(sh + [s], d', b, Concat(chunks[..n]) + chunks[n])
    ensures Chunked(sh + [s], was, d', b, chunks, n + 1) && Kept(was, d')
  {
    var out := sh + [s];
    forall i | 0 <= i < n + 1
      ensures out[i].pos !in was && out[i].pos in d' && d'[out[i].pos] == Restrict(b, chunks[i])
    {
      assert out[i] == if i < n then sh[i] else s;
    }
  }

  /** Chunk `n` is not empty, follows the chunks before it, and names keys of `b`. */
  predicate NextChunk(chunks: seq<seq<Key>>, n: nat, b: Blob)
    requires n < |chunks|
  {
    && chunks[n] != [] && Sorted(Concat(chunks[..n]) + chunks[n])
    && Concat(chunks[..n + 1]) == Concat(chunks[..n]) + chunks[n]
    && forall k | k in chunks[n] :: k in b
  }

  /** Writes every chunk as its own shard. */
  method FlushShardTables(store: IndexStore, chunks: seq<seq<Key>>, b: Blob) returns (sh: seq<Shard>)
    requires store.Valid() && forall n: nat | n < |chunks| :: NextChunk(chunks, n, b)
    modifies store
    ensures store.Valid() && Kept(old(store.blobs), store.blobs)
    ensures Chunked(sh, old(store.blobs), store.blobs, b, chunks, |chunks|)
  {
    sh := [];
    ghost var was := store.blobs;
    for n := 0 to |chunks|
      invariant store.Valid() && Kept(was, store.blobs)
      invariant Chunked(sh, was, store.blobs, b, chunks, n)
    {
      assert NextChunk(chunks, n, b);
      ghost var before := store.blobs;
      var s := FlushOne(store, sh, Concat(chunks[..n]), chunks[n], b);
      ChunkedStep(sh, s, was, before, store.blobs, b, chunks, n);
      sh := sh + [s];
    }
  }

  method FlushOne(store: IndexStore, ghost sh: seq<Shard>, ghost done: seq<Key>, chunk: seq<Key>, b: Blob)
    returns (s: Shard)
    requires store.Valid() && Writes(sh, store.blobs, b, done) && chunk != []
    requires Sorted(done + chunk) && forall k | k in chunk :: k in b
    modifies store
    ensures store.Valid() && s.pos !in old(store.blobs)
    ensures store.blobs == old(store.blobs)[s.pos := Restrict(b, chunk)]
    ensures Writes(sh + [s], store.blobs, b, done + chunk)
  {
    ghost var before := store.blobs;
    var pos := store.Flush(Restrict(b, chunk));
    AppendShard(sh, done, chunk, b, before, store.blobs, pos);
    s := Shard(chunk[0], chunk[|chunk| - 1], pos);
  }

  lemma PrefixConcat(chunks: seq<seq<Key>>, n: nat)
    requires n < |chunks| && Sorted(Concat(chunks))
    ensures Concat(chunks[..n + 1]) == Concat(chunks[..n]) + chunks[n]
    ensures Sorted(Concat(chunks[..n + 1]))
    ensures Concat(chunks) == Concat(chunks[..n + 1]) + Concat(chunks[n + 1..])
  {
    ConcatNext(chunks, n);
    Rejoin(chunks, n + 1);
    ConcatCut(chunks, chunks[..n + 1], chunks[n + 1..]);
    SortedPart(Concat(chunks), Concat(chunks[..n + 1]), Concat(chunks[n + 1..]));
  }

  lemma Rejoin(chunks: seq<seq<Key>>, n: nat)
    requires n <= |chunks|
    ensures chunks == chunks[..n] + chunks[n..]
  {
  }

  lemma ConcatNext(chunks: seq<seq<Key>>, n: nat)
    requires n < |chunks|
    ensures Concat(chunks[..n + 1]) == Concat(chunks[..n]) + chunks[n]
  {
    assert chunks[..n] + [chunks[n]] == chunks[..n + 1];
    ConcatSnoc(chunks[..n], chunks[n]);
  }

  lemma SortedPart(all: seq<Key>, a: seq<Key>, b: seq<Key>)
    requires Sorted(all) && all == a + b
    ensures Sorted(a)
  {
    SortedSlices(a, b);
  }

  lemma ConcatSnoc(chunks: seq<seq<Key>>, last: seq<Key>)
    ensures Concat(chunks + [last]) == Concat(chunks) + last
  {
    assert (chunks + [last])[..|chunks|] == chunks;
  }

  lemma ConcatCut(chunks: seq<seq<Key>>, a: seq<seq<Key>>, b: seq<seq<Key>>)
    requires chunks == a + b
    ensures Concat(chunks) == Concat(a) + Concat(b)
  {
    ConcatPlus(a, b);
  }

  lemma ChunkWithin(chunks: seq<seq<Key>>, n: nat, b: Blob)
    requires n < |chunks| && Sorted(Concat(chunks)) && forall k | k in Concat(chunks) :: k in b
    ensures forall k | k in chunks[n] :: k in b
  {
    PrefixConcat(chunks, n);
    MiddleWithin(Concat(chunks), Concat(chunks[..n]), chunks[n], Concat(chunks[n + 1..]), b);
  }

  lemma MiddleWithin(all: seq<Key>, before: seq<Key>, chunk: seq<Key>, rest: seq<Key>, b: Blob)
    requires all == (before + chunk) + rest && forall k | k in all :: k in b
    ensures forall k | k in chunk :: k in b
  {
    forall i | 0 <= i < |chunk| ensures chunk[i] in b {
      assert all[|before| + i] == chunk[i];
    }
  }

  lemma AppendShard(sh: seq<Shard>, done: seq<Key>, chunk: seq<Key>, b: Blob, d: Disk, d': Disk, pos: nat)
    requires Writes(sh, d, b, done) && Kept(d, d') && chunk != []
    requires pos in d' && d'[pos] == Restrict(b, chunk)
    requires Sorted(done + chunk) && forall k | k in chunk :: k in b
    ensures Writes(sh + [Shard(chunk[0], chunk[|chunk| - 1], pos)], d', b, done + chunk)
  {
    var one := [Shard(chunk[0], chunk[|chunk| - 1], pos)];
    SortedSlices(done, chunk);
    UnionKept(sh, d, d');
    OneShard(chunk, Restrict(b, chunk), d', pos);
    BoundsBefore(sh, done, chunk, one[0]);
    JoinRuns(sh, one, d');
    RestrictPlus(b, done, chunk);
    assert Holds(sh + one, d', Restrict(b, done + chunk));
    BoundsWithin(sh, done, chunk, one[0]);
  }

  lemma BoundsBefore(sh: seq<Shard>, done: seq<Key>, chunk: seq<Key>, s: Shard)
    requires forall i | 0 <= i < |sh| :: sh[i].max in done
    requires chunk != [] && s.min == chunk[0]
    requires forall i, j | 0 <= i < |done| && 0 <= j < |chunk| :: Less(done[i], chunk[j])
    ensures forall i | 0 <= i < |sh| :: Less(sh[i].max, s.min)
  {
    forall i | 0 <= i < |sh| ensures Less(sh[i].max, s.min) {
      var m :| 0 <= m < |done| && done[m] == sh[i].max;
    }
  }

  lemma BoundsWithin(sh: seq<Shard>, done: seq<Key>, chunk: seq<Key>, s: Shard)
    requires forall i | 0 <= i < |sh| :: sh[i].min in done && sh[i].max in done
    requires s.min in chunk && s.max in chunk
    ensures forall i | 0 <= i < |sh + [s]| :: (sh + [s])[i].min in done + chunk && (sh + [s])[i].max in done + chunk
  {
  }

  lemma RestrictPlus(b: Blob, done: seq<Key>, chunk: seq<Key>)
    ensures Restrict(b, done + chunk) == Restrict(b, done) + Restrict(b, chunk)
  {
  }

  predicate Small(b: Blob, size: Blob -> nat, limit: nat) {
    size(b) <= limit || |b| <= 1
  }

  /** The chunks a blob is written in. */
  method ChunksOf(b: Blob, size: Blob -> nat, limit: nat) returns (chunks: seq<seq<Key>>)
    ensures Sorted(Concat(chunks)) && (forall k :: k in Concat(chunks) <==> k in b)
    ensures forall i: nat | i < |chunks| :: chunks[i] != [] && Small(Restrict(b, chunks[i]), size, limit)
    ensures b != map[] ==> chunks != [] && (|chunks| == 1 <==> Small(b, size, limit))
  {
    var ks := SortKeys(b.Keys);
    if ks == [] {
      return [];
    }
    if size(b) <= limit {
      assert Concat([ks]) == Concat([]) + ks;
      assert Restrict(b, ks) == b;
      return [ks];
    }
    chunks := SplitRecursive(ks, b, size, limit);
    assert Restrict(b, ks) == b;
    SortedCount(ks, b);
    SmallChunks(b, size, limit, chunks);
  }

  lemma SmallChunks(b: Blob, size: Blob -> nat, limit: nat, chunks: seq<seq<Key>>)
    requires AllFit(b, size, limit, chunks)
    ensures forall i: nat | i < |chunks| :: chunks[i] != [] && Small(Restrict(b, chunks[i]), size, limit)
  {
    forall i: nat | i < |chunks| ensures chunks[i] != [] && Small(Restrict(b, chunks[i]), size, limit) {
      assert Fits(b, size, limit, chunks[i]);
      if |chunks[i]| == 1 {
        assert Restrict(b, chunks[i]).Keys <= {chunks[i][0]};
        SubsetSize(Restrict(b, chunks[i]).Keys, chunks[i][0]);
      }
    }
  }

  /** One sorted key names one entry, and the other way round. */
  lemma SortedCount(ks: seq<Key>, b: Blob)
    requires Sorted(ks) && ks != [] && forall k :: k in ks <==> k in b
    ensures |ks| == 1 <==> |b| <= 1
  {
    assert ks[0] in b;
    if |ks| == 1 {
      assert b.Keys == {ks[0]};
    } else {
      assert ks[1] in ks && Less(ks[0], ks[1]);
      LessIrreflexive(ks[0]);
      assert {ks[0], ks[1]} <= b.Keys;
      SubsetCount({ks[0], ks[1]}, b.Keys);
    }
  }

  lemma {:induction false} SubsetCount(a: set<Key>, b: set<Key>)
    requires a <= b
    ensures |a| <= |b|
    decreases a
  {
    if a != {} {
      var x :| x in a;
      SubsetCount(a - {x}, b - {x});
    }
  }

  lemma SubsetSize(s: set<Key>, k: Key)
    requires s <= {k}
    ensures |s| <= 1
  {
    if k in s {
      assert s == {k};
    } else {
      assert s == {};
    }
  }

  /** Writes a blob as one shard, or as several when it outgrew the limit; an empty blob leaves no shard. */
  method WriteShards(store: IndexStore, b: Blob, size: Blob -> nat, limit: nat) returns (sh: seq<Shard>)
    requires store.Valid()
    modifies store
    ensures store.Valid() && Kept(old(store.blobs), store.blobs)
    ensures Holds(sh, store.blobs, b) && (b != map[] ==> sh != [] && (|sh| == 1 <==> Small(b, size, limit)))
    ensures forall i | 0 <= i < |sh| :: sh[i].pos !in old(store.blobs) && sh[i].min in b && sh[i].max in b
    ensures forall i | 0 <= i < |sh| :: Small(store.blobs[sh[i].pos], size, limit)
  {
    var chunks := ChunksOf(b, size, limit);
    forall n: nat | n < |chunks| ensures NextChunk(chunks, n, b) {
      PrefixConcat(chunks, n);
      ChunkWithin(chunks, n, b);
    }
    sh := FlushShardTables(store, chunks, b);
    assert Restrict(b, Concat(chunks)) == b && chunks[..|chunks|] == chunks;
  }

  // ---- rewriting shards ----

  /** The shard a key is routed to: its btree predecessor, or the first shard for keys below all of them. */
  function Owner(sh: seq<Shard>, k: Key): (i: nat)
    requires Ordered(sh) && sh != []
    ensures i < |sh|
  {
    var n := Predecessors(sh, k);
    if n == 0 then 0 else n - 1
  }

  /** From the shard's own minimum up to the next shard's; the first shard reaches down without bound. */
  predicate Territory(sh: seq<Shard>, i: nat, k: Key)
    requires i < |sh|
  {
    && (i > 0 ==> Leq(sh[i].min, k))
    && (i + 1 < |sh| ==> Less(k, sh[i + 1].min))
  }

  /** Territories partition the key space: a key lies in the territory of its owner and of no other shard. */
  lemma OwnerTerritory(sh: seq<Shard>, i: nat, k: Key)
    requires Ordered(sh) && i < |sh|
    ensures Owner(sh, k) == i <==> Territory(sh, i, k)
  {
    var n := Predecessors(sh, k);
    if Territory(sh, i, k) {
      if n <= i && i > 0 {
        NotLeqLess(sh[i].min, k);
      }
      if i + 1 < n {
        NotLeqLess(sh[i + 1].min, k);
      }
    }
  }

  lemma CoveredIsOwned(sh: seq<Shard>, i: nat, k: Key)
    requires Ordered(sh) && i < |sh| && Covers(sh[i], k)
    ensures Owner(sh, k) == i
  {
    if i + 1 < |sh| {
      LeqLess(k, sh[i].max, sh[i + 1].min);
    }
    OwnerTerritory(sh, i, k);
  }

  /** What shard `i` holds afterwards, given its work. */
  function NewContent<T>(b: Blob, i: nat, work: map<nat, T>, rewrite: (Blob, T) -> (Blob, bool)): Blob {
    if i in work && rewrite(b, work[i]).1 then Strip(rewrite(b, work[i]).0) else b
  }

  predicate WorkFits<T>(sh: seq<Shard>, d: Disk, work: map<nat, T>, rewrite: (Blob, T) -> (Blob, bool)) {
    forall i, k | i in work && i < |sh| && sh[i].pos in d && k in rewrite(d[sh[i].pos], work[i]).0 ::
      Territory(sh, i, k)
  }

  /** Every key of a shard's new content is one the shard owns. */
  lemma ContentOwned<T>(sh: seq<Shard>, d: Disk, i: nat, work: map<nat, T>, rewrite: (Blob, T) -> (Blob, bool), k: Key)
    requires ShardsOk(sh, d) && i < |sh| && WorkFits(sh, d, work, rewrite)
    requires k in NewContent(d[sh[i].pos], i, work, rewrite)
    ensures Owner(sh, k) == i
  {
    if i in work && rewrite(d[sh[i].pos], work[i]).1 {
      OwnerTerritory(sh, i, k);
    } else {
      CoveredIsOwned(sh, i, k);
    }
  }

  /** The shards up to `n` are done: the run holds each owned key's new content, and ends before shard `n`. */
  ghost predicate Rewritten<T>(out: seq<Shard>, d': Disk, sh: seq<Shard>, d: Disk, n: nat,
                               work: map<nat, T>, rewrite: (Blob, T) -> (Blob, bool))
    requires ShardsOk(sh, d) && n <= |sh|
  {
    && ShardsOk(out, d') && (n == 0 ==> out == [])
    && (forall i, j | 0 <= i < |out| && n <= j < |sh| :: Less(out[i].max, sh[j].min))
    && (sh != [] ==> forall k ::
          Find(Union(out, d'), k)
          == if Owner(sh, k) < n then Find(NewContent(d[sh[Owner(sh, k)].pos], Owner(sh, k), work, rewrite), k)
             else None)
  }

  /** A run for shard `n`'s new content extends the rewritten prefix. */
  lemma ExtendRewritten<T>(out: seq<Shard>, d0: Disk, d': Disk, sub: seq<Shard>, sh: seq<Shard>, d: Disk, n: nat,
                           work: map<nat, T>, rewrite: (Blob, T) -> (Blob, bool))
    requires ShardsOk(sh, d) && n < |sh| && WorkFits(sh, d, work, rewrite)
    requires Rewritten(out, d0, sh, d, n, work, rewrite) && Kept(d0, d')
    requires Holds(sub, d', NewContent(d[sh[n].pos], n, work, rewrite))
    ensures Rewritten(out + sub, d', sh, d, n + 1, work, rewrite)
  {
    UnionKept(out, d0, d');
    SubBounds(out, sub, d', sh, d, n, work, rewrite);
    JoinRuns(out, sub, d');
    forall k ensures Find(Union(out + sub, d'), k)
      == if Owner(sh, k) < n + 1 then Find(NewContent(d[sh[Owner(sh, k)].pos], Owner(sh, k), work, rewrite), k)
         else None
    {
      if k in Union(sub, d') {
        ContentOwned(sh, d, n, work, rewrite, k);
      }
    }
    forall i, j | 0 <= i < |out + sub| && n + 1 <= j < |sh| ensures Less((out + sub)[i].max, sh[j].min) {
      if i >= |out| {
        assert (out + sub)[i] == sub[i - |out|];
      }
    }
  }

  lemma SubBounds<T>(out: seq<Shard>, sub: seq<Shard>, d': Disk, sh: seq<Shard>, d: Disk, n: nat,
                     work: map<nat, T>, rewrite: (Blob, T) -> (Blob, bool))
    requires ShardsOk(sh, d) && n < |sh| && WorkFits(sh, d, work, rewrite)
    requires ShardsOk(out, d') && (forall i | 0 <= i < |out| :: Less(out[i].max, sh[n].min))
    requires Holds(sub, d', NewContent(d[sh[n].pos], n, work, rewrite))
    requires n == 0 ==> out == []
    ensures forall i, j | 0 <= i < |out| && 0 <= j < |sub| :: Less(out[i].max, sub[j].min)
    ensures forall i, j | 0 <= i < |sub| && n + 1 <= j < |sh| :: Less(sub[i].max, sh[j].min)
  {
    forall j | 0 <= j < |sub| ensures Territory(sh, n, sub[j].min) && Territory(sh, n, sub[j].max) {
      BoundsInUnion(sub, d', j);
      ContentOwned(sh, d, n, work, rewrite, sub[j].min);
      ContentOwned(sh, d, n, work, rewrite, sub[j].max);
      OwnerTerritory(sh, n, sub[j].min);
      OwnerTerritory(sh, n, sub[j].max);
    }
    forall i, j | 0 <= i < |out| && 0 <= j < |sub| ensures Less(out[i].max, sub[j].min) {
      LessLeq(out[i].max, sh[n].min, sub[j].min);
    }
    forall i, j | 0 <= i < |sub| && n + 1 <= j < |sh| ensures Less(sub[i].max, sh[j].min) {
      if n + 1 < j {
        MinsAscend(sh, n + 1, j);
        LessTransitive(sub[i].max, sh[n + 1].min, sh[j].min);
      }
    }
  }

  lemma MinsAscend(sh: seq<Shard>, i: nat, j: nat)
    requires Ordered(sh) && i < j < |sh|
    ensures Less(sh[i].min, sh[j].min)
  {
    LeqLess(sh[i].min, sh[i].max, sh[j].min);
  }

  lemma {:induction false} BoundsInUnion(sh: seq<Shard>, d: Disk, j: nat)
    requires ShardsOk(sh, d) && j < |sh|
    ensures sh[j].min in Union(sh, d) && sh[j].max in Union(sh, d)
  {
    var n := |sh| - 1;
    OrderedPrefix(sh, n);
    if j < n {
      BoundsInUnion(sh[..n], d, j);
    }
  }

  /** Every shard is an untouched old one or sits at a fresh position. */
  predicate OldOrFresh(out: seq<Shard>, sh: seq<Shard>, d: Disk) {
    forall i | 0 <= i < |out| :: out[i] in sh || out[i].pos !in d
  }

  /** Whatever has been written anew fits the split limit, or is a single entry. */
  predicate OldOrSmall(out: seq<Shard>, sh: seq<Shard>, d: Disk, size: Blob -> nat, limit: nat) {
    forall i | 0 <= i < |out| :: out[i] in sh || (out[i].pos in d && Small(d[out[i].pos], size, limit))
  }

  lemma SingleRun(s: Shard, d: Disk)
    requires s.pos in d && Tight(s, d[s.pos]) && Leq(s.min, s.max)
    ensures Holds([s], d, d[s.pos])
  {
    assert [s][..0] == [];
    assert Union([s], d) == map[] + d[s.pos];
  }

  /** Nothing is asked of shard `i`, or what is asked changes nothing in it. */
  predicate Unchanged<T>(d: Disk, sh: seq<Shard>, i: nat, work: map<nat, T>, rewrite: (Blob, T) -> (Blob, bool))
    requires i < |sh| && sh[i].pos in d
  {
    i !in work || !rewrite(d[sh[i].pos], work[i]).1
  }

  /** What one shard is rewritten to joins what the shards before it were. */
  lemma ExtendOld(out: seq<Shard>, sub: seq<Shard>, sh: seq<Shard>, n: nat, d: Disk, before: Disk, d': Disk,
                  size: Blob -> nat, limit: nat)
    requires n < |sh| && OldOrFresh(out, sh, d) && OldOrSmall(out, sh, before, size, limit)
    requires Kept(d, before) && Kept(before, d') && OldOrSmall(sub, [sh[n]], d', size, limit)
    requires forall j | 0 <= j < |sub| :: sub[j] == sh[n] || sub[j].pos !in before
    ensures OldOrFresh(out + sub, sh, d) && OldOrSmall(out + sub, sh, d', size, limit)
  {
    var all := out + sub;
    forall i | 0 <= i < |all|
      ensures all[i] in sh || (all[i].pos !in d && all[i].pos in d' && Small(d'[all[i].pos], size, limit))
    {
      if i < |out| {
        assert all[i] == out[i];
      } else {
        assert all[i] == sub[i - |out|];
      }
    }
  }

  /** Rewrites the shards `work` names; the others keep their blobs. */
  method RewriteShards<T>(store: IndexStore, sh: seq<Shard>, work: map<nat, T>, rewrite: (Blob, T) -> (Blob, bool),
                          size: Blob -> nat, limit: nat) returns (out: seq<Shard>)
    requires store.Valid() && ShardsOk(sh, store.blobs) && WorkFits(sh, store.blobs, work, rewrite)
    modifies store
    ensures store.Valid() && Kept(old(store.blobs), store.blobs)
    ensures Rewritten(out, store.blobs, sh, old(store.blobs), |sh|, work, rewrite)
    ensures OldOrFresh(out, sh, old(store.blobs)) && OldOrSmall(out, sh, store.blobs, size, limit)
    ensures forall i | 0 <= i < |sh| && Unchanged(old(store.blobs), sh, i, work, rewrite) :: sh[i] in out
  {
    out := [];
    ghost var d := store.blobs;
    for n := 0 to |sh|
      invariant store.Valid() && Kept(d, store.blobs)
      invariant Rewritten(out, store.blobs, sh, d, n, work, rewrite)
      invariant OldOrFresh(out, sh, d) && OldOrSmall(out, sh, store.blobs, size, limit)
      invariant forall i | 0 <= i < n && Unchanged(d, sh, i, work, rewrite) :: sh[i] in out
    {
      ghost var before := store.blobs;
      var sub := RewriteOne(store, sh[n], n, work, rewrite, size, limit);
      assert before[sh[n].pos] == d[sh[n].pos];
      ExtendRewritten(out, before, store.blobs, sub, sh, d, n, work, rewrite);
      ExtendOld(out, sub, sh, n, d, before, store.blobs, size, limit);
      out := out + sub;
    }
  }

  method RewriteOne<T>(store: IndexStore, s: Shard, i: nat, work: map<nat, T>, rewrite: (Blob, T) -> (Blob, bool),
                       size: Blob -> nat, limit: nat) returns (sub: seq<Shard>)
    requires store.Valid() && s.pos in store.blobs && Tight(s, store.blobs[s.pos]) && Leq(s.min, s.max)
    modifies store
    ensures store.Valid() && Kept(old(store.blobs), store.blobs)
    ensures Holds(sub, store.blobs, NewContent(old(store.blobs)[s.pos], i, work, rewrite))
    ensures i !in work || !rewrite(old(store.blobs)[s.pos], work[i]).1 ==> sub == [s]
    ensures NewContent(old(store.blobs)[s.pos], i, work, rewrite) == map[] ==> sub == []
    ensures forall j | 0 <= j < |sub| :: sub[j] == s || sub[j].pos !in old(store.blobs)
    ensures OldOrSmall(sub, [s], store.blobs, size, limit)
  {
    SingleRun(s, store.blobs);
    assert s.min in store.blobs[s.pos];
    if i !in work {
      return [s];
    }
    var b := store.Load(s.pos);
    var (b', changed) := rewrite(b, work[i]);
    if !changed {
      return [s];
    }
    sub := WriteShards(store, Strip(b'), size, limit);
    if sub != [] {
      BoundsInUnion(sub, store.blobs, 0);
    }
  }

  // ---- promote into shards ----

  /** A sharded level answers from the owner alone. */
  lemma UnionOwner(sh: seq<Shard>, d: Disk, k: Key)
    requires ShardsOk(sh, d) && sh != []
    ensures Find(Union(sh, d), k) == Find(d[sh[Owner(sh, k)].pos], k)
  {
    UnionLookup(sh, d, k);
    var i := ShardFor(sh, k);
    if i.Some? {
      CoveredIsOwned(sh, i.value, k);
    } else if k in d[sh[Owner(sh, k)].pos] {
      ShardForCovers(sh, k, Owner(sh, k));
    }
  }

  /** `parts` deals the keys in `done` to their owners. */
  predicate Dealt(parts: map<nat, Blob>, m: Blob, sh: seq<Shard>, done: set<Key>)
    requires Ordered(sh) && sh != []
  {
    && (forall i | i in parts :: parts[i] != map[])
    && (forall i, k | i in parts && k in parts[i] :: k in done && k in m && Owner(sh, k) == i && parts[i][k] == m[k])
    && (forall k | k in done && k in m :: Owner(sh, k) in parts && k in parts[Owner(sh, k)])
  }

  /** Routes every entry of the merged L0, tombstones included, to the shard that owns it. */
  method Partition(m: Blob, sh: seq<Shard>) returns (parts: map<nat, Blob>)
    requires Ordered(sh) && sh != []
    ensures Dealt(parts, m, sh, m.Keys)
  {
    parts := map[];
    var todo := m.Keys;
    while todo != {}
      invariant todo <= m.Keys && Dealt(parts, m, sh, m.Keys - todo)
      decreases todo
    {
      var k :| k in todo;
      var i := Owner(sh, k);
      var old' := if i in parts then parts[i] else map[];
      parts := parts[i := old'[k := m[k]]];
      assert k in parts[i];
      todo := todo - {k};
    }
  }

  function MergePart(b: Blob, part: Blob): (Blob, bool) {
    (b + part, true)
  }

  lemma DealtFits(sh: seq<Shard>, d: Disk, m: Blob, parts: map<nat, Blob>)
    requires ShardsOk(sh, d) && sh != [] && Dealt(parts, m, sh, m.Keys)
    ensures WorkFits(sh, d, parts, MergePart)
  {
    forall i, k | i in parts && i < |sh| && sh[i].pos in d && k in MergePart(d[sh[i].pos], parts[i]).0
      ensures Territory(sh, i, k)
    {
      if k in d[sh[i].pos] {
        CoveredIsOwned(sh, i, k);
      }
      OwnerTerritory(sh, i, k);
    }
  }

  /** `below` answers every key as `m` laid over `base`. */
  ghost predicate LaidOver(below: Blob, m: Blob, base: Blob) {
    forall k :: View(Find(below, k)) == View(Or(Find(m, k), Find(base, k)))
  }

  lemma OwnerAnswers(b: Blob, i: nat, parts: map<nat, Blob>, m: Blob, k: Key)
    requires if i in parts then Find(parts[i], k) == Find(m, k) else k !in m
    ensures View(Find(NewContent(b, i, parts, MergePart), k)) == View(Or(Find(m, k), Find(b, k)))
  {
  }

  lemma DealtAnswers(out: seq<Shard>, d': Disk, sh: seq<Shard>, d: Disk, m: Blob, parts: map<nat, Blob>)
    requires ShardsOk(sh, d) && sh != [] && Dealt(parts, m, sh, m.Keys)
    requires Rewritten(out, d', sh, d, |sh|, parts, MergePart)
    ensures LaidOver(Union(out, d'), m, Union(sh, d))
  {
    forall k ensures View(Find(Union(out, d'), k)) == View(Or(Find(m, k), Find(Union(sh, d), k))) {
      var i := Owner(sh, k);
      UnionOwner(sh, d, k);
      assert Find(Union(out, d'), k) == Find(NewContent(d[sh[i].pos], i, parts, MergePart), k);
      DealtAt(parts, m, sh, k);
      OwnerAnswers(d[sh[i].pos], i, parts, m, k);
    }
  }

  lemma DealtAt(parts: map<nat, Blob>, m: Blob, sh: seq<Shard>, k: Key)
    requires Ordered(sh) && sh != [] && Dealt(parts, m, sh, m.Keys)
    ensures var i := Owner(sh, k); if i in parts then Find(parts[i], k) == Find(m, k) else k !in m
  {
  }

  /** No entry of the merged L0 is routed to shard `i`. */
  predicate Untouched(m: Blob, sh: seq<Shard>, i: nat)
    requires Ordered(sh) && sh != []
  {
    forall k | k in m :: Owner(sh, k) != i
  }

  lemma UntouchedHasNoWork(parts: map<nat, Blob>, m: Blob, sh: seq<Shard>)
    requires Ordered(sh) && sh != [] && Dealt(parts, m, sh, m.Keys)
    ensures forall i | i in parts :: !Untouched(m, sh, i)
  {
    forall i | i in parts ensures !Untouched(m, sh, i) {
      var k :| k in parts[i];
      assert Owner(sh, k) == i && k in m;
    }
  }

  /** The shard half of a re-sharding promote. */
  method PromoteIntoShards(store: IndexStore, m: Blob, sh: seq<Shard>, size: Blob -> nat, limit: nat)
    returns (out: seq<Shard>)
    requires store.Valid() && ShardsOk(sh, store.blobs) && sh != []
    modifies store
    ensures store.Valid() && Kept(old(store.blobs), store.blobs) && ShardsOk(out, store.blobs)
    ensures LaidOver(Union(out, store.blobs), m, Union(sh, old(store.blobs)))
    ensures OldOrFresh(out, sh, old(store.blobs)) && OldOrSmall(out, sh, store.blobs, size, limit)
    ensures forall i | 0 <= i < |sh| && Untouched(m, sh, i) :: sh[i] in out
    ensures NoTombstone(Union(sh, old(store.blobs))) ==> NoTombstone(Union(out, store.blobs))
  {
    var parts := Partition(m, sh);
    DealtFits(sh, store.blobs, m, parts);
    out := RewriteShards(store, sh, parts, MergePart, size, limit);
    UntouchedHasNoWork(parts, m, sh);
    DealtAnswers(out, store.blobs, sh, old(store.blobs), m, parts);
    if NoTombstone(Union(sh, old(store.blobs))) {
      RewrittenSettled(out, store.blobs, sh, old(store.blobs), parts, MergePart);
    }
  }

  lemma RewrittenSettled<T>(out: seq<Shard>, d': Disk, sh: seq<Shard>, d: Disk,
                            work: map<nat, T>, rewrite: (Blob, T) -> (Blob, bool))
    requires ShardsOk(sh, d) && sh != [] && Rewritten(out, d', sh, d, |sh|, work, rewrite)
    requires NoTombstone(Union(sh, d))
    ensures NoTombstone(Union(out, d'))
  {
    forall k | k in Union(out, d') ensures !Union(out, d')[k].del {
      var i := Owner(sh, k);
      UnionOwner(sh, d, k);
      assert Find(Union(out, d'), k) == Find(NewContent(d[sh[i].pos], i, work, rewrite), k);
    }
  }

  /** Levels without an L0 whose lower level answers as `m` laid over `base`. */
  ghost predicate Promoted(lv: Levels, d: Disk, m: Blob, base: Blob) {
    && LevelsOk(lv, d) && lv.l0.None? && (lv.shards == [] ==> lv.l1.Some?)
    && ImageOf(lv, d).below.Some? && LaidOver(ImageOf(lv, d).below.value, m, base)
  }

  /** Re-sharding promote: touched shards are rewritten, the others stay where they are. */
  method WriteShardedPromote(store: IndexStore, m: Blob, sh: seq<Shard>, size: Blob -> nat, limit: nat)
    returns (lv: Levels)
    requires store.Valid() && ShardsOk(sh, store.blobs) && sh != []
    modifies store
    ensures store.Valid() && Kept(old(store.blobs), store.blobs)
    ensures Promoted(lv, store.blobs, m, Union(sh, old(store.blobs)))
    ensures OldOrFresh(lv.shards, sh, old(store.blobs)) && OldOrSmall(lv.shards, sh, store.blobs, size, limit)
    ensures lv.l1.Some? ==> lv.l1.value !in old(store.blobs) && ImageOf(lv, store.blobs).below == Some(map[])
    ensures forall i | 0 <= i < |sh| && Untouched(m, sh, i) :: sh[i] in lv.shards
    ensures NoTombstone(Union(sh, old(store.blobs))) ==> Settled(ImageOf(lv, store.blobs))
  {
    var out := PromoteIntoShards(store, m, sh, size, limit);
    if out == [] {
      var pos := store.Flush(map[]);
      return Levels(None, Some(pos), []);
    }
    lv := Levels(None, None, out);
  }

  // ---- the flush ----

  /** The merged L0 candidate: the dirty table over L0, cut back to what is processed. */
  function MergedTable(l0: Option<Blob>, dirty: Table, loaded: bool, f: nat): Table {
    RetainProcessed(if loaded then dirty else MergeDirty(if l0.Some? then l0.value else map[], dirty), f)
  }

  function Len(t: Table): nat {
    |t.flat| + |Keys(t.data)|
  }

  predicate Genuine(t: Table) {
    forall p | p in t.data :: p.off < INVALID_OFFSET
  }

  lemma ProcessedLatest(w: Log, f: nat, k: Key)
    requires forall p | p in w :: p.off < INVALID_OFFSET
    ensures Latest(map p | p in w && p.off < f :: w[p], k, INVALID_OFFSET) == Latest(w, k, f)
  {
    var v: Log := map p | p in w && p.off < f :: w[p];
    assert LatestBelow(v, k, INVALID_OFFSET) == LatestBelow(w, k, f);
  }

  /** What the blob of the merged table answers is what the flush owes. */
  lemma MergedAnswers(img: Image, dirty: Table, loaded: bool, f: nat, k: Key)
    requires Genuine(dirty)
    ensures var b := Collapse(MergedTable(img.l0, dirty, loaded, f));
            var want := Merged(img, dirty, loaded, f, k);
            Find(b, k).Some? == want.Some? && View(Find(b, k)) == View(want)
  {
    var t := MergedTable(img.l0, dirty, loaded, f);
    ProcessedLatest(dirty.data, f, k);
    assert Get(t, k) == Merged(img, dirty, loaded, f, k);
    CollapseFind(t, k);
  }

  /** The deepest level carries no tombstone, so a tombstone only ever sits above something it can shadow. */
  predicate Settled(img: Image) {
    if img.below.Some? then NoTombstone(img.below.value) else img.l0.Some? ==> NoTombstone(img.l0.value)
  }

  predicate NoTombstone(b: Blob) {
    forall k | k in b :: !b[k].del
  }

  lemma CollapseFind(t: Table, k: Key)
    ensures Find(Collapse(t), k).Some? == Get(t, k).Some? && View(Find(Collapse(t), k)) == View(Get(t, k))
    ensures Get(t, k).Some? ==> Find(Collapse(t), k).value.del == Get(t, k).value.del
  {
    if Latest(t.data, k, INVALID_OFFSET).Some? {
      assert k in Keys(t.data);
    }
  }

  /** Merging into L1 and settling as the deepest level. */
  lemma PromotedL1Answers(l1: Blob, t: Table)
    requires Genuine(t)
    ensures LaidOver(Collapse(CleanSelf(MergeDirty(l1, t))), Collapse(t), l1)
    ensures NoTombstone(Collapse(CleanSelf(MergeDirty(l1, t))))
  {
    var u := MergeDirty(l1, t);
    var r := CleanSelf(u);
    forall k ensures View(Find(Collapse(r), k)) == View(Or(Find(Collapse(t), k), Find(l1, k))) {
      CleanedGet(u, k);
      CollapseFind(r, k);
      CollapseFind(t, k);
      assert Get(u, k) == Or(Get(t, k), Find(l1, k));
    }
    CleanHasNoTombstone(u);
  }

  lemma CleanHasNoTombstone(t: Table)
    requires Genuine(t)
    ensures NoTombstone(Collapse(CleanSelf(t)))
  {
    forall k | k in Collapse(CleanSelf(t)) ensures !Collapse(CleanSelf(t))[k].del {
      CleanedGet(t, k);
      CollapseFind(CleanSelf(t), k);
    }
  }

  lemma CleanedGet(t: Table, k: Key)
    requires Genuine(t)
    ensures View(Get(CleanSelf(t), k)) == View(Get(t, k))
    ensures Get(CleanSelf(t), k).Some? ==> !Get(CleanSelf(t), k).value.del
  {
    var r := CleanSelf(t);
    var m := LatestBelow(t.data, k, INVALID_OFFSET);
    if m.Some? && !t.data[At(k, m.value)] {
      assert LatestBelow(r.data, k, INVALID_OFFSET) == m;
    } else {
      assert LatestBelow(r.data, k, INVALID_OFFSET) == None;
    }
  }

  /** Writes a promoted L1, split into shards when it outgrew the limit. */
  method WritePromotedL1(store: IndexStore, b: Blob, size: Blob -> nat, limit: nat) returns (lv: Levels)
    requires store.Valid()
    modifies store
    ensures store.Valid() && Kept(old(store.blobs), store.blobs) && LevelsOk(lv, store.blobs) && lv.l0.None?
    ensures forall p | p in Positions(lv) :: p !in old(store.blobs)
    ensures NonEmpty(ImageOf(lv, store.blobs)) <==> b != map[] || size(b) <= limit
    ensures NonEmpty(ImageOf(lv, store.blobs)) ==> ImageOf(lv, store.blobs).below == Some(b)
    ensures IsSharded(lv) <==> b != map[] && size(b) > limit
    ensures forall p | p in Positions(lv) :: p in store.blobs && Small(store.blobs[p], size, limit)
  {
    if size(b) > limit {
      var sh := WriteShards(store, b, size, limit);
      return Levels(None, None, sh);
    }
    var pos := store.Flush(b);
    lv := Levels(None, Some(pos), []);
  }

  // ---- moving flagged blobs ----

  /** Same shape, same bounds, same contents; only positions may differ. */
  predicate SameShape(a: Levels, b: Levels) {
    && (a.l0.Some? <==> b.l0.Some?) && (a.l1.Some? <==> b.l1.Some?) && |a.shards| == |b.shards|
    && forall i | 0 <= i < |a.shards| :: a.shards[i].min == b.shards[i].min && a.shards[i].max == b.shards[i].max
  }

  method Reflush(store: IndexStore, pos: nat, flagged: set<nat>) returns (p: nat)
    requires store.Valid() && pos in store.blobs && (forall q | q in flagged :: q < store.next)
    modifies store
    ensures store.Valid() && Kept(old(store.blobs), store.blobs) && old(store.next) <= store.next
    ensures p in store.blobs && store.blobs[p] == old(store.blobs)[pos]
    ensures p !in flagged && (p == pos || (pos in flagged && p !in old(store.blobs)))
  {
    if pos in flagged {
      var b := store.Load(pos);
      p := store.Flush(b);
    } else {
      p := pos;
    }
  }

  /** Two runs with the same bounds and blobs read alike. */
  lemma {:induction false} SameUnion(a: seq<Shard>, b: seq<Shard>, d: Disk, d': Disk)
    requires |a| == |b| && ShardsOk(a, d)
    requires forall i | 0 <= i < |a| ::
      a[i].min == b[i].min && a[i].max == b[i].max && b[i].pos in d' && d'[b[i].pos] == d[a[i].pos]
    ensures ShardsOk(b, d') && Union(b, d') == Union(a, d)
  {
    if a != [] {
      var n := |a| - 1;
      OrderedPrefix(a, n);
      SameUnion(a[..n], b[..n], d, d');
    }
  }

  method RelocateShards(store: IndexStore, sh: seq<Shard>, flagged: set<nat>) returns (out: seq<Shard>)
    requires store.Valid() && ShardsOk(sh, store.blobs) && (forall q | q in flagged :: q < store.next)
    modifies store
    ensures store.Valid() && Kept(old(store.blobs), store.blobs) && old(store.next) <= store.next
    ensures |out| == |sh| && ShardsOk(out, store.blobs) && Union(out, store.blobs) == Union(sh, old(store.blobs))
    ensures forall i | 0 <= i < |sh| :: out[i].min == sh[i].min && out[i].max == sh[i].max
    ensures forall i | 0 <= i < |sh| :: store.blobs[out[i].pos] == old(store.blobs)[sh[i].pos]
    ensures forall i | 0 <= i < |sh| ::
      out[i].pos !in flagged && (out[i] == sh[i] || (sh[i].pos in flagged && out[i].pos !in old(store.blobs)))
  {
    out := [];
    ghost var d := store.blobs;
    for n := 0 to |sh|
      invariant store.Valid() && Kept(d, store.blobs) && old(store.next) <= store.next
      invariant |out| == n
      invariant forall i | 0 <= i < n :: out[i].min == sh[i].min && out[i].max == sh[i].max
      invariant forall i | 0 <= i < n :: out[i].pos in store.blobs && store.blobs[out[i].pos] == d[sh[i].pos]
      invariant forall i | 0 <= i < n ::
        out[i].pos !in flagged && (out[i] == sh[i] || (sh[i].pos in flagged && out[i].pos !in d))
    {
      var p := Reflush(store, sh[n].pos, flagged);
      out := out + [sh[n].(pos := p)];
    }
    SameUnion(sh, out, d, store.blobs);
  }

  /** Rewrites every flagged blob of the levels at a fresh position and leaves the rest alone. */
  method RelocateInLevels(store: IndexStore, lv: Levels, flagged: set<nat>) returns (out: Levels)
    requires store.Valid() && LevelsOk(lv, store.blobs) && (forall q | q in flagged :: q < store.next)
    modifies store
    ensures store.Valid() && Kept(old(store.blobs), store.blobs) && LevelsOk(out, store.blobs)
    ensures SameShape(lv, out) && ImageOf(out, store.blobs) == ImageOf(lv, old(store.blobs))
    ensures forall p | p in Positions(out) :: p !in flagged && (p in Positions(lv) || p !in old(store.blobs))
    ensures forall p | p in Positions(lv) && p !in flagged :: p in Positions(out)
    ensures forall p | p in Positions(out) :: CopyOf(p, store.blobs, lv, old(store.blobs))
  {
    var l0, l1 := lv.l0, lv.l1;
    if l0.Some? {
      var p := Reflush(store, l0.value, flagged);
      l0 := Some(p);
    }
    ghost var d1 := store.blobs;
    if l1.Some? {
      var p := Reflush(store, l1.value, flagged);
      l1 := Some(p);
    }
    ghost var d2 := store.blobs;
    UnionKept(lv.shards, old(store.blobs), d2);
    var sh := RelocateShards(store, lv.shards, flagged);
    out := Levels(l0, l1, sh);
    RelocatedPositions(lv, out, flagged, old(store.blobs));
    RelocatedCopies(lv, out, old(store.blobs), store.blobs);
  }

  /** The blob at `p` is one the levels already had. */
  predicate CopyOf(p: nat, d': Disk, lv: Levels, d: Disk) {
    p in d' && exists q | q in Positions(lv) :: q in d && d[q] == d'[p]
  }

  lemma RelocatedCopies(lv: Levels, out: Levels, d: Disk, d': Disk)
    requires SameShape(lv, out)
    requires lv.l0.Some? ==> lv.l0.value in d && out.l0.value in d' && d'[out.l0.value] == d[lv.l0.value]
    requires lv.l1.Some? ==> lv.l1.value in d && out.l1.value in d' && d'[out.l1.value] == d[lv.l1.value]
    requires forall i | 0 <= i < |lv.shards| ::
      lv.shards[i].pos in d && out.shards[i].pos in d' && d'[out.shards[i].pos] == d[lv.shards[i].pos]
    ensures forall p | p in Positions(out) :: CopyOf(p, d', lv, d)
  {
    forall p | p in Positions(out) ensures CopyOf(p, d', lv, d) {
      if out.l0 == Some(p) {
        assert lv.l0.value in Positions(lv);
      } else if out.l1 == Some(p) {
        assert lv.l1.value in Positions(lv);
      } else {
        var i :| 0 <= i < |out.shards| && out.shards[i].pos == p;
        assert lv.shards[i].pos in Positions(lv);
      }
    }
  }

  lemma RelocatedPositions(lv: Levels, out: Levels, flagged: set<nat>, d: Disk)
    requires SameShape(lv, out)
    requires out.l0.Some? ==>
      out.l0.value !in flagged && (out.l0 == lv.l0 || (lv.l0.value in flagged && out.l0.value !in d))
    requires out.l1.Some? ==>
      out.l1.value !in flagged && (out.l1 == lv.l1 || (lv.l1.value in flagged && out.l1.value !in d))
    requires forall i | 0 <= i < |lv.shards| ::
      && out.shards[i].pos !in flagged
      && (out.shards[i] == lv.shards[i] || (lv.shards[i].pos in flagged && out.shards[i].pos !in d))
    ensures forall p | p in Positions(out) :: p !in flagged && (p in Positions(lv) || p !in d)
    ensures forall p | p in Positions(lv) && p !in flagged :: p in Positions(out)
  {
    forall i | 0 <= i < |lv.shards| ensures lv.shards[i].pos in Positions(lv) && out.shards[i].pos in Positions(out) {
    }
  }

  // ---- the command ----

  /** What a flush leaves, in any of its shapes: the contract of the cell protocol plus where the blobs are. */
  ghost predicate FlushResult(img: Image, dirty: Table, loaded: bool, f: nat, lv: Levels, old': Disk, out: Levels,
                              d: Disk)
  {
    && LevelsOk(out, d)
    && Flushed(img, dirty, loaded, f, ImageOf(out, d))
    && (Settled(img) ==> Settled(ImageOf(out, d)))
    && forall p | p in Positions(out) :: p in Positions(lv) || p !in old'
  }

  /** Keys the snapshot, with the L0 it does not already contain, holds compacted. */
  function FlatKeys(img: Image, dirty: Table, loaded: bool): set<Key> {
    dirty.flat.Keys + if loaded || img.l0.None? then {} else img.l0.value.Keys
  }

  /** Keys with a buffered write below the frontier. */
  function ProcessedKeys(dirty: Table, f: nat): set<Key> {
    set p | p in dirty.data && p.off < f :: p.key
  }

  /** The size a flush weighs against the L0 limit; a key both compacted and buffered weighs twice. */
  function Weight(img: Image, dirty: Table, loaded: bool, f: nat): nat {
    |FlatKeys(img, dirty, loaded)| + |ProcessedKeys(dirty, f)|
  }

  /** The keys weighed are exactly those the merged L0 answers for. */
  lemma WeightCounts(img: Image, dirty: Table, loaded: bool, f: nat)
    ensures forall k :: k in FlatKeys(img, dirty, loaded) + ProcessedKeys(dirty, f)
                   <==> Merged(img, dirty, loaded, f, k).Some?
    ensures var a, b := FlatKeys(img, dirty, loaded), ProcessedKeys(dirty, f);
            Weight(img, dirty, loaded, f) == |a + b| + |a * b|
  {
    forall k ensures k in ProcessedKeys(dirty, f) <==> Latest(dirty.data, k, f).Some? {
      if Latest(dirty.data, k, f).Some? {
        assert At(k, LatestBelow(dirty.data, k, f).value) in dirty.data;
      }
    }
  }

  lemma MergedKeys(img: Image, dirty: Table, loaded: bool, f: nat)
    ensures MergedTable(img.l0, dirty, loaded, f).flat.Keys == FlatKeys(img, dirty, loaded)
    ensures Keys(MergedTable(img.l0, dirty, loaded, f).data) == ProcessedKeys(dirty, f)
  {
  }

  lemma EmptyLen(t: Table)
    ensures IsEmpty(t) <==> Len(t) == 0
  {
    if Len(t) == 0 {
      assert t.flat.Keys == {} && forall p | p in t.data :: p.key in Keys(t.data);
    }
  }

  lemma MergedLen(img: Image, dirty: Table, loaded: bool, f: nat)
    ensures Len(MergedTable(img.l0, dirty, loaded, f)) == Weight(img, dirty, loaded, f)
    ensures IsEmpty(MergedTable(img.l0, dirty, loaded, f)) <==> Weight(img, dirty, loaded, f) == 0
  {
    MergedKeys(img, dirty, loaded, f);
    EmptyLen(MergedTable(img.l0, dirty, loaded, f));
  }

  /**
   Which branch a flush takes: past the L0 limit everything goes into the deeper level, sharded
   once it outgrows the split limit; otherwise the deeper level stays and a new L0 covers it,
   unless there is nothing to put there.
  */
  predicate FlushBranch(img: Image, weight: nat, l0Max: nat, size: Blob -> nat, limit: nat, out: Image) {
    if weight > l0Max then
      && out.l0.None? && out.below.Some?
      && (if img.sharded then out.sharded || out.below == Some(map[])
          else out.sharded <==> out.below.value != map[] && size(out.below.value) > limit)
    else
      && out.below == img.below && out.sharded == img.sharded
      && (out.l0.None? <==> weight == 0 && img.below.Some?)
  }

  /** Every blob of `out` fits the split limit, has one entry, or was there before. */
  predicate SmallOrCopied(out: Levels, d': Disk, lv: Levels, d: Disk, size: Blob -> nat, limit: nat) {
    forall p | p in Positions(out) :: p in d' && (Small(d'[p], size, limit) || CopyOf(p, d', lv, d))
  }

  lemma CopiesStay(out: Levels, d'': Disk, mid: Levels, d': Disk, lv: Levels, d: Disk, size: Blob -> nat, limit: nat)
    requires SmallOrCopied(mid, d', lv, d, size, limit)
    requires forall p | p in Positions(out) :: CopyOf(p, d'', mid, d')
    ensures SmallOrCopied(out, d'', lv, d, size, limit)
  {
    forall p | p in Positions(out) ensures p in d'' && (Small(d''[p], size, limit) || CopyOf(p, d'', lv, d)) {
      var q :| q in Positions(mid) && q in d' && d'[q] == d''[p];
    }
  }

  lemma PromoteMeets(img: Image, dirty: Table, loaded: bool, f: nat, out: Image)
    requires Genuine(dirty) && out.l0.None? && out.below.Some?
    requires LaidOver(out.below.value, Collapse(MergedTable(img.l0, dirty, loaded, f)),
                      if img.below.Some? then img.below.value else map[])
    ensures Flushed(img, dirty, loaded, f, out)
  {
    var m := Collapse(MergedTable(img.l0, dirty, loaded, f));
    forall k ensures FlushedAt(img, dirty, loaded, f, out, k) {
      MergedAnswers(img, dirty, loaded, f, k);
      assert View(Find(out.below.value, k))
          == View(Or(Find(m, k), Find(if img.below.Some? then img.below.value else map[], k)));
    }
  }

  lemma KeepDeeperMeets(img: Image, dirty: Table, loaded: bool, f: nat, out: Image)
    requires Genuine(dirty) && IsEmpty(MergedTable(img.l0, dirty, loaded, f)) && img.below.Some?
    requires out == img.(l0 := None) && (img.sharded ==> img.below.Some?)
    ensures Flushed(img, dirty, loaded, f, out)
  {
    forall k ensures FlushedAt(img, dirty, loaded, f, out, k) {
      MergedAnswers(img, dirty, loaded, f, k);
      EmptyCollapse(k);
    }
  }

  lemma EmptyCollapse(k: Key)
    ensures Find(Collapse(EMPTY_TABLE), k) == None
  {
  }

  lemma WriteL0Meets(img: Image, dirty: Table, loaded: bool, f: nat, out: Image)
    requires Genuine(dirty) && (img.sharded ==> img.below.Some?)
    requires var t := MergedTable(img.l0, dirty, loaded, f);
             out == img.(l0 := Some(Collapse(if img.below.Some? then t else CleanSelf(t))))
    ensures Flushed(img, dirty, loaded, f, out)
  {
    var t := MergedTable(img.l0, dirty, loaded, f);
    forall k ensures FlushedAt(img, dirty, loaded, f, out, k) {
      MergedAnswers(img, dirty, loaded, f, k);
      if img.below.None? {
        CleanedGet(t, k);
        CollapseFind(CleanSelf(t), k);
        CollapseFind(t, k);
        CleanHasNoTombstone(t);
      }
    }
  }

  lemma ShardsSmallOrCopied(out: Levels, d': Disk, lv: Levels, d: Disk, size: Blob -> nat, limit: nat)
    requires LevelsOk(lv, d) && LevelsOk(out, d') && Kept(d, d') && out.l0.None?
    requires OldOrSmall(out.shards, lv.shards, d', size, limit)
    requires out.l1.Some? ==> ImageOf(out, d').below == Some(map[])
    ensures SmallOrCopied(out, d', lv, d, size, limit)
  {
    forall p | p in Positions(out) ensures p in d' && (Small(d'[p], size, limit) || CopyOf(p, d', lv, d)) {
      if out.l1 != Some(p) {
        var i :| 0 <= i < |out.shards| && out.shards[i].pos == p;
        if out.shards[i] in lv.shards {
          var j :| 0 <= j < |lv.shards| && lv.shards[j] == out.shards[i];
          assert lv.shards[j].pos in Positions(lv);
        }
      }
    }
  }

  /** Promote: L0 and the overlay go into L1, or into the shards that own their keys. */
  method Promote(store: IndexStore, t: Table, lv: Levels, size: Blob -> nat, limit: nat) returns (out: Levels)
    requires store.Valid() && LevelsOk(lv, store.blobs) && Genuine(t) && size(map[]) <= limit
    modifies store
    ensures store.Valid() && Kept(old(store.blobs), store.blobs)
    ensures var img := ImageOf(lv, old(store.blobs));
            Promoted(out, store.blobs, Collapse(t), if img.below.Some? then img.below.value else map[])
    ensures forall p | p in Positions(out) :: p in Positions(lv) || p !in old(store.blobs)
    ensures Settled(ImageOf(lv, old(store.blobs))) ==> Settled(ImageOf(out, store.blobs))
    ensures var img := ImageOf(out, store.blobs);
            if IsSharded(lv) then img.sharded || img.below == Some(map[])
            else img.sharded <==> img.below.value != map[] && size(img.below.value) > limit
    ensures SmallOrCopied(out, store.blobs, lv, old(store.blobs), size, limit)
  {
    if IsSharded(lv) {
      out := WriteShardedPromote(store, Collapse(t), lv.shards, size, limit);
      ShardsSmallOrCopied(out, store.blobs, lv, old(store.blobs), size, limit);
    } else {
      var l1 := map[];
      if lv.l1.Some? {
        l1 := store.Load(lv.l1.value);
      }
      PromotedL1Answers(l1, t);
      out := WritePromotedL1(store, Collapse(CleanSelf(MergeDirty(l1, t))), size, limit);
    }
  }

  /** `handle_command` for a flush, up to the post-pass: promote, keep the deeper levels, or write a new L0. */
  method FlushMerged(store: IndexStore, dirty: Table, loaded: bool, lv: Levels, f: nat,
                     l0Max: nat, size: Blob -> nat, limit: nat) returns (out: Levels)
    requires store.Valid() && LevelsOk(lv, store.blobs) && Genuine(dirty) && size(map[]) <= limit
    modifies store
    ensures store.Valid() && Kept(old(store.blobs), store.blobs)
    ensures FlushResult(ImageOf(lv, old(store.blobs)), dirty, loaded, f, lv, old(store.blobs), out, store.blobs)
    ensures var img := ImageOf(lv, old(store.blobs));
            var weight := Weight(img, dirty, loaded, f);
            && FlushBranch(img, weight, l0Max, size, limit, ImageOf(out, store.blobs))
            && (weight > l0Max ==> SmallOrCopied(out, store.blobs, lv, old(store.blobs), size, limit))
  {
    ghost var img := ImageOf(lv, store.blobs);
    MergedLen(img, dirty, loaded, f);
    var l0: Option<Blob> := None;
    if lv.l0.Some? {
      var b := store.Load(lv.l0.value);
      l0 := Some(b);
    }
    var t := MergedTable(l0, dirty, loaded, f);
    var deeper := lv.l1.Some? || IsSharded(lv);
    if Len(t) > l0Max {
      out := Promote(store, t, lv, size, limit);
      PromoteMeets(img, dirty, loaded, f, ImageOf(out, store.blobs));
    } else if IsEmpty(t) && deeper {
      out := lv.(l0 := None);
      KeepDeeperMeets(img, dirty, loaded, f, ImageOf(out, store.blobs));
    } else {
      out := WriteL0(store, t, lv, deeper);
      WriteL0Meets(img, dirty, loaded, f, ImageOf(out, store.blobs));
    }
  }

  method WriteL0(store: IndexStore, t: Table, lv: Levels, deeper: bool) returns (out: Levels)
    requires store.Valid() && LevelsOk(lv, store.blobs) && Genuine(t) && deeper == (lv.l1.Some? || IsSharded(lv))
    modifies store
    ensures store.Valid() && Kept(old(store.blobs), store.blobs) && LevelsOk(out, store.blobs)
    ensures ImageOf(out, store.blobs)
         == ImageOf(lv, old(store.blobs)).(l0 := Some(Collapse(if deeper then t else CleanSelf(t))))
    ensures forall p | p in Positions(out) :: p in Positions(lv) || p !in old(store.blobs)
    ensures Settled(ImageOf(lv, old(store.blobs))) ==> Settled(ImageOf(out, store.blobs))
  {
    CleanHasNoTombstone(t);
    var pos := store.Flush(Collapse(if deeper then t else CleanSelf(t)));
    UnionKept(lv.shards, old(store.blobs), store.blobs);
    out := lv.(l0 := Some(pos));
  }

  /** `handle_command` for a flush: the new levels meet the cell protocol's contract and use no flagged blob. */
  method HandleFlush(store: IndexStore, dirty: Table, loaded: bool, lv: Levels, f: nat,
                     l0Max: nat, size: Blob -> nat, limit: nat, flagged: set<nat>) returns (out: Levels)
    requires store.Valid() && LevelsOk(lv, store.blobs) && Genuine(dirty) && size(map[]) <= limit
    requires forall q | q in flagged :: q in store.blobs
    modifies store
    ensures store.Valid() && Kept(old(store.blobs), store.blobs)
    ensures FlushResult(ImageOf(lv, old(store.blobs)), dirty, loaded, f, lv, old(store.blobs), out, store.blobs)
    ensures Positions(out) !! flagged
    ensures var img := ImageOf(lv, old(store.blobs));
            var weight := Weight(img, dirty, loaded, f);
            && FlushBranch(img, weight, l0Max, size, limit, ImageOf(out, store.blobs))
            && (weight > l0Max ==> SmallOrCopied(out, store.blobs, lv, old(store.blobs), size, limit))
  {
    var mid := FlushMerged(store, dirty, loaded, lv, f, l0Max, size, limit);
    ghost var d := store.blobs;
    out := RelocateInLevels(store, mid, flagged);
    if Weight(ImageOf(lv, old(store.blobs)), dirty, loaded, f) > l0Max {
      CopiesStay(out, store.blobs, mid, d, lv, old(store.blobs), size, limit);
    }
  }

  /** `handle_command` for a forced relocation: shards move blob by blob, anything else collapses into one blob. */
  method HandleRelocate(store: IndexStore, lv: Levels, flagged: set<nat>) returns (out: Levels)
    requires store.Valid() && LevelsOk(lv, store.blobs) && NonEmpty(ImageOf(lv, store.blobs))
    requires forall q | q in flagged :: q in store.blobs
    modifies store
    ensures store.Valid() && Kept(old(store.blobs), store.blobs) && LevelsOk(out, store.blobs)
    ensures Relocated(ImageOf(lv, old(store.blobs)), ImageOf(out, store.blobs))
    ensures IsSharded(lv) || Settled(ImageOf(out, store.blobs))
    ensures Positions(out) !! flagged
  {
    if IsSharded(lv) {
      out := RelocateInLevels(store, lv, flagged);
      return;
    }
    var merged := EMPTY_TABLE;
    if lv.l1.Some? {
      var b := store.Load(lv.l1.value);
      merged := Table(map[], b);
    }
    if lv.l0.Some? {
      var b := store.Load(lv.l0.value);
      merged := MergeDirty(merged.flat, Table(map[], b));
    }
    CollapsedAnswers(ImageOf(lv, store.blobs), merged);
    CleanHasNoTombstone(merged);
    var pos := store.Flush(Collapse(CleanSelf(merged)));
    out := Levels(Some(pos), None, []);
  }

  lemma CollapsedAnswers(img: Image, t: Table)
    requires t.data == map[]
    requires t.flat
          == (if img.below.Some? then img.below.value else map[]) + (if img.l0.Some? then img.l0.value else map[])
    ensures forall k :: DiskVal(Image(Some(Collapse(CleanSelf(t))), None, false), k) == DiskVal(img, k)
  {
    forall k ensures DiskVal(Image(Some(Collapse(CleanSelf(t))), None, false), k) == DiskVal(img, k) {
      CleanedGet(t, k);
      CollapseFind(CleanSelf(t), k);
      assert Latest(t.data, k, INVALID_OFFSET) == None;
    }
  }
}
