/**
 Re-pointing relocated values: each update is a compare-and-set on the newest position of its
 key below the relocation frontier, applied where the key is found first.
*/
module Relocation {
  import opened Bytes
  import opened IndexTable
  import opened CellSpec
  import opened Levels
  import opened Blobs
  import opened Flusher

  type Updates = map<Key, nat>

  /** The entry after its update, if it has one and still sits below the frontier. */
  function Moved(e: Option<Entry>, k: Key, ups: Updates, f: nat): Option<Entry> {
    if e.Some? && k in ups && e.value.off < f then Some(Entry(ups[k], e.value.del)) else e
  }

  function RepointBlob(b: Blob, ups: Updates, f: nat): Blob {
    map k | k in b :: Moved(Some(b[k]), k, ups, f).value
  }

  /** A shard's share of the updates; the flag says whether any of them took. */
  function Repoint(b: Blob, work: (Updates, nat)): (Blob, bool) {
    (RepointBlob(b, work.0, work.1), exists k | k in b :: k in work.0 && b[k].off < work.1)
  }

  predicate Contains(t: Table, k: Key) {
    k in Keys(t.data) || k in t.flat
  }

  /** Every update is routed to the table, to the shard covering its key, or nowhere. */
  predicate Routed(t: Table, sh: seq<Shard>, ups: Updates, done: set<Key>, local: Updates, byShard: map<nat, Updates>)
    requires Ordered(sh)
  {
    && (forall k | k in local :: k in done && k in ups && Contains(t, k) && local[k] == ups[k])
    && (forall k | k in done && k in ups && Contains(t, k) :: k in local)
    && (forall i, k | i in byShard && k in byShard[i] ::
          k in done && k in ups && !Contains(t, k) && ShardFor(sh, k) == Some(i) && byShard[i][k] == ups[k])
    && (forall k | k in done && k in ups && !Contains(t, k) && ShardFor(sh, k).Some? ::
          ShardFor(sh, k).value in byShard && k in byShard[ShardFor(sh, k).value])
  }

  function AddShare(byShard: map<nat, Updates>, i: nat, k: Key, v: nat): map<nat, Updates> {
    byShard[i := (if i in byShard then byShard[i] else map[])[k := v]]
  }

  lemma RouteLocal(t: Table, sh: seq<Shard>, ups: Updates, done: set<Key>, local: Updates, byShard: map<nat,
                   Updates>, k: Key)
    requires Ordered(sh) && Routed(t, sh, ups, done, local, byShard) && k in ups && Contains(t, k)
    ensures Routed(t, sh, ups, done + {k}, local[k := ups[k]], byShard)
  {
  }

  lemma RouteShard(t: Table, sh: seq<Shard>, ups: Updates, done: set<Key>, local: Updates, byShard: map<nat,
                   Updates>, k: Key)
    requires Ordered(sh) && Routed(t, sh, ups, done, local, byShard) && k in ups && !Contains(t, k)
    ensures ShardFor(sh, k).None? ==> Routed(t, sh, ups, done + {k}, local, byShard)
    ensures ShardFor(sh, k).Some? ==>
      Routed(t, sh, ups, done + {k}, local, AddShare(byShard, ShardFor(sh, k).value, k, ups[k]))
  {
  }

  /** Some update is for a key the table does not hold and a shard covers. */
  predicate Reaches(t: Table, sh: seq<Shard>, ups: Updates)
    requires Ordered(sh)
  {
    exists k | k in ups :: !Contains(t, k) && ShardFor(sh, k).Some?
  }

  lemma ShareIsRouted(t: Table, sh: seq<Shard>, ups: Updates, local: Updates, byShard: map<nat, Updates>, i: nat,
                      k: Key)
    requires Ordered(sh) && Routed(t, sh, ups, ups.Keys, local, byShard) && i in byShard && k in byShard[i]
    ensures k in ups && !Contains(t, k) && ShardFor(sh, k) == Some(i)
  {
  }

  lemma SharesReach(t: Table, sh: seq<Shard>, ups: Updates, local: Updates, byShard: map<nat, Updates>)
    requires Ordered(sh) && Routed(t, sh, ups, ups.Keys, local, byShard)
    requires forall i | i in byShard :: byShard[i] != map[]
    ensures byShard == map[] <==> !Reaches(t, sh, ups)
  {
    if byShard != map[] {
      var i :| i in byShard;
      var k :| k in byShard[i];
      ShareIsRouted(t, sh, ups, local, byShard, i, k);
    }
  }

  method Route(t: Table, sh: seq<Shard>, ups: Updates) returns (local: Updates, byShard: map<nat, Updates>)
    requires Ordered(sh)
    ensures Routed(t, sh, ups, ups.Keys, local, byShard)
    ensures byShard == map[] <==> !Reaches(t, sh, ups)
  {
    local, byShard := map[], map[];
    var todo := ups.Keys;
    ghost var done: set<Key> := {};
    while todo != {}
      invariant todo + done == ups.Keys && Routed(t, sh, ups, done, local, byShard)
      invariant forall i | i in byShard :: byShard[i] != map[]
      decreases todo
    {
      var k :| k in todo;
      if Contains(t, k) {
        RouteLocal(t, sh, ups, done, local, byShard, k);
        local := local[k := ups[k]];
      } else {
        RouteShard(t, sh, ups, done, local, byShard, k);
        var i := ShardFor(sh, k);
        if i.Some? {
          byShard := AddShare(byShard, i.value, k, ups[k]);
        }
      }
      todo, done := todo - {k}, done + {k};
    }
    SharesReach(t, sh, ups, local, byShard);
  }

  /** Keys of the table whose newest position the updates move. */
  function Hit(t: Table, ups: Updates, f: nat): set<Key> {
    set k | k in ups && Get(t, k).Some? && Get(t, k).value.off < f
  }

  predicate Displaced(t: Table, hit: set<Key>, p: At) {
    p.key in hit && LatestBelow(t.data, p.key, INVALID_OFFSET) == Some(p.off)
  }

  /** `apply_update` for every local update: the newest buffered position is replaced, a flat one lifted. */
  function RepointTable(t: Table, ups: Updates, f: nat): Table {
    var hit := Hit(t, ups, f);
    var copies := set k | k in hit :: At(k, ups[k]);
    Table((map p | p in t.data && !Displaced(t, hit, p) :: t.data[p])
          + (map p | p in copies && p.key in hit :: Get(t, p.key).value.del),
          t.flat)
  }

  /** Copies land at the WAL tail, past every recorded position. */
  predicate AtTail(t: Table, ups: Updates) {
    && (forall k | k in ups :: ups[k] < INVALID_OFFSET)
    && (forall p | p in t.data && p.key in ups :: p.off < ups[p.key])
  }

  lemma RepointedData(t: Table, ups: Updates, f: nat, p: At)
    ensures var r, hit := RepointTable(t, ups, f), Hit(t, ups, f);
            && (p in r.data <==> (p in t.data && !Displaced(t, hit, p)) || (p.key in hit && p.off == ups[p.key]))
            && (p.key in hit && p.off == ups[p.key] ==> p in r.data && r.data[p] == Get(t, p.key).value.del)
            && (p.key !in hit && p in t.data ==> p in r.data && r.data[p] == t.data[p])
  {
    if p.key in Hit(t, ups, f) && p.off == ups[p.key] {
      assert p == At(p.key, ups[p.key]);
    }
  }

  lemma RepointedGet(t: Table, ups: Updates, f: nat, k: Key)
    requires Genuine(t) && AtTail(t, ups)
    ensures Get(RepointTable(t, ups, f), k) == Moved(Get(t, k), k, ups, f)
  {
    if k in Hit(t, ups, f) {
      RepointedHit(t, ups, f, k);
    } else {
      RepointedMiss(t, ups, f, k);
    }
  }

  lemma RepointedHit(t: Table, ups: Updates, f: nat, k: Key)
    requires Genuine(t) && AtTail(t, ups) && k in Hit(t, ups, f)
    ensures Get(RepointTable(t, ups, f), k) == Some(Entry(ups[k], Get(t, k).value.del))
  {
    var r := RepointTable(t, ups, f);
    RepointedData(t, ups, f, At(k, ups[k]));
    var m := LatestBelow(r.data, k, INVALID_OFFSET);
    RepointedData(t, ups, f, At(k, m.value));
  }

  lemma RepointedMiss(t: Table, ups: Updates, f: nat, k: Key)
    requires k !in Hit(t, ups, f)
    ensures Get(RepointTable(t, ups, f), k) == Get(t, k)
  {
    var r := RepointTable(t, ups, f);
    var m, n := LatestBelow(r.data, k, INVALID_OFFSET), LatestBelow(t.data, k, INVALID_OFFSET);
    if m.Some? {
      RepointedData(t, ups, f, At(k, m.value));
    }
    if n.Some? {
      RepointedData(t, ups, f, At(k, n.value));
    }
    assert m == n;
  }

  lemma RoutedFits(t: Table, sh: seq<Shard>, d: Disk, work: map<nat, (Updates, nat)>)
    requires ShardsOk(sh, d)
    ensures WorkFits(sh, d, work, Repoint)
  {
    forall i, k | i in work && i < |sh| && sh[i].pos in d && k in Repoint(d[sh[i].pos], work[i]).0
      ensures Territory(sh, i, k)
    {
      CoveredIsOwned(sh, i, k);
      OwnerTerritory(sh, i, k);
    }
  }

  /** What the shards answer after a re-pointing: moved where the table does not hold the key, unchanged elsewhere. */
  ghost predicate ShardsMoved(t: Table, ups: Updates, f: nat, below: Blob, below': Blob) {
    forall k ::
      View(Find(below', k)) == View(if Contains(t, k) then Find(below, k) else Moved(Find(below, k), k, ups, f))
  }

  /** The content a shard ends with, key by key. */
  lemma RepointedContent(b: Blob, i: nat, work: map<nat, (Updates, nat)>, f: nat, k: Key)
    requires i in work ==> work[i].1 == f
    ensures View(Find(NewContent(b, i, work, Repoint), k))
         == View(Moved(Find(b, k), k, if i in work then work[i].0 else map[], f))
  {
    if i in work && k in b && !Repoint(b, work[i]).1 {
      assert !(k in work[i].0 && b[k].off < f);
    }
  }

  /** A covered key's update is in its shard's share exactly when the table does not hold the key. */
  lemma RoutedShare(t: Table, sh: seq<Shard>, ups: Updates, local: Updates, byShard: map<nat, Updates>, i: nat,
                    k: Key, e: Entry, f: nat)
    requires Ordered(sh) && i < |sh| && Covers(sh[i], k) && Routed(t, sh, ups, ups.Keys, local, byShard)
    ensures Moved(Some(e), k, if i in byShard then byShard[i] else map[], f)
         == if Contains(t, k) then Some(e) else Moved(Some(e), k, ups, f)
  {
    ShardForCovers(sh, k, i);
  }

  lemma ShardsAnswer(t: Table, sh: seq<Shard>, d: Disk, ups: Updates, local: Updates, byShard: map<nat, Updates>,
                     f: nat,
                     work: map<nat, (Updates, nat)>, out: seq<Shard>, d': Disk)
    requires ShardsOk(sh, d) && sh != [] && Routed(t, sh, ups, ups.Keys, local, byShard)
    requires work == map i | i in byShard :: (byShard[i], f)
    requires Rewritten(out, d', sh, d, |sh|, work, Repoint)
    ensures ShardsMoved(t, ups, f, Union(sh, d), Union(out, d'))
  {
    var below, below' := Union(sh, d), Union(out, d');
    forall k
      ensures View(Find(below', k)) == View(if Contains(t, k) then Find(below, k) else Moved(Find(below, k), k, ups, f))
    {
      var i := Owner(sh, k);
      UnionOwner(sh, d, k);
      assert Find(below', k) == Find(NewContent(d[sh[i].pos], i, work, Repoint), k);
      RepointedContent(d[sh[i].pos], i, work, f, k);
      if k in d[sh[i].pos] {
        RoutedShare(t, sh, ups, local, byShard, i, k, d[sh[i].pos][k], f);
      }
    }
  }

  /** Updates that reach no shard change nothing in any. */
  lemma NothingMoved(t: Table, sh: seq<Shard>, d: Disk, ups: Updates, f: nat)
    requires ShardsOk(sh, d) && !Reaches(t, sh, ups)
    ensures ShardsMoved(t, ups, f, Union(sh, d), Union(sh, d))
  {
    forall k | k in ups && !Contains(t, k) ensures Find(Union(sh, d), k) == None {
      assert ShardFor(sh, k).None?;
      UnionLookup(sh, d, k);
    }
  }

  /** No update moves an entry of shard contents `b`. */
  predicate Spared(t: Table, ups: Updates, f: nat, b: Blob) {
    forall k | k in b && k in ups && !Contains(t, k) :: f <= b[k].off
  }

  lemma SparedUnchanged(t: Table, sh: seq<Shard>, d: Disk, ups: Updates, local: Updates, byShard: map<nat, Updates>,
                        f: nat, work: map<nat, (Updates, nat)>, i: nat)
    requires ShardsOk(sh, d) && Routed(t, sh, ups, ups.Keys, local, byShard)
    requires work == map j | j in byShard :: (byShard[j], f)
    requires i < |sh| && Spared(t, ups, f, d[sh[i].pos])
    ensures Unchanged(d, sh, i, work, Repoint)
  {
  }

  /**
   Re-pointing on a sharded cell: the table first, then shard by shard; the shards no update reaches
   keep their blobs.
  */
  method ApplyUpdatesSharded(store: IndexStore, t: Table, lv: Levels, ups: Updates, f: nat, size: Blob -> nat,
                             limit: nat)
    returns (t': Table, out: Levels)
    requires store.Valid() && LevelsOk(lv, store.blobs) && IsSharded(lv) && Genuine(t) && AtTail(t, ups)
    modifies store
    ensures store.Valid() && Kept(old(store.blobs), store.blobs) && LevelsOk(out, store.blobs) && out.l1.None?
    ensures forall k :: Get(t', k) == Moved(Get(t, k), k, ups, f)
    ensures ShardsMoved(t, ups, f, Union(lv.shards, old(store.blobs)), Union(out.shards, store.blobs))
    ensures OldOrFresh(out.shards, lv.shards, old(store.blobs))
    ensures if Reaches(t, lv.shards, ups) then out.l0.None? else out == lv
    ensures forall s | s in lv.shards && Spared(t, ups, f, old(store.blobs)[s.pos]) :: s in out.shards
  {
    var local, byShard := Route(t, lv.shards, ups);
    t' := RepointTable(t, local, f);
    LocalAnswers(t, lv.shards, ups, local, byShard, f);
    if byShard == map[] {
      NothingMoved(t, lv.shards, store.blobs, ups, f);
      return t', lv;
    }
    var work := map i | i in byShard :: (byShard[i], f);
    RoutedFits(t, lv.shards, store.blobs, work);
    var sh := RewriteShards(store, lv.shards, work, Repoint, size, limit);
    ShardsAnswer(t, lv.shards, old(store.blobs), ups, local, byShard, f, work, sh, store.blobs);
    forall s | s in lv.shards && Spared(t, ups, f, old(store.blobs)[s.pos]) ensures s in sh {
      var i :| 0 <= i < |lv.shards| && lv.shards[i] == s;
      SparedUnchanged(t, lv.shards, old(store.blobs), ups, local, byShard, f, work, i);
    }
    out := Levels(None, None, sh);
  }

  lemma LocalAnswers(t: Table, sh: seq<Shard>, ups: Updates, local: Updates, byShard: map<nat, Updates>, f: nat)
    requires Ordered(sh) && Routed(t, sh, ups, ups.Keys, local, byShard) && Genuine(t) && AtTail(t, ups)
    ensures forall k :: Get(RepointTable(t, local, f), k) == Moved(Get(t, k), k, ups, f)
  {
    forall k ensures Get(RepointTable(t, local, f), k) == Moved(Get(t, k), k, ups, f) {
      RepointedGet(t, local, f, k);
      assert Get(t, k).Some? ==> Contains(t, k) by {
        if Latest(t.data, k, INVALID_OFFSET).Some? {
          assert At(k, LatestBelow(t.data, k, INVALID_OFFSET).value).key in Keys(t.data);
        }
      }
    }
  }
}
