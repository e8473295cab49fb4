/**
 The per-cell in-memory index.

 A table is a write buffer `data`, holding every recorded position of a key, laid over a
 compact array `flat`, holding one entry per key.  A position is identified by its WAL
 offset; on disk a tombstone loses its offset and carries `INVALID_OFFSET` instead.
*/
module IndexTable {
  import opened Bytes

  const INVALID_OFFSET: nat := 0xFFFF_FFFF_FFFF_FFFF

  /** One write: the key and the WAL offset of its frame. */
  datatype At = At(key: Key, off: nat)

  /** A set of writes, each mapped to whether it removes its key. */
  type Log = map<At, bool>

  datatype Entry = Entry(off: nat, del: bool)

  type Blob = map<Key, Entry>

  datatype Table = Table(data: Log, flat: Blob)

  const EMPTY_TABLE: Table := Table(map[], map[])

  /** The highest offset below `b` at which `w` writes `k`. */
  function LatestBelow(w: Log, k: Key, b: nat): (r: Option<nat>)
    ensures r.None? ==> forall p | p in w && p.key == k :: b <= p.off
    ensures r.Some? ==> At(k, r.value) in w && r.value < b
    ensures r.Some? ==> forall p | p in w && p.key == k && p.off < b :: p.off <= r.value
  {
    if b == 0 then None
    else if At(k, b - 1) in w then Some(b - 1)
    else LatestBelow(w, k, b - 1)
  }

  /** The live position an index entry stands for; a tombstone stands for none. */
  function View(e: Option<Entry>): Option<nat> {
    if e.Some? && !e.value.del then Some(e.value.off) else None
  }

  function Latest(w: Log, k: Key, b: nat): Option<Entry> {
    var o := LatestBelow(w, k, b);
    if o.Some? then Some(Entry(o.value, w[At(k, o.value)])) else None
  }

  /** What the writes of `w` below `b` leave at `k`: the reference every read is held to. */
  function AsOf(w: Log, k: Key, b: nat): Option<nat> {
    View(Latest(w, k, b))
  }

  function Find(m: Blob, k: Key): Option<Entry> {
    if k in m then Some(m[k]) else None
  }

  /** First hit wins. */
  function Or(a: Option<Entry>, b: Option<Entry>): Option<Entry> {
    if a.Some? then a else b
  }

  /** `get_at`: positions at or above `b` are ignored, `flat` is read unfiltered. */
  function GetAt(t: Table, k: Key, b: nat): Option<Entry> {
    Or(Latest(t.data, k, b), Find(t.flat, k))
  }

  function Get(t: Table, k: Key): Option<Entry> {
    GetAt(t, k, INVALID_OFFSET)
  }

  function IsEmpty(t: Table): bool {
    t == EMPTY_TABLE
  }

  function Keys(w: Log): set<Key> {
    set p | p in w :: p.key
  }

  predicate HasUnprocessed(t: Table, f: nat) {
    exists p | p in t.data :: f <= p.off
  }

  function RetainProcessed(t: Table, f: nat): Table {
    Table(map p | p in t.data && p.off < f :: t.data[p], t.flat)
  }

  function RetainUnprocessed(t: Table, f: nat): Table {
    Table(map p | p in t.data && f <= p.off :: t.data[p], map[])
  }

  /** `merge_dirty`: lay `dirty` over a table freshly loaded from `base`. */
  function MergeDirty(base: Blob, dirty: Table): Table {
    Table(dirty.data, base + dirty.flat)
  }

  /** A key leaves the write buffer only when every position of it is below `t`. */
  predicate Promotable(w: Log, k: Key, t: nat) {
    k in Keys(w) && forall p | p in w && p.key == k :: p.off < t
  }

  function PromoteToFlat(t: Table, threshold: nat): Table {
    Table(
      map p | p in t.data && !Promotable(t.data, p.key, threshold) :: t.data[p],
      t.flat + map k | k in Keys(t.data) && Promotable(t.data, k, threshold) :: Latest(t.data, k, threshold).value)
  }

  /** The newest flushed position of `k` that already left the live write buffer. */
  function LeftBuffer(live: Table, original: Table, f: nat, k: Key): Option<nat> {
    LatestBelow(map p | p in original.data && p !in live.data :: original.data[p], k, f)
  }

  function UnmergeFlushed(live: Table, original: Table, f: nat): Table {
    Table(
      map p | p in live.data && !(p in original.data && p.off < f) :: live.data[p],
      map k | k in live.flat
              && !(k in original.flat && original.flat[k].off == live.flat[k].off)
              && LeftBuffer(live, original, f, k) != Some(live.flat[k].off)
           :: live.flat[k])
  }

  /** Latest position per key only, tombstones and everything they shadow dropped. */
  function CleanSelf(t: Table): Table {
    Table(
      map p | p in t.data && LatestBelow(t.data, p.key, INVALID_OFFSET) == Some(p.off) && !t.data[p] :: false,
      map k | k in t.flat && !t.flat[k].del
              && !(Latest(t.data, k, INVALID_OFFSET).Some? && Latest(t.data, k, INVALID_OFFSET).value.del)
           :: t.flat[k])
  }
}
