/**
 One cell of the large table as a value: its state label, in-memory table, on-disk levels
 and frontiers, and what each row-locked operation does to them.
*/
module CellSpec {
  import opened Bytes
  import opened IndexTable

  /** The contents of a cell's on-disk levels: L0, and whatever lies below it (one L1 blob or the shards). */
  datatype Image = Image(l0: Option<Blob>, below: Option<Blob>, sharded: bool)

  const NO_LEVELS: Image := Image(None, None, false)

  predicate NonEmpty(img: Image) {
    img.l0.Some? || img.below.Some?
  }

  function InLevel(b: Option<Blob>, k: Key): Option<Entry> {
    if b.Some? then Find(b.value, k) else None
  }

  /** What the on-disk levels alone answer for `k`. */
  function DiskVal(img: Image, k: Key): Option<nat> {
    View(Or(InLevel(img.l0, k), InLevel(img.below, k)))
  }

  datatype State = Empty | Unloaded | Loaded | DirtyUnloaded | DirtyLoaded

  predicate IsLoaded(s: State) { s.Empty? || s.Loaded? || s.DirtyLoaded? }

  predicate IsDirty(s: State) { s.DirtyUnloaded? || s.DirtyLoaded? }

  predicate IsClean(s: State) { s.Unloaded? || s.Loaded? }

  function Dirtied(s: State): State {
    match s
    case Empty => DirtyLoaded
    case Loaded => DirtyLoaded
    case Unloaded => DirtyUnloaded
    case DirtyLoaded => DirtyLoaded
    case DirtyUnloaded => DirtyUnloaded
  }

  /**
   `arc` identifies the shared snapshot `table` currently is, if any: taking a snapshot
   shares the table, and the first mutation afterwards copies it and drops the identity.
  */
  datatype Cell = Cell(
    state: State,
    table: Table,
    arc: Option<nat>,
    nextArc: nat,
    image: Image,
    lastProcessed: nat,
    pending: Option<nat>)

  const NEW_CELL: Cell := Cell(Empty, EMPTY_TABLE, None, 0, NO_LEVELS, 0, None)

  function Min(a: nat, b: nat): nat { if a < b then a else b }

  function Own(c: Cell, t: Table): Cell {
    c.(table := t, arc := None)
  }

  function Share(c: Cell): Cell {
    if c.arc.Some? then c else c.(arc := Some(c.nextArc), nextArc := c.nextArc + 1)
  }

  function MarkDirty(c: Cell, off: nat, frontier: nat): Cell {
    c.(lastProcessed := Min(if c.state.Empty? then frontier else c.lastProcessed, off), state := Dirtied(c.state))
  }

  function Write(c: Cell, p: At, del: bool, frontier: nat): Cell {
    Own(MarkDirty(c, p.off, frontier), c.table.(data := c.table.data[p := del]))
  }

  /** The levels a read still consults after the table missed: a loaded table already covers L0. */
  function BelowTable(c: Cell, k: Key): Option<Entry> {
    if IsLoaded(c.state) then InLevel(c.image.below, k)
    else Or(InLevel(c.image.l0, k), InLevel(c.image.below, k))
  }

  /** Point read of `k` seeing only buffered positions below `b`; `INVALID_OFFSET` reads live. */
  function Read(c: Cell, k: Key, b: nat): Option<nat> {
    View(Or(GetAt(c.table, k, b), BelowTable(c, k)))
  }

  function Load(c: Cell): Cell {
    if (c.state.Unloaded? || c.state.DirtyUnloaded?) && c.pending.None? then
      var l0 := if c.image.l0.Some? then c.image.l0.value else map[];
      Own(c, MergeDirty(l0, c.table)).(state := if c.state.Unloaded? then Loaded else DirtyLoaded)
    else c
  }

  function ClearAfterFlush(c: Cell, img: Image, f: nat, keepLoaded: bool): Cell {
    var c := c.(image := img);
    if IsLoaded(c.state) && keepLoaded then
      if HasUnprocessed(c.table, f) then c.(state := DirtyLoaded)
      else (if img.below.None? then Own(c, CleanSelf(c.table)) else c).(state := Loaded)
    else
      var t := RetainUnprocessed(c.table, f);
      Own(c, t).(state := if IsEmpty(t) then Unloaded else DirtyUnloaded)
  }

  /** Completion of an async flush whose snapshot was `original`, shared as `arc`. */
  function UpdateFlushed(c: Cell, arc: nat, original: Table, img: Image, keepLoaded: bool): Cell
    requires c.pending.Some?
  {
    var f := c.pending.value;
    var c := c.(lastProcessed := f, pending := None);
    if c.arc == Some(arc) then ClearAfterFlush(c, img, f, keepLoaded)
    else Own(c, UnmergeFlushed(c.table, original, f)).(image := img, state := DirtyUnloaded)
  }

  /** Completion of a force-relocation. */
  function UpdateRelocated(c: Cell, img: Image): Cell
    requires c.pending.Some?
  {
    var f := c.pending.value;
    var covered := img.sharded || c.image.below.None?;
    var c := c.(lastProcessed := f, pending := None, image := img);
    match c.state
    case Loaded => Own(c, EMPTY_TABLE).(state := Unloaded)
    case DirtyLoaded =>
      if covered then c
      else
        var t := RetainUnprocessed(c.table, f);
        Own(c, t).(state := if IsEmpty(t) then Unloaded else DirtyUnloaded)
    case _ => c
  }

  /**
   What a flush of `dirty` over the levels `img`, filtered at frontier `f`, owes at key `k`.
   A loaded snapshot already contains L0.
  */
  function Merged(img: Image, dirty: Table, loaded: bool, f: nat, k: Key): Option<Entry> {
    Or(GetAt(dirty, k, f), if loaded then None else InLevel(img.l0, k))
  }

  predicate FlushedAt(img: Image, dirty: Table, loaded: bool, f: nat, out: Image, k: Key) {
    var merged := Merged(img, dirty, loaded, f, k);
    var want := View(Or(merged, InLevel(img.below, k)));
    && (InLevel(out.l0, k).Some? ==>
          && merged.Some?
          && View(InLevel(out.l0, k)) == want
          && View(InLevel(out.below, k)) == View(InLevel(img.below, k)))
    && (InLevel(out.l0, k).None? ==> View(InLevel(out.below, k)) == want)
  }

  /** The contract the flusher meets and the cell protocol relies on. */
  ghost predicate Flushed(img: Image, dirty: Table, loaded: bool, f: nat, out: Image) {
    && NonEmpty(out)
    && (out.sharded ==> out.below.Some?)
    && forall k :: FlushedAt(img, dirty, loaded, f, out, k)
  }

  /** Sharded levels keep shape and content; unsharded levels collapse into one blob. */
  ghost predicate Relocated(img: Image, out: Image) {
    && NonEmpty(out)
    && (if img.sharded then out == img
        else !out.sharded && out.below.None? && forall k :: DiskVal(out, k) == DiskVal(img, k))
  }
}
