/**
 The life of one cell under concurrency: writes reaching the row lock out of WAL order,
 batches committing before they are promoted, optimistic flat promotion, loads, asynchronous
 flushes and force-relocations racing all of them.
*/
module Protocol {
  import opened Bytes
  import opened IndexTable
  import opened CellSpec

  /** A queued background command; `at` is the frontier captured when it was requested. */
  datatype Job =
    | NoJob
    | Flush(arc: nat, original: Table, loaded: bool, image: Image, at: nat, out: Option<(nat, Image)>)
    | Relocate(image: Image, at: nat, moved: Option<Image>)

  /** A flat promotion computing outside the lock. */
  datatype Promotion = Promotion(arc: nat, table: Table, threshold: nat)

  /**
   A row-lock section that acts on a frontier reads it first and drains the committed batch
   operations afterwards; commits and the frontier keep moving meanwhile.  `wasEmpty` tells
   whether the cell was Empty when the frontier was read.
  */
  datatype Section = Free | Draining(front: nat, todo: set<At>, wasEmpty: bool) | Drained(front: nat, wasEmpty: bool)

  /**
   A cell with the WAL history routed to it.  `log` holds every allocated write, `applied`
   those recorded in the table, `ready` the committed batch operations still in the pending
   table.  Every other write of `log` is in flight and holds its WAL guard.
  */
  datatype Ctx = Ctx(
    log: Log,
    applied: Log,
    ready: set<At>,
    cell: Cell,
    keepLoaded: bool,
    job: Job,
    promotion: Option<Promotion>,
    section: Section)

  function NewCtx(keepLoaded: bool): Ctx {
    Ctx(map[], map[], {}, NEW_CELL, keepLoaded, NoJob, None, Free)
  }

  datatype Step =
    | Append(p: At, del: bool)
    | Commit(p: At)
    | Direct(p: At)
    | ApplyReady(p: At)
    | ReadFrontier
    | EndDrain
    | Leave
    | FlatBegin
    | FlatEnd
    | FlatSkip
    | LoadL0
    | RequestFlush
    | ExecuteFlush(out: Image)
    | CompleteFlush
    | RequestRelocate
    | ExecuteRelocate(moved: Image)
    | CompleteRelocate
    | Visit

  /** Whether `s` can happen at frontier `f`. */
  ghost predicate Enabled(x: Ctx, f: nat, s: Step) {
    match s
    case Append(p, _) => p !in x.log && f <= p.off < INVALID_OFFSET
    case Commit(p) => p in x.log && p !in x.applied && p !in x.ready
    case Direct(p) => p in x.log && p !in x.applied && p !in x.ready && x.section.Free?
    case ApplyReady(p) => p in x.ready && p in x.log && !x.section.Drained?
    case ReadFrontier => x.section.Free?
    case EndDrain => x.section.Draining? && x.section.todo == {}
    case Leave => !x.section.Free?
    case FlatBegin => x.section.Drained? && x.promotion.None?
    case FlatEnd => x.section.Free? && x.promotion.Some?
    case FlatSkip => x.promotion.Some?
    case LoadL0 => x.section.Free?
    case RequestFlush => x.section.Drained? && x.cell.pending.None? && IsDirty(x.cell.state)
    case ExecuteFlush(out) =>
      x.job.Flush? && x.job.out.None? && Flushed(x.job.image, x.job.original, x.job.loaded, f, out)
    case CompleteFlush => x.section.Free? && x.job.Flush? && x.job.out.Some?
    case RequestRelocate => x.section.Drained? && x.cell.pending.None? && IsClean(x.cell.state)
    case ExecuteRelocate(moved) => x.job.Relocate? && x.job.moved.None? && Relocated(x.job.image, moved)
    case CompleteRelocate => x.section.Free? && x.job.Relocate? && x.job.moved.Some?
    case Visit => x.section.Drained?
  }

  function Applied(x: Ctx, p: At, f: nat): Ctx
    requires p in x.log
  {
    x.(applied := x.applied[p := x.log[p]], ready := x.ready - {p}, cell := Write(x.cell, p, x.log[p], f))
  }

  /** The promotion threshold: never past the frontier of a flush in flight. */
  function Threshold(x: Ctx): nat
    requires x.section.Drained?
  {
    if x.cell.pending.Some? then x.cell.pending.value else x.section.front
  }

  /** The assertions and panic arms the code can hit on its way through a step. */
  predicate Panics(x: Ctx, s: Step) {
    match s
    case Direct(p) => p in x.cell.table.data
    case ApplyReady(p) => p in x.cell.table.data
    case LoadL0 => x.cell.state.Unloaded? && x.cell.table != EMPTY_TABLE
    case CompleteFlush => x.cell.pending.None? || !IsDirty(x.cell.state)
    case CompleteRelocate => x.cell.pending.None? || x.cell.state.Empty?
    case _ => false
  }

  /** A step that panics is left without effect here; that none does is a theorem. */
  ghost function Next(x: Ctx, f: nat, s: Step): Ctx
    requires Enabled(x, f, s)
  {
    if Panics(x, s) then x else
    match s
    case Append(p, del) => x.(log := x.log[p := del])
    case Commit(p) => x.(ready := x.ready + {p})
    case Direct(p) => Applied(x, p, f)
    case ApplyReady(p) =>
      var y := Applied(x, p, f);
      if x.section.Draining? then y.(section := x.section.(todo := x.section.todo - {p})) else y
    case ReadFrontier => x.(section := Draining(f, x.ready, x.cell.state.Empty?))
    case EndDrain => x.(section := Drained(x.section.front, x.section.wasEmpty))
    case Leave => x.(section := Free)
    case FlatBegin =>
      var c := Share(x.cell);
      x.(cell := c, promotion := Some(Promotion(c.arc.value, c.table, Threshold(x))), section := Free)
    case FlatEnd =>
      var pr := x.promotion.value;
      x.(promotion := None,
         cell := if x.cell.arc == Some(pr.arc) then Own(x.cell, PromoteToFlat(pr.table, pr.threshold)) else x.cell)
    case FlatSkip => x.(promotion := None)
    case LoadL0 => x.(cell := Load(x.cell))
    case RequestFlush =>
      var c := Share(x.cell).(pending := Some(x.section.front));
      x.(cell := c, section := Free,
         job := Flush(c.arc.value, c.table, c.state.DirtyLoaded?, c.image, x.section.front, None))
    case ExecuteFlush(out) => x.(job := x.job.(out := Some((f, out))))
    case CompleteFlush =>
      x.(job := NoJob,
         cell := UpdateFlushed(x.cell, x.job.arc, x.job.original, x.job.out.value.1, x.keepLoaded))
    case RequestRelocate =>
      x.(cell := x.cell.(pending := Some(x.section.front)), section := Free,
         job := Relocate(x.cell.image, x.section.front, None))
    case ExecuteRelocate(moved) => x.(job := x.job.(moved := Some(moved)))
    case CompleteRelocate => x.(job := NoJob, cell := UpdateRelocated(x.cell, x.job.moved.value))
    case Visit =>
      x.(section := Free,
         cell := if IsClean(x.cell.state) then x.cell.(lastProcessed := x.section.front) else x.cell)
  }

  // ---- the invariant ----

  predicate Within(a: Log, b: Log) {
    forall p | p in a :: p in b && a[p] == b[p]
  }

  /** Every write not yet applied sits at or above `f`. */
  predicate UnappliedFrom(x: Ctx, f: nat) {
    forall p | p in x.log && p !in x.applied :: f <= p.off
  }

  /** Every applied write at or above `f` is still in the write buffer. */
  predicate Buffered(x: Ctx, f: nat) {
    forall p | p in x.applied && f <= p.off :: p in x.cell.table.data
  }

  /** Some write at or above `at` has been applied. */
  predicate Beyond(x: Ctx, at: nat) {
    exists p | p in x.applied :: at <= p.off
  }

  /** What a read of `k` finds once the write buffer has nothing to say. */
  function Base(c: Cell, k: Key): Option<nat> {
    View(Or(Find(c.table.flat, k), BelowTable(c, k)))
  }

  /**
   The buffer holds exactly the writes of `k` from `c` up.  Below it `k` reads as of some `b`
   at or past `c`, unless the buffered write at `c` itself answers every read.
  */
  predicate Cut(x: Ctx, f: nat, k: Key, c: nat, b: nat) {
    && c <= b <= f
    && (forall p | p in x.applied && p.key == k && c <= p.off :: p in x.cell.table.data)
    && (forall p | p in x.cell.table.data && p.key == k :: c <= p.off)
    && (forall p | p in x.log && p !in x.applied && p.key == k :: c <= p.off)
    && (Base(x.cell, k) == AsOf(x.applied, k, b) || (At(k, c) in x.cell.table.data && c < f))
  }

  ghost predicate KeyOk(x: Ctx, f: nat, k: Key) {
    exists c, b :: Cut(x, f, k, c, b)
  }

  /** The levels alone account for every write of `k` below the durable frontier. */
  ghost predicate DiskOk(x: Ctx, f: nat, k: Key) {
    exists b :: x.cell.lastProcessed <= b <= f && DiskVal(x.cell.image, k) == AsOf(x.applied, k, b)
  }

  predicate Shape(c: Cell) {
    && (c.state.Empty? ==> c.image == NO_LEVELS && c.table == EMPTY_TABLE)
    && (c.state.Unloaded? ==> c.table == EMPTY_TABLE)
    && (c.state.Unloaded? || c.state.Loaded? || c.state.DirtyUnloaded? ==> NonEmpty(c.image))
    && (c.image.sharded ==> c.image.below.Some?)
    && (c.arc.Some? ==> c.arc.value < c.nextArc)
  }

  /** A clean cell's levels hold everything the cell was ever told. */
  ghost predicate CleanOk(x: Ctx, f: nat) {
    IsClean(x.cell.state) ==>
      && (forall p | p in x.applied :: p.off < f)
      && forall k :: DiskVal(x.cell.image, k) == AsOf(x.applied, k, f)
  }

  predicate SectionOk(x: Ctx, f: nat) {
    match x.section
    case Free => true
    case Draining(front, todo, _) =>
      front <= f && forall p | p in x.log && p !in x.applied && p !in todo :: front <= p.off
    case Drained(front, _) => front <= f && UnappliedFrom(x, front)
  }

  /** Inside a section the cell has not seen the frontier move past the section's reading of it. */
  function Seen(x: Ctx, f: nat): nat {
    if x.section.Free? then f else x.section.front
  }

  predicate Same(c: Cell, arc: nat, t: Table) {
    arc < c.nextArc && (c.arc == Some(arc) ==> c.table == t)
  }

  predicate PromotionOk(x: Ctx, f: nat) {
    x.promotion.Some? ==>
      var pr := x.promotion.value;
      && Same(x.cell, pr.arc, pr.table)
      && pr.threshold <= Seen(x, f)
      && UnappliedFrom(x, pr.threshold)
      && (x.cell.pending.Some? ==> pr.threshold <= x.cell.pending.value)
  }

  /** What a flush snapshot of `dirty` over `img` answers for `k` as of `b`. */
  function SnapshotVal(img: Image, dirty: Table, loaded: bool, b: nat, k: Key): Option<nat> {
    View(Or(Merged(img, dirty, loaded, b, k), InLevel(img.below, k)))
  }

  /** Below the flush frontier a key is still as in the snapshot, or was promoted whole since. */
  predicate Tracks(x: Ctx, k: Key)
    requires x.job.Flush?
  {
    var live, orig, at := x.cell.table, x.job.original, x.job.at;
    || (&& (forall p | p in orig.data && p.key == k && p.off < at :: p in live.data)
        && (forall p | p in live.data && p.key == k && p.off < at :: p in orig.data)
        && Find(live.flat, k) == Find(orig.flat, k))
    || (&& (forall p | p in live.data && p.key == k :: at <= p.off)
        && Latest(orig.data, k, at).Some?
        && Find(live.flat, k) == Latest(orig.data, k, at))
  }

  ghost predicate JobOk(x: Ctx, f: nat) {
    var j := x.job;
    && (j.NoJob? <==> x.cell.pending.None?)
    && (!j.NoJob? ==>
          && x.cell.pending == Some(j.at)
          && j.at <= Seen(x, f)
          && j.image == x.cell.image
          && UnappliedFrom(x, j.at)
          && Buffered(x, j.at))
    && (j.Flush? ==>
          && IsDirty(x.cell.state)
          && j.loaded == x.cell.state.DirtyLoaded?
          && Same(x.cell, j.arc, j.original)
          && Within(j.original.data, x.applied)
          && (forall k :: Tracks(x, k))
          && (forall k :: SnapshotVal(j.image, j.original, j.loaded, j.at, k) == AsOf(x.applied, k, j.at))
          && (j.out.Some? ==>
                && j.at <= j.out.value.0 <= f
                && Flushed(j.image, j.original, j.loaded, j.out.value.0, j.out.value.1)))
    && (j.Relocate? ==>
          && !x.cell.state.Empty?
          && (IsClean(x.cell.state) ==> forall p | p in x.applied :: p.off < j.at)
          && (IsDirty(x.cell.state) ==> Beyond(x, j.at))
          && (forall k :: DiskVal(x.cell.image, k) == AsOf(x.applied, k, j.at))
          && (j.moved.Some? ==> Relocated(j.image, j.moved.value)))
  }

  predicate LogsOk(x: Ctx, f: nat) {
    && Within(x.applied, x.log)
    && Within(x.cell.table.data, x.applied)
    && x.ready <= x.log.Keys - x.applied.Keys
    && (forall p | p in x.log :: p.off < INVALID_OFFSET)
    && (forall p | p in x.log && p !in x.applied && p !in x.ready :: f <= p.off)
    && (x.cell.state.Empty? ==> x.applied == map[])
    && (!NonEmpty(x.cell.image) ==> forall p | p in x.applied :: x.cell.lastProcessed <= p.off)
  }

  ghost predicate Inv(x: Ctx, f: nat) {
    && LogsOk(x, f)
    && Shape(x.cell)
    && SectionOk(x, f)
    && PromotionOk(x, f)
    && JobOk(x, f)
    && (!x.cell.state.Empty? ==> x.cell.lastProcessed <= f && forall k :: DiskOk(x, f, k))
    && (forall k :: KeyOk(x, Seen(x, f), k))
    && CleanOk(x, Seen(x, f))
  }
}
