/**
 `LargeTableEntry`: one cell of the large table as the mutable object the row lock guards.
 A ghost history stands beside it, and every method takes both from one state of the cell
 protocol to the next.
*/
module LargeTable {
  import opened Bytes
  import opened IndexTable
  import opened CellSpec
  import opened Protocol
  import opened CellInvariant

  /** Live reads of every key answer the same in both. */
  ghost predicate SameReads(x: Ctx, y: Ctx) {
    forall k :: Read(x.cell, k, INVALID_OFFSET) == Read(y.cell, k, INVALID_OFFSET)
  }

  /** Steps of the cell's surroundings: they touch its history, its lock or the flusher, not the object. */
  predicate Outside(s: Step) {
    || s.Append? || s.Commit? || s.ReadFrontier? || s.EndDrain? || s.Leave? || s.FlatSkip?
    || s.ExecuteFlush? || s.ExecuteRelocate?
  }

  lemma ReadsApplied(x: Ctx, f: nat)
    requires Inv(x, f) && f <= INVALID_OFFSET
    ensures forall k :: Read(x.cell, k, INVALID_OFFSET) == AsOf(x.applied, k, INVALID_OFFSET)
  {
    forall k ensures Read(x.cell, k, INVALID_OFFSET) == AsOf(x.applied, k, INVALID_OFFSET) {
      ReadsAsOf(x, f, k, INVALID_OFFSET);
    }
  }

  lemma OutsideKeepsCell(x: Ctx, f: nat, s: Step)
    requires Enabled(x, f, s) && Outside(s)
    ensures Next(x, f, s).cell == x.cell && Next(x, f, s).keepLoaded == x.keepLoaded
  {
  }

  /** `ops` lists the committed operations of `x`, each once. */
  predicate Lists(ops: seq<(At, bool)>, x: Ctx) {
    && (forall n | 0 <= n < |ops| :: ops[n].0 in x.ready && ops[n].0 in x.log && x.log[ops[n].0] == ops[n].1)
    && (forall m, n | 0 <= m < n < |ops| :: ops[m].0 != ops[n].0)
    && (forall p | p in x.ready :: exists n | 0 <= n < |ops| :: ops[n].0 == p)
  }

  /** `p` is among the operations from `n` on. */
  predicate Later(ops: seq<(At, bool)>, n: nat, p: At) {
    exists m | n <= m < |ops| :: ops[m].0 == p
  }

  /** The snapshot of a queued flush answers every key as of `at`. */
  ghost predicate Answers(x: Ctx, at: nat) {
    x.job.Flush? && forall k :: SnapshotVal(x.job.image, x.job.original, x.job.loaded, at, k) == AsOf(x.applied, k, at)
  }

  /** The history of a cell that has been dropped. */
  function Cleared(x: Ctx): Ctx {
    x.(log := map p | p in x.log && p !in x.applied :: x.log[p], applied := map[],
       cell := NEW_CELL.(nextArc := x.cell.nextArc))
  }

  lemma ClearedInv(x: Ctx, f: nat)
    requires Inv(x, f) && x.cell.pending.None?
    ensures Inv(Cleared(x), f)
  {
    var y := Cleared(x);
    assert forall p | p in y.ready :: p in y.log;
    forall k ensures KeyOk(y, Seen(y, f), k) {
      assert AsOf(map[], k, 0) == None;
      assert Cut(y, Seen(y, f), k, 0, 0);
    }
  }

  class LargeTableEntry {
    const unloadingDisabled: bool
    var state: State
    var data: Table
    var arc: Option<nat>
    var nextArc: nat
    var levels: Image
    var lastProcessed: nat
    var pendingLastProcessed: Option<nat>

    /** The writes routed to the cell with everything in flight around it, and the frontier of the day. */
    ghost var ctx: Ctx
    ghost var frontier: nat

    function View(): Cell
      reads this
    {
      Cell(state, data, arc, nextArc, levels, lastProcessed, pendingLastProcessed)
    }

    ghost predicate Valid()
      reads this
    {
      && ctx.cell == View() && ctx.keepLoaded == unloadingDisabled
      && frontier <= INVALID_OFFSET && Inv(ctx, frontier)
    }

    constructor (disabled: bool)
      ensures Valid() && unloadingDisabled == disabled && ctx == NewCtx(disabled)
    {
      unloadingDisabled := disabled;
      state, data, arc, nextArc := Empty, EMPTY_TABLE, None, 0;
      levels, lastProcessed, pendingLastProcessed := NO_LEVELS, 0, None;
      ctx, frontier := NewCtx(disabled), 0;
      InitInv(disabled, 0);
    }

    /** The rest of the database moves on. */
    ghost method Elsewhere(s: Step)
      requires Valid() && Enabled(ctx, frontier, s) && Outside(s)
      modifies this`ctx
      ensures Valid() && ctx == Next(old(ctx), frontier, s)
    {
      StepInv(ctx, frontier, s);
      OutsideKeepsCell(ctx, frontier, s);
      ctx := Next(ctx, frontier, s);
    }

    ghost method Advance(g: nat)
      requires Valid() && frontier <= g <= INVALID_OFFSET
      requires forall p | p in ctx.log && p !in ctx.applied && p !in ctx.ready :: g <= p.off
      modifies this`frontier
      ensures Valid() && frontier == g
    {
      FrontierInv(ctx, frontier, g);
      frontier := g;
    }

    /** The history takes a step that live reads do not notice; the object is about to follow. */
    ghost method Quietly(s: Step)
      requires Inv(ctx, frontier) && frontier <= INVALID_OFFSET
      requires Enabled(ctx, frontier, s) && !s.Direct? && !s.ApplyReady?
      modifies this`ctx
      ensures Inv(ctx, frontier) && ctx == Next(old(ctx), frontier, s) && SameReads(old(ctx), ctx)
      ensures !Panics(old(ctx), s)
    {
      forall k ensures Read(Next(ctx, frontier, s).cell, k, INVALID_OFFSET) == Read(ctx.cell, k, INVALID_OFFSET) {
        OnlyWritesChangeReads(ctx, frontier, s, k);
      }
      StepInv(ctx, frontier, s);
      NeverPanics(ctx, frontier, s);
      ctx := Next(ctx, frontier, s);
    }

    /** Replaces the table; whoever shares the old one keeps it. */
    method SetData(t: Table)
      modifies this`data, this`arc
      ensures data == t && arc == None
    {
      data, arc := t, None;
    }

    /** Hands out the table without copying it. */
    method CloneShared() returns (id: nat, t: Table)
      modifies this`arc, this`nextArc
      ensures View() == Share(old(View())) && arc == Some(id) && t == data
      ensures old(arc).Some? ==> View() == old(View())
    {
      if arc.None? {
        arc, nextArc := Some(nextArc), nextArc + 1;
      }
      id, t := arc.value, data;
    }

    /** Anchors a fresh cell at the lower of frontier and write, lowers any other. */
    method MarkDirty(off: nat, front: nat)
      modifies this`state, this`lastProcessed
      ensures View() == CellSpec.MarkDirty(old(View()), off, front)
    {
      lastProcessed := if state.Empty? then Min(front, off) else Min(lastProcessed, off);
      match state {
        case Empty => state := DirtyLoaded;
        case Loaded => state := DirtyLoaded;
        case Unloaded => state := DirtyUnloaded;
        case DirtyLoaded =>
        case DirtyUnloaded =>
      }
    }

    /** Insert or remove: a direct write, or a committed batch operation being promoted. */
    method Record(p: At, del: bool, front: nat, ghost s: Step)
      requires Valid() && (s == Direct(p) || s == ApplyReady(p)) && Enabled(ctx, frontier, s)
      requires front == frontier && p in ctx.log && ctx.log[p] == del
      modifies this
      ensures Valid() && frontier == old(frontier) && ctx == Next(old(ctx), frontier, s)
      ensures ctx.applied == old(ctx.applied)[p := del] && ctx.ready == old(ctx.ready) - {p}
      ensures IsDirty(state) && (IsLoaded(state) <==> IsLoaded(old(state)))
    {
      StepInv(ctx, frontier, s);
      NeverPanics(ctx, frontier, s);
      ctx := Next(ctx, frontier, s);
      MarkDirty(p.off, front);
      SetData(data.(data := data.data[p := del]));
    }

    /** Applies one committed operation. */
    method RecordReady(p: At, del: bool, front: nat)
      requires Valid() && front == frontier && !ctx.section.Drained?
      requires p in ctx.ready && p in ctx.log && ctx.log[p] == del
      modifies this
      ensures Valid() && frontier == old(frontier) && !ctx.section.Drained? && ctx.log == old(ctx.log)
      ensures ctx.applied == old(ctx.applied)[p := del] && ctx.ready == old(ctx.ready) - {p}
    {
      Record(p, del, front, ApplyReady(p));
    }

    /** Applies every committed operation, in whatever order the pending table hands them out. */
    method PromotePending(committed: seq<(At, bool)>, front: nat)
      requires Valid() && front == frontier && !ctx.section.Drained? && Lists(committed, ctx)
      modifies this
      ensures Valid() && frontier == old(frontier) && ctx.ready == {} && ctx.log == old(ctx.log)
      ensures ctx.applied.Keys == old(ctx.applied).Keys + old(ctx.ready)
      ensures forall k :: Read(View(), k, INVALID_OFFSET) == AsOf(ctx.applied, k, INVALID_OFFSET)
    {
      for n := 0 to |committed|
        invariant Valid() && frontier == old(frontier) && ctx.log == old(ctx.log) && !ctx.section.Drained?
        invariant forall p :: p in ctx.ready <==> p in old(ctx.ready) && Later(committed, n, p)
        invariant forall p ::
          p in ctx.applied <==> p in old(ctx.applied) || (p in old(ctx.ready) && !Later(committed, n, p))
      {
        RecordReady(committed[n].0, committed[n].1, front);
      }
      ReadsApplied(ctx, frontier);
    }

    /** Loads L0 under the overlay, unless a flush in flight owns the snapshot of it. */
    method MaybeLoad()
      requires Valid() && ctx.section.Free?
      modifies this
      ensures Valid() && frontier == old(frontier) && ctx == Next(old(ctx), frontier, LoadL0)
      ensures SameReads(old(ctx), ctx)
      ensures IsDirty(state) <==> IsDirty(old(state))
      ensures if pendingLastProcessed.None? then IsLoaded(state) else View() == old(View())
    {
      Quietly(LoadL0);
      if state.Empty? || state.Loaded? || state.DirtyLoaded? || pendingLastProcessed.Some? {
        return;
      }
      var t := Table(map[], if levels.l0.Some? then levels.l0.value else map[]);
      var dirty := state.DirtyUnloaded?;
      if dirty {
        t := MergeDirty(t.flat, data);
      } else {
        assert MergeDirty(t.flat, data) == t;
      }
      SetData(t);
      state := if dirty then DirtyLoaded else Loaded;
    }

    /** The overlay, then the levels a loaded overlay does not already hold. */
    method Lookup(k: Key, b: nat) returns (r: Option<nat>)
      requires Valid()
      ensures r == Read(View(), k, b)
      ensures frontier <= b ==> r == AsOf(ctx.applied, k, b)
    {
      if frontier <= b {
        ReadsAsOf(ctx, frontier, k, b);
      }
      if state.Empty? {
        assert Latest(map[], k, b).None?;
        return None;
      }
      if !state.Unloaded? {
        var found := GetAt(data, k, b);
        if found.Some? {
          return IndexTable.View(found);
        }
      } else {
        assert GetAt(data, k, b).None?;
      }
      var e := if IsLoaded(state) then None else InLevel(levels.l0, k);
      if e.None? {
        e := InLevel(levels.below, k);
      }
      r := IndexTable.View(e);
    }

    /** `get` and `get_checkpoint`: committed operations are promoted first; the live read passes `INVALID_OFFSET`. */
    method Get(k: Key, b: nat, committed: seq<(At, bool)>, front: nat) returns (r: Option<nat>)
      requires Valid() && front == frontier <= b && !ctx.section.Drained? && Lists(committed, ctx)
      modifies this
      ensures Valid() && frontier == old(frontier) && Acknowledged(ctx) == Acknowledged(old(ctx))
      ensures r == AsOf(Acknowledged(old(ctx)), k, b)
    {
      assert Acknowledged(ctx).Keys == ctx.applied.Keys + ctx.ready;
      PromotePending(committed, front);
      assert Acknowledged(ctx).Keys == ctx.applied.Keys;
      SameBelow(ctx.applied, Acknowledged(ctx), k, b);
      r := Lookup(k, b);
    }

    /** The snapshot a flush of this cell works on; clean cells have none. */
    method FlushKind(front: nat) returns (job: Job)
      modifies this`arc, this`nextArc
      ensures !IsDirty(state) ==> View() == old(View()) && job == NoJob
      ensures IsDirty(state) ==>
        && View() == Share(old(View())) && arc.Some?
        && job == Flush(arc.value, data, state.DirtyLoaded?, levels, front, None)
    {
      if state.DirtyLoaded? || state.DirtyUnloaded? {
        var id, t := CloneShared();
        job := Flush(id, t, state.DirtyLoaded?, levels, front, None);
      } else {
        job := NoJob;
      }
    }

    /** Pass 1: a section that has drained the cell queues a flush if the cell lags behind. */
    method RequestFlushIfBehind(front: nat, threshold: nat) returns (job: Job)
      requires Valid() && ctx.section.Drained? && ctx.section.front == front
      modifies this
      ensures Valid() && frontier == old(frontier) && SameReads(old(ctx), ctx)
      ensures !job.NoJob? <==> old(pendingLastProcessed).None? && IsDirty(old(state)) && old(lastProcessed) <= threshold
      ensures if job.NoJob? then ctx == old(ctx)
              else Enabled(old(ctx), frontier, RequestFlush) && ctx == Next(old(ctx), frontier, RequestFlush)
                   && job == ctx.job && Answers(ctx, front)
    {
      if pendingLastProcessed.Some? || !IsDirty(state) || lastProcessed > threshold {
        return NoJob;
      }
      Quietly(RequestFlush);
      pendingLastProcessed := Some(front);
      job := FlushKind(front);
    }

    /**
     Pass 2: a dirty cell is flushed, a clean one rewritten; `flagged` says whether a blob of it sits in
     a sparse file.
    */
    method RequestForceRelocate(front: nat, flagged: bool) returns (job: Job)
      requires Valid() && ctx.section.Drained? && ctx.section.front == front && (flagged ==> NonEmpty(levels))
      modifies this
      ensures Valid() && frontier == old(frontier) && SameReads(old(ctx), ctx)
      ensures !job.NoJob? <==> old(pendingLastProcessed).None? && flagged
      ensures if job.NoJob? then ctx == old(ctx)
              else var s := if IsDirty(old(state)) then RequestFlush else RequestRelocate;
                   Enabled(old(ctx), frontier, s) && ctx == Next(old(ctx), frontier, s) && job == ctx.job
    {
      if pendingLastProcessed.Some? || !flagged {
        return NoJob;
      }
      Quietly(if IsDirty(state) then RequestFlush else RequestRelocate);
      pendingLastProcessed := Some(front);
      if IsDirty(state) {
        job := FlushKind(front);
      } else {
        job := Relocate(levels, front, None);
      }
    }

    method ClearAfterFlush(img: Image, f: nat)
      modifies this`state, this`data, this`arc, this`levels
      ensures View() == CellSpec.ClearAfterFlush(old(View()), img, f, unloadingDisabled)
    {
      levels := img;
      if IsLoaded(state) && unloadingDisabled {
        if HasUnprocessed(data, f) {
          state := DirtyLoaded;
        } else {
          if levels.below.None? {
            SetData(CleanSelf(data));
          }
          state := Loaded;
        }
        return;
      }
      SetData(RetainUnprocessed(data, f));
      state := if IsEmpty(data) then Unloaded else DirtyUnloaded;
    }

    /** Completion of a flush whose snapshot was `original`, shared as `id`. */
    method UpdateFlushedIndex(id: nat, original: Table, img: Image)
      requires Valid() && Enabled(ctx, frontier, CompleteFlush)
      requires ctx.job.arc == id && ctx.job.original == original && ctx.job.out.value.1 == img
      modifies this
      ensures Valid() && frontier == old(frontier) && ctx == Next(old(ctx), frontier, CompleteFlush)
      ensures SameReads(old(ctx), ctx)
      ensures levels == img && lastProcessed == old(ctx.job.at) && pendingLastProcessed.None?
      ensures if old(arc) == Some(id) then
                && (IsDirty(state) <==> Beyond(ctx, lastProcessed))
                && (IsLoaded(state) <==> IsLoaded(old(state)) && unloadingDisabled)
              else state.DirtyUnloaded?
    {
      if arc == Some(id) {
        FlushLeavesClean(ctx, frontier);
      }
      Quietly(CompleteFlush);
      var f := pendingLastProcessed.value;
      lastProcessed, pendingLastProcessed := f, None;
      if arc == Some(id) {
        ClearAfterFlush(img, f);
      } else {
        SetData(UnmergeFlushed(data, original, f));
        levels := img;
        state := DirtyUnloaded;
      }
    }

    /** Completion of a force-relocation. */
    method UpdateRelocatedPosition(img: Image)
      requires Valid() && Enabled(ctx, frontier, CompleteRelocate) && ctx.job.moved.value == img
      modifies this
      ensures Valid() && frontier == old(frontier) && ctx == Next(old(ctx), frontier, CompleteRelocate)
      ensures SameReads(old(ctx), ctx)
      ensures levels == img && lastProcessed == old(ctx.job.at) && pendingLastProcessed.None?
      ensures IsDirty(state) <==> Beyond(ctx, lastProcessed)
      ensures IsLoaded(state) <==> old(state).DirtyLoaded? && (img.sharded || old(levels).below.None?)
    {
      RelocationLeavesClean(ctx, frontier);
      Quietly(CompleteRelocate);
      var f := pendingLastProcessed.value;
      lastProcessed, pendingLastProcessed := f, None;
      var covers := img.sharded || levels.below.None?;
      levels := img;
      match state {
        case Loaded =>
          state := Unloaded;
          SetData(EMPTY_TABLE);
        case DirtyLoaded =>
          if covers {
            return;
          }
          SetData(RetainUnprocessed(data, f));
          state := if IsEmpty(data) then Unloaded else DirtyUnloaded;
        case Unloaded =>
        case DirtyUnloaded =>
      }
    }

    /** Request and execution of a flush, back to back. */
    ghost method RequestAndExecute(out: Image)
      requires Inv(ctx, frontier) && frontier <= INVALID_OFFSET && Enabled(ctx, frontier, RequestFlush)
      requires Flushed(ctx.cell.image, ctx.cell.table, ctx.cell.state.DirtyLoaded?, frontier, out)
      modifies this`ctx
      ensures Inv(ctx, frontier) && SameReads(old(ctx), ctx) && ctx.applied == old(ctx.applied)
      ensures ctx.cell == Share(old(ctx.cell)).(pending := Some(old(ctx.section).front))
      ensures ctx.section.Free? && ctx.keepLoaded == old(ctx.keepLoaded)
      ensures ctx.job.Flush? && Some(ctx.job.arc) == ctx.cell.arc && ctx.job.original == ctx.cell.table
      ensures ctx.job.at == old(ctx.section).front && ctx.job.out == Some((frontier, out))
    {
      Quietly(RequestFlush);
      Quietly(ExecuteFlush(out));
    }

    /** Request, execution and completion of a flush, back to back. */
    ghost method SyncSteps(out: Image)
      requires Inv(ctx, frontier) && frontier <= INVALID_OFFSET && Enabled(ctx, frontier, RequestFlush)
      requires Flushed(ctx.cell.image, ctx.cell.table, ctx.cell.state.DirtyLoaded?, frontier, out)
      modifies this`ctx
      ensures Inv(ctx, frontier) && SameReads(old(ctx), ctx) && ctx.applied == old(ctx.applied) && ctx.job.NoJob?
      ensures ctx.keepLoaded == old(ctx.keepLoaded)
      ensures var c := Share(old(ctx.cell)).(pending := Some(old(ctx.section).front));
              ctx.cell == UpdateFlushed(c, c.arc.value, c.table, out, ctx.keepLoaded)
      ensures IsDirty(ctx.cell.state) <==> Beyond(ctx, old(ctx.section).front)
    {
      RequestAndExecute(out);
      FlushLeavesClean(ctx, frontier);
      Quietly(CompleteFlush);
    }

    /** A flush inside one lock section, its blob `out` written before the lock is released. */
    method SyncFlush(front: nat, out: Image) returns (flushed: bool)
      requires Valid() && ctx.section.Drained? && ctx.section.front == front
      requires pendingLastProcessed.None? && !unloadingDisabled
      requires IsDirty(state) ==> Flushed(levels, data, state.DirtyLoaded?, frontier, out)
      modifies this
      ensures Valid() && frontier == old(frontier) && SameReads(old(ctx), ctx) && ctx.applied == old(ctx.applied)
      ensures flushed == IsDirty(old(state)) && (!flushed ==> ctx == old(ctx))
      ensures flushed ==> ctx.job.NoJob? && levels == out && lastProcessed == front && !IsLoaded(state)
      ensures flushed ==> (IsDirty(state) <==> Beyond(ctx, front))
    {
      flushed := IsDirty(state);
      if flushed {
        SyncSteps(out);
        var job := FlushKind(front);
        lastProcessed := front;
        ClearAfterFlush(out, front);
      }
    }

    /** A dropped cell starts over, with the writes still on their way as its only history. */
    method Clear()
      requires Valid() && pendingLastProcessed.None?
      modifies this
      ensures Valid() && frontier == old(frontier) && ctx.applied == map[] && ctx.ready == old(ctx.ready)
      ensures ctx.log == map p | p in old(ctx.log) && p !in old(ctx.applied) :: old(ctx.log)[p]
      ensures forall k :: Read(View(), k, INVALID_OFFSET) == None
    {
      ClearedInv(ctx, frontier);
      ctx := Cleared(ctx);
      state, levels, lastProcessed := Empty, NO_LEVELS, 0;
      SetData(EMPTY_TABLE);
      forall k ensures Read(View(), k, INVALID_OFFSET) == None {
        ReadsAsOf(ctx, frontier, k, INVALID_OFFSET);
        assert Latest(map[], k, INVALID_OFFSET).None?;
      }
    }
  }
}
