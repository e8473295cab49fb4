/**
 Which control-region stores are sound.  A store asserts that the frontier it records is not
 below the one already stored; rebuilds that overlap in pass 1 can make that assertion fire.
*/
module Stores {
  import opened Bytes
  import opened IndexTable
  import opened CellSpec
  import opened Protocol
  import opened CellInvariant
  import opened Recovery
  import opened Database
  import opened DatabaseInvariant

  // ---- what holds of every run ----

  /** A flush requested below the cell's own frontier leaves something to flush behind. */
  predicate Unspent(x: Ctx) {
    && (IsDirty(x.cell.state) && !NonEmpty(x.cell.image) ==> x.applied != map[])
    && (x.job.Flush? && x.job.at < x.cell.lastProcessed ==> Beyond(x, x.job.at))
  }

  /** A clean cell is not behind `r`, and a flush landing behind `r` leaves the cell dirty. */
  predicate Pinned(x: Ctx, r: nat) {
    && (IsClean(x.cell.state) ==> r <= x.cell.lastProcessed)
    && (x.job.Flush? && x.job.at < r ==> Beyond(x, x.job.at))
    && (x.job.Relocate? ==> r <= x.job.at)
  }

  /** Barriers wait for jobs that are pending. */
  predicate WaitsOk(d: Db, w: set<nat>) {
    forall i | i in w :: i < |d.cells| && !d.cells[i].job.NoJob?
  }

  predicate BarriersOk(d: Db) {
    && (forall r | r in d.passes && d.passes[r].Waiting? :: WaitsOk(d, d.passes[r].waits))
    && (d.phase.Settling? ==> WaitsOk(d, d.phase.waits))
  }

  predicate PinnedAt(d: Db, i: nat)
    requires i < |d.cells|
  {
    PinnedCell(d.cells[i], d.stored.from, d.phase, i)
  }

  /** What a cell owes the stored frontier and, once recorded, the one about to be stored. */
  predicate PinnedCell(x: Ctx, r: nat, ph: Phase, i: nat) {
    Unspent(x) && Pinned(x, r) && (Records(ph) && i in ph.recs ==> Pinned(x, ph.from))
  }

  ghost predicate StoreInv(d: Db) {
    DbInv(d) && BarriersOk(d) && forall i: nat | i < |d.cells| :: PinnedAt(d, i)
  }

  lemma UnspentStep(x: Ctx, f: nat, s: Step)
    requires Inv(x, f) && Enabled(x, f, s) && SectionAnchored(x) && Unspent(x)
    ensures Unspent(Next(x, f, s))
  {
  }

  /** A flush that leaves a write at or above its frontier behind leaves the cell dirty. */
  lemma CompleteStaysDirty(x: Ctx, f: nat)
    requires Inv(x, f) && Enabled(x, f, CompleteFlush) && Beyond(x, x.job.at)
    ensures IsDirty(Next(x, f, CompleteFlush).cell.state)
  {
    var p :| p in x.applied && x.job.at <= p.off;
    assert p in x.cell.table.data;
    assert p in RetainUnprocessed(x.cell.table, x.job.at).data;
  }

  lemma PinnedStep(x: Ctx, f: nat, s: Step, r: nat)
    requires Inv(x, f) && Enabled(x, f, s) && Quiet(x, r) && Pinned(x, r)
    ensures Pinned(Next(x, f, s), r)
  {
    if s.CompleteFlush? && x.job.at < r {
      CompleteStaysDirty(x, f);
    }
  }

  lemma PinnedCellStep(x: Ctx, f: nat, s: Step, r: nat, ph: Phase, i: nat)
    requires Inv(x, f) && Enabled(x, f, s) && SectionAnchored(x) && Quiet(x, r) && PinnedCell(x, r, ph, i)
    requires Records(ph) && i in ph.recs ==> Quiet(x, ph.from)
    ensures PinnedCell(Next(x, f, s), r, ph, i)
  {
    UnspentStep(x, f, s);
    PinnedStep(x, f, s, r);
    if Records(ph) && i in ph.recs {
      PinnedStep(x, f, s, ph.from);
    }
  }

  lemma FreshStoreOk(keep: seq<bool>)
    ensures StoreInv(Fresh(keep))
  {
    FreshOk(keep);
  }

  lemma SteppedPinned(d: Db, i: nat, s: Step)
    requires i < |d.cells| && CellOk(d, i) && PinnedAt(d, i) && Enabled(d.cells[i], d.frontier, s)
    ensures PinnedAt(Stepped(d, i, s), i)
  {
    PinnedCellStep(d.cells[i], d.frontier, s, d.stored.from, d.phase, i);
  }

  /** A step ends its own cell's job only by completing it. */
  lemma JobKept(x: Ctx, f: nat, s: Step)
    requires Enabled(x, f, s) && !Completes(s) && !x.job.NoJob?
    ensures !Next(x, f, s).job.NoJob?
  {
  }

  lemma SteppedWaits(d: Db, i: nat, s: Step, w: set<nat>)
    requires WaitsOk(d, w) && i < |d.cells| && Enabled(d.cells[i], d.frontier, s)
    ensures WaitsOk(Stepped(d, i, s), Served(w, i, s))
  {
    if i in w && !Completes(s) {
      JobKept(d.cells[i], d.frontier, s);
    }
  }

  lemma SteppedBarriers(d: Db, i: nat, s: Step)
    requires BarriersOk(d) && i < |d.cells| && Enabled(d.cells[i], d.frontier, s)
    ensures BarriersOk(Stepped(d, i, s))
  {
    var d' := Stepped(d, i, s);
    forall r | r in d'.passes && d'.passes[r].Waiting? ensures WaitsOk(d', d'.passes[r].waits) {
      SteppedWaits(d, i, s, d.passes[r].waits);
    }
    if d.phase.Settling? {
      SteppedWaits(d, i, s, d.phase.waits);
    }
  }

  lemma SteppedStoreOk(d: Db, i: nat, s: Step)
    requires StoreInv(d) && i < |d.cells| && Enabled(d.cells[i], d.frontier, s) && !s.Append? && !s.Visit?
    requires s.RequestRelocate? ==> d.phase == Relocating(true)
    ensures StoreInv(Stepped(d, i, s))
  {
    SteppedOk(d, i, s);
    SteppedBarriers(d, i, s);
    assert CellOk(d, i) && PinnedAt(d, i);
    SteppedPinned(d, i, s);
    var d' := Stepped(d, i, s);
    forall j: nat | j < |d'.cells| ensures PinnedAt(d', j) {
      assert PinnedAt(d, j);
    }
  }

  lemma VisitPinned(d: Db, i: nat)
    requires i < |d.cells| && CellOk(d, i) && PinnedAt(d, i) && Can(d, VisitCell(i))
    ensures PinnedAt(After(d, VisitCell(i)), i)
  {
    UnspentStep(d.cells[i], d.frontier, Visit);
    PinnedStep(d.cells[i], d.frontier, Visit, d.stored.from);
  }

  lemma VisitPinnedOther(d: Db, i: nat, j: nat)
    requires Can(d, VisitCell(i)) && j < |d.cells| && j != i && PinnedAt(d, j)
    ensures j < |After(d, VisitCell(i)).cells| && PinnedAt(After(d, VisitCell(i)), j)
  {
  }

  lemma VisitStoreOk(d: Db, i: nat)
    requires StoreInv(d) && Can(d, VisitCell(i))
    ensures StoreInv(After(d, VisitCell(i)))
  {
    VisitOk(d, i);
    assert CellOk(d, i) && PinnedAt(d, i);
    VisitPinned(d, i);
    var d' := After(d, VisitCell(i));
    forall j: nat | j < |d'.cells| ensures PinnedAt(d', j) {
      assert PinnedAt(d, j);
      if j != i {
        VisitPinnedOther(d, i, j);
      }
    }
    SteppedBarriers(d, i, Visit);
  }

  lemma CrashStoreOk(d: Db, cut: nat)
    requires StoreInv(d) && Can(d, Crash(cut))
    ensures StoreInv(After(d, Crash(cut)))
  {
    CrashOk(d, cut);
    var d' := After(d, Crash(cut));
    forall j: nat | j < |d'.cells| ensures PinnedAt(d', j) {
      assert CellOk(d, j);
      assert d'.cells[j] == Restarted(d.cells[j], RecAt(d.stored, j), d.stored.from, cut);
    }
  }

  /** Events that leave every cell's table, levels and job alone. */
  lemma OtherStoreOk(d: Db, e: Event)
    requires StoreInv(d) && Can(d, e)
    requires !e.On? && !e.PassFlush? && !e.PassRelocate? && !e.VisitCell? && !e.Crash?
    ensures StoreInv(After(d, e))
  {
    EventOk(d, e);
    var d' := After(d, e);
    forall j: nat | j < |d'.cells| ensures PinnedAt(d', j) {
      assert PinnedAt(d, j);
    }
    assert BarriersOk(d');
  }

  lemma StoreEventOk(d: Db, e: Event)
    requires StoreInv(d) && Can(d, e)
    ensures StoreInv(After(d, e))
  {
    if e.On? {
      SteppedStoreOk(d, e.i, e.step);
    } else if e.PassFlush? {
      SteppedStoreOk(d, e.i, RequestFlush);
    } else if e.PassRelocate? {
      SteppedStoreOk(d, e.i, RequestRelocate);
    } else if e.VisitCell? {
      VisitStoreOk(d, e.i);
    } else if e.Crash? {
      CrashStoreOk(d, e.cut);
    } else {
      OtherStoreOk(d, e);
    }
  }

  // ---- when the next store is sound ----

  /** The next walk can reach cell `i` ahead of the cell's pending job. */
  predicate Exposed(d: Db, i: nat)
    requires i < |d.cells|
  {
    match d.phase
    case Idle => d.cells[i].job.NoJob? || Overtaken(d.passes, i)
    case Relocating(busy) => !busy || d.cells[i].job.NoJob?
    case Settling(w) => i !in w
    case Walking(_, _, _) => true
    case Synced(_, _, _) => false
  }

  /** Some rebuild has called its first barrier without finding a job of cell `i` to wait for. */
  predicate Overtaken(ps: map<nat, Pass>, i: nat) {
    exists r | r in ps :: ps[r].Waiting? && i !in ps[r].waits
  }

  /** The next store still has to record cell `i`. */
  predicate Ahead(ph: Phase, i: nat) {
    !Records(ph) || (ph.Walking? && i !in ph.recs)
  }

  /** Neither what the next walk may find of the cell nor what its pending job leaves is below `r`. */
  predicate Level(x: Ctx, r: nat, exposed: bool) {
    !x.cell.state.Empty? ==> (!x.job.NoJob? ==> r <= x.job.at) && (exposed ==> r <= x.cell.lastProcessed)
  }

  predicate LevelAt(d: Db, i: nat)
    requires i < |d.cells|
  {
    Ahead(d.phase, i) ==> Level(d.cells[i], d.stored.from, Exposed(d, i))
  }

  /** The next store records a frontier at or above the stored one, however the run goes on until then. */
  predicate NextStoreHolds(d: Db) {
    !Regresses(d) && forall i: nat | i < |d.cells| :: LevelAt(d, i)
  }

  lemma LevelStep(x: Ctx, f: nat, s: Step, r: nat, exposed: bool, later: bool)
    requires Inv(x, f) && Enabled(x, f, s) && Quiet(x, r) && r <= f && Level(x, r, exposed)
    requires x.job.NoJob? ==> exposed
    requires later ==> exposed || Completes(s)
    ensures Level(Next(x, f, s), r, later)
  {
  }

  /** A job's end is all that exposes a cell. */
  lemma ExposedAfter(d: Db, i: nat, s: Step, j: nat)
    requires i < |d.cells| && j < |d.cells| && Enabled(d.cells[i], d.frontier, s)
    ensures Exposed(Stepped(d, i, s), j) ==> Exposed(d, j) || (i == j && Completes(s))
  {
    var d' := Stepped(d, i, s);
    if d.phase.Idle? && Overtaken(d'.passes, j) {
      var r :| r in d'.passes && d'.passes[r].Waiting? && j !in d'.passes[r].waits;
      assert r in d.passes && d.passes[r].Waiting?;
    }
    if j == i && !Completes(s) && !d.cells[i].job.NoJob? {
      JobKept(d.cells[i], d.frontier, s);
    }
  }

  lemma IdleExposed(d: Db, i: nat)
    requires i < |d.cells| && BarriersOk(d) && d.cells[i].job.NoJob? && Ahead(d.phase, i)
    ensures Exposed(d, i)
  {
  }

  lemma SteppedLevel(d: Db, i: nat, s: Step)
    requires StoreInv(d) && i < |d.cells| && Enabled(d.cells[i], d.frontier, s)
    requires NextStoreHolds(d)
    ensures NextStoreHolds(Stepped(d, i, s))
  {
    var d' := Stepped(d, i, s);
    assert CellOk(d, i);
    forall j: nat | j < |d'.cells| ensures LevelAt(d', j) {
      assert LevelAt(d, j);
      ExposedAfter(d, i, s, j);
      if j == i && Ahead(d.phase, i) {
        if d.cells[i].job.NoJob? {
          IdleExposed(d, i);
        }
        LevelStep(d.cells[i], d.frontier, s, d.stored.from, Exposed(d, i), Exposed(d', i));
      }
    }
  }

  lemma VisitLevel(d: Db, i: nat)
    requires StoreInv(d) && Can(d, VisitCell(i)) && NextStoreHolds(d)
    ensures NextStoreHolds(After(d, VisitCell(i)))
  {
    var d' := After(d, VisitCell(i));
    assert CellOk(d, i) && LevelAt(d, i);
    forall j: nat | j < |d'.cells| ensures LevelAt(d', j) {
      assert LevelAt(d, j);
    }
  }

  lemma CrashLevel(d: Db, cut: nat)
    requires StoreInv(d) && Can(d, Crash(cut))
    ensures NextStoreHolds(After(d, Crash(cut)))
  {
    var d' := After(d, Crash(cut));
    forall j: nat | j < |d'.cells| ensures LevelAt(d', j) {
      assert CellOk(d, j);
      assert d'.cells[j] == Restarted(d.cells[j], RecAt(d.stored, j), d.stored.from, cut);
    }
  }

  /** A rebuild that takes the lock, or starts its walk, finds every cell exposed already. */
  lemma RebuildLevel(d: Db, e: Event)
    requires StoreInv(d) && Can(d, e) && NextStoreHolds(d)
    requires e.Begin? || e.CallBarrier? || e.Lock? || e.CallSettle? || e.StartWalk? || e.Sync?
    ensures NextStoreHolds(After(d, e))
  {
    var d' := After(d, e);
    forall j: nat | j < |d'.cells| ensures LevelAt(d', j) {
      assert LevelAt(d, j);
      if (e.Begin? || e.CallBarrier?) && d.phase.Idle? && Overtaken(d'.passes, j) && !d.cells[j].job.NoJob? {
        var r :| r in d'.passes && d'.passes[r].Waiting? && j !in d'.passes[r].waits;
        assert j in Pending(d.cells);
        assert r in d.passes && d.passes[r] == d'.passes[r];
      }
    }
  }

  lemma WalLevel(d: Db, e: Event)
    requires Can(d, e) && NextStoreHolds(d)
    requires e.Write? || e.Seal? || e.Advance? || e.Take? || e.Grant? || e.Release?
    ensures NextStoreHolds(After(d, e))
  {
    var d' := After(d, e);
    forall j: nat | j < |d'.cells| ensures LevelAt(d', j) {
      assert LevelAt(d, j);
    }
  }

  /** Only a store can unsettle the next one. */
  lemma LevelKept(d: Db, e: Event)
    requires StoreInv(d) && Can(d, e) && !e.Store? && NextStoreHolds(d)
    ensures NextStoreHolds(After(d, e))
  {
    if e.On? {
      SteppedLevel(d, e.i, e.step);
    } else if e.PassFlush? {
      SteppedLevel(d, e.i, RequestFlush);
    } else if e.PassRelocate? {
      SteppedLevel(d, e.i, RequestRelocate);
    } else if e.VisitCell? {
      VisitLevel(d, e.i);
    } else if e.Crash? {
      CrashLevel(d, e.cut);
    } else if e.Begin? || e.CallBarrier? || e.Lock? || e.CallSettle? || e.StartWalk? || e.Sync? {
      RebuildLevel(d, e);
    } else {
      WalLevel(d, e);
    }
  }

  /**
   The condition a store can check of itself: what it records goes back neither behind the
   stored frontier, nor ahead of what a cell's pending job will leave, nor ahead of what a
   rebuild past its first barrier may still find of a cell.
  */
  predicate Settled(d: Db) {
    && Records(d.phase) && !Regresses(d)
    && forall i: nat | i < |d.cells| ::
         Level(d.cells[i], d.phase.from, d.cells[i].job.NoJob? || Overtaken(d.passes, i))
  }

  lemma SettledHolds(d: Db)
    requires Can(d, Store) && !Regresses(d)
    ensures NextStoreHolds(After(d, Store)) <==> Settled(d)
  {
    var d' := After(d, Store);
    if NextStoreHolds(d') {
      forall i: nat | i < |d.cells|
        ensures Level(d.cells[i], d.phase.from, d.cells[i].job.NoJob? || Overtaken(d.passes, i))
      {
        assert LevelAt(d', i);
      }
    }
  }

  /** Every store of the run is settled. */
  ghost predicate SettledStores(d: Db, es: seq<Event>)
    decreases |es|
  {
    es == [] || (Can(d, es[0]) && (es[0].Store? ==> Settled(d)) && SettledStores(After(d, es[0]), es[1..]))
  }

  // ---- runs whose stores are settled ----

  /** Nothing any cell may still do goes back below what is stored, or below what the walk has recorded. */
  predicate FloorsOk(d: Db) {
    !Regresses(d) && forall i: nat | i < |d.cells| :: FloorsAt(d.cells[i], d.stored.from, d.phase, i)
  }

  predicate FloorsAt(x: Ctx, r: nat, ph: Phase, i: nat) {
    Floor(x, r) && (Records(ph) && i in ph.recs ==> Floor(x, ph.from))
  }

  /** A walk records no cell ahead of the cell's pending job. */
  ghost predicate AnchoredVisits(d: Db, es: seq<Event>)
    decreases |es|
  {
    es == [] ||
    (&& Can(d, es[0]) && (es[0].VisitCell? ==> Anchored(d.cells[es[0].i]))
     && AnchoredVisits(After(d, es[0]), es[1..]))
  }

  lemma SteppedFloor(x: Ctx, f: nat, s: Step, r: nat, ph: Phase, i: nat)
    requires Inv(x, f) && Enabled(x, f, s) && FloorsAt(x, r, ph, i) && r <= f && (Records(ph) ==> ph.from <= f)
    ensures FloorsAt(Next(x, f, s), r, PhaseAfter(ph, i, s), i)
  {
    FloorStep(x, f, s, r);
    if Records(ph) && i in ph.recs {
      FloorStep(x, f, s, ph.from);
    }
  }

  lemma SteppedFloors(d: Db, i: nat, s: Step)
    requires DbInv(d) && FloorsOk(d) && i < |d.cells| && Enabled(d.cells[i], d.frontier, s)
    ensures FloorsOk(Stepped(d, i, s))
  {
    var d' := Stepped(d, i, s);
    assert CellOk(d, i);
    SteppedFloor(d.cells[i], d.frontier, s, d.stored.from, d.phase, i);
    forall j: nat | j < |d'.cells| ensures FloorsAt(d'.cells[j], d.stored.from, d'.phase, j) {
      assert FloorsAt(d.cells[j], d.stored.from, d.phase, j);
    }
  }

  /** The running minimum after a visit is a floor for the cell visited. */
  lemma VisitFloor(x: Ctx, f: nat, r: nat, start: nat, from: nat)
    requires Enabled(x, f, Visit) && LogsOk(x, f) && SectionOk(x, f) && Floor(x, r)
    requires from <= start <= x.section.front && r <= from && Anchored(x) && !x.job.Relocate?
    requires x.job.Flush? ==> IsDirty(x.cell.state)
    ensures var y := Next(x, f, Visit);
            var m := if y.cell.state.Empty? then from else Min(from, y.cell.lastProcessed);
            Floor(y, r) && Floor(y, m) && r <= m
  {
  }

  lemma VisitFloors(d: Db, i: nat)
    requires DbInv(d) && FloorsOk(d) && Can(d, VisitCell(i)) && Anchored(d.cells[i])
    ensures FloorsOk(After(d, VisitCell(i)))
  {
    var d' := After(d, VisitCell(i));
    assert CellOk(d, i) && FloorsAt(d.cells[i], d.stored.from, d.phase, i);
    VisitFloor(d.cells[i], d.frontier, d.stored.from, d.phase.start, d.phase.from);
    forall j: nat | j < |d'.cells| ensures FloorsAt(d'.cells[j], d.stored.from, d'.phase, j) {
      assert FloorsAt(d.cells[j], d.stored.from, d.phase, j);
    }
  }

  lemma CrashFloors(d: Db, cut: nat)
    requires DbInv(d) && Can(d, Crash(cut))
    ensures FloorsOk(After(d, Crash(cut)))
  {
    forall j: nat | j < |d.cells| ensures Floor(After(d, Crash(cut)).cells[j], d.stored.from) {
      assert CellOk(d, j);
      RestartInv(d.cells[j], RecAt(d.stored, j), d.stored.from, d.stored.upto, cut);
    }
  }

  lemma OtherFloors(d: Db, e: Event)
    requires DbInv(d) && FloorsOk(d) && Can(d, e)
    requires !e.On? && !e.PassFlush? && !e.PassRelocate? && !e.VisitCell? && !e.Crash?
    ensures FloorsOk(After(d, e))
  {
    var d' := After(d, e);
    forall j: nat | j < |d'.cells| ensures FloorsAt(d'.cells[j], d'.stored.from, d'.phase, j) {
      assert FloorsAt(d.cells[j], d.stored.from, d.phase, j);
    }
  }

  lemma FloorsKept(d: Db, e: Event)
    requires DbInv(d) && FloorsOk(d) && Can(d, e) && (e.VisitCell? ==> Anchored(d.cells[e.i]))
    ensures FloorsOk(After(d, e))
  {
    if e.On? {
      SteppedFloors(d, e.i, e.step);
    } else if e.PassFlush? {
      SteppedFloors(d, e.i, RequestFlush);
    } else if e.PassRelocate? {
      SteppedFloors(d, e.i, RequestRelocate);
    } else if e.VisitCell? {
      VisitFloors(d, e.i);
    } else if e.Crash? {
      CrashFloors(d, e.cut);
    } else {
      OtherFloors(d, e);
    }
  }

  lemma {:induction false} AnchoredVisitsSettle(d: Db, es: seq<Event>, d': Db)
    requires DbInv(d) && FloorsOk(d) && Run(d, es, d') && AnchoredVisits(d, es)
    ensures SettledStores(d, es) && FloorsOk(d')
    decreases |es|
  {
    if es != [] {
      EventOk(d, es[0]);
      FloorsKept(d, es[0]);
      AnchoredVisitsSettle(After(d, es[0]), es[1..], d');
    }
  }

  /** Every pass-1 flush is requested at or above the cell's own frontier. */
  ghost predicate AnchoredRequests(d: Db, es: seq<Event>)
    decreases |es|
  {
    es == [] ||
    (&& Can(d, es[0])
     && (es[0].PassFlush? ==> d.cells[es[0].i].cell.lastProcessed <= d.cells[es[0].i].section.front)
     && AnchoredRequests(After(d, es[0]), es[1..]))
  }

  predicate AllAnchored(d: Db) {
    forall i: nat | i < |d.cells| :: Anchored(d.cells[i])
  }

  lemma RequestAnchored(x: Ctx, f: nat)
    requires Enabled(x, f, RequestFlush) && x.cell.lastProcessed <= x.section.front
    ensures Anchored(Next(x, f, RequestFlush))
  {
  }

  lemma AnchoredTaken(d: Db, i: nat, s: Step)
    requires i < |d.cells| && CellOk(d, i) && AllAnchored(d) && Enabled(d.cells[i], d.frontier, s)
    requires s.RequestFlush? ==> !d.cells[i].section.wasEmpty
    requires s.Visit? ==> !d.cells[i].job.Relocate?
    ensures Anchored(Next(d.cells[i], d.frontier, s))
  {
    AnchoredStep(d.cells[i], d.frontier, s);
  }

  lemma AnchoredKept(d: Db, e: Event)
    requires DbInv(d) && AllAnchored(d) && Can(d, e)
    requires e.PassFlush? ==> d.cells[e.i].cell.lastProcessed <= d.cells[e.i].section.front
    ensures AllAnchored(After(d, e))
  {
    if e.On? || e.PassRelocate? || e.VisitCell? {
      assert CellOk(d, e.i);
      AnchoredTaken(d, e.i, if e.On? then e.step else if e.VisitCell? then Visit else RequestRelocate);
    } else if e.PassFlush? {
      RequestAnchored(d.cells[e.i], d.frontier);
    }
  }

  lemma {:induction false} AnchoredRequestsVisits(d: Db, es: seq<Event>, d': Db)
    requires DbInv(d) && AllAnchored(d) && Run(d, es, d') && AnchoredRequests(d, es)
    ensures AnchoredVisits(d, es)
    decreases |es|
  {
    if es != [] {
      EventOk(d, es[0]);
      AnchoredKept(d, es[0]);
      AnchoredRequestsVisits(After(d, es[0]), es[1..], d');
    }
  }

  /**
   However rebuilds overlap, stores never go back while every pass-1 flush is requested at or above its
   cell's frontier.
  */
  lemma AnchoredRequestsNeverRegress(keep: seq<bool>, es: seq<Event>, d: Db)
    requires Run(Fresh(keep), es, d) && AnchoredRequests(Fresh(keep), es)
    ensures SettledStores(Fresh(keep), es) && !Regresses(d)
  {
    FreshOk(keep);
    AnchoredRequestsVisits(Fresh(keep), es, d);
    AnchoredVisitsSettle(Fresh(keep), es, d);
  }

  /** No rebuild begins while another is under way. */
  ghost predicate Serial(d: Db, es: seq<Event>)
    decreases |es|
  {
    es == [] ||
    (&& Can(d, es[0]) && (es[0].Begin? ==> d.passes == map[] && d.phase.Idle?)
     && Serial(After(d, es[0]), es[1..]))
  }

  /** A job below its cell's frontier is one the only rebuild has yet to wait for. */
  predicate SerialInv(d: Db) {
    && (d.phase.Idle? || d.passes == map[])
    && (forall r, q | r in d.passes && q in d.passes :: r == q)
    && forall i: nat | i < |d.cells| :: Anchored(d.cells[i]) || (d.phase.Idle? && Awaited(d.passes, i))
  }

  predicate Awaited(ps: map<nat, Pass>, i: nat) {
    ps != map[] && forall r | r in ps :: ps[r].Queueing? || i in ps[r].waits
  }

  predicate AllQueueing(d: Db) {
    d.phase.Idle? && d.passes != map[] && forall r | r in d.passes :: d.passes[r].Queueing?
  }

  lemma SteppedSerial(d: Db, i: nat, s: Step)
    requires DbInv(d) && SerialInv(d) && i < |d.cells| && Enabled(d.cells[i], d.frontier, s) && !s.Visit?
    requires s.RequestFlush? ==> AllQueueing(d) || !d.cells[i].section.wasEmpty
    ensures SerialInv(Stepped(d, i, s))
  {
    var d' := Stepped(d, i, s);
    assert CellOk(d, i);
    if Anchored(d.cells[i]) && (s.RequestFlush? ==> !d.cells[i].section.wasEmpty) {
      AnchoredStep(d.cells[i], d.frontier, s);
    }
    forall j: nat | j < |d'.cells| ensures Anchored(d'.cells[j]) || (d'.phase.Idle? && Awaited(d'.passes, j)) {
      if !Anchored(d.cells[j]) && (j != i || !Completes(s)) {
        AwaitedAfter(d.passes, i, s, j);
      }
    }
  }

  lemma AwaitedAfter(ps: map<nat, Pass>, i: nat, s: Step, j: nat)
    requires Awaited(ps, j) && (i == j ==> !Completes(s))
    ensures Awaited(PassesAfter(ps, i, s), j)
  {
    var r :| r in ps;
    assert r in PassesAfter(ps, i, s);
  }

  lemma SerialKept(d: Db, e: Event)
    requires DbInv(d) && SerialInv(d) && Can(d, e) && (e.Begin? ==> d.passes == map[] && d.phase.Idle?)
    ensures SerialInv(After(d, e))
  {
    match e
    case On(i, s) => SteppedSerial(d, i, s);
    case PassFlush(r, i) => SteppedSerial(d, i, RequestFlush);
    case PassRelocate(i) => SteppedSerial(d, i, RequestRelocate);
    case VisitCell(i) =>
      assert CellOk(d, i);
      AnchoredStep(d.cells[i], d.frontier, Visit);
    case CallBarrier(r) =>
      forall i: nat | i < |d.cells| && !Anchored(d.cells[i]) ensures Awaited(After(d, e).passes, i) {
        assert i in Pending(d.cells) && r in After(d, e).passes;
      }
    case _ =>
  }

  lemma {:induction false} SerialVisits(d: Db, es: seq<Event>, d': Db)
    requires DbInv(d) && SerialInv(d) && Run(d, es, d') && Serial(d, es)
    ensures AnchoredVisits(d, es)
    decreases |es|
  {
    if es != [] {
      EventOk(d, es[0]);
      SerialKept(d, es[0]);
      SerialVisits(After(d, es[0]), es[1..], d');
    }
  }

  /** Rebuilds that do not overlap never go back, whatever their pass-1 flushes are requested at. */
  lemma SerialNeverRegresses(keep: seq<bool>, es: seq<Event>, d: Db)
    requires Run(Fresh(keep), es, d) && Serial(Fresh(keep), es)
    ensures SettledStores(Fresh(keep), es) && !Regresses(d)
  {
    FreshOk(keep);
    SerialVisits(Fresh(keep), es, d);
    AnchoredVisitsSettle(Fresh(keep), es, d);
  }
}
