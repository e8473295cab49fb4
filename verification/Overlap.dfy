/**
 Two rebuilds that overlap in pass 1.  One requests a flush of a cell's first write at a
 frontier below that write; the other, already past its barrier, records the cell ahead of the
 flush; the flush lands, and the next store goes back.
*/
module Overlap {
  import opened Bytes
  import opened IndexTable
  import opened CellSpec
  import opened Protocol
  import opened CellInvariant
  import opened Recovery
  import opened Database
  import opened DatabaseInvariant
  import opened Stores
  import opened Regression

  // ---- bringing a cell up to the frontier ----

  /** The cell has nothing left to drain and, if dirty, is at or above `m`. */
  predicate Raised(x: Ctx, m: nat) {
    x.ready == {} && (IsDirty(x.cell.state) ==> m <= x.cell.lastProcessed)
  }

  /** Cell `j` moves on; cell `i` and a rebuild at its barrier do not notice. */
  predicate Beside(d: Db, d': Db, j: nat) {
    && SameWal(d, d') && d'.phase == d.phase && j < |d.cells|
    && (forall i: nat | i < |d.cells| && i != j :: d'.cells[i] == d.cells[i])
    && (forall r | r in d.passes && Ready(d.passes, r) :: Ready(d'.passes, r))
  }

  lemma DrainCell(d: Db, j: nat) returns (d': Db)
    requires Reachable(d) && d.phase.Idle? && j < |d.cells|
    ensures Reachable(d') && Leads(d, d') && Beside(d, d', j)
    ensures d'.cells[j].ready == {} && d'.cells[j].section.Free?
  {
    var a := FreeCell(d, j);
    var b := OpenDrained(a, j);
    OnlyOn(d, a, b, j);
    d' := FreeCell(b, j);
    OnlyOn(d, b, d', j);
  }

  lemma FinishIfPending(d: Db, j: nat) returns (d': Db)
    requires Reachable(d) && d.phase.Idle? && j < |d.cells| && d.cells[j].ready == {} && d.cells[j].section.Free?
    ensures Reachable(d') && Leads(d, d') && Beside(d, d', j)
    ensures d'.cells[j].ready == {} && d'.cells[j].section.Free? && d'.cells[j].job.NoJob?
  {
    if d.cells[j].job.NoJob? {
      d' := d;
      LeadsSelf(d);
    } else {
      d' := FinishJob(d, j);
    }
  }

  lemma RequestFacts(x: Ctx, f: nat)
    requires Enabled(x, f, RequestFlush)
    ensures var y := Next(x, f, RequestFlush); y.ready == x.ready && !y.job.NoJob? && y.job.at == x.section.front
  {
  }

  lemma RequestNow(d: Db, j: nat) returns (d': Db)
    requires Reachable(d) && j < |d.cells| && d.cells[j].ready == {} && d.cells[j].section.Free?
    requires d.cells[j].job.NoJob? && IsDirty(d.cells[j].cell.state)
    ensures Reachable(d') && Leads(d, d') && Only(d, d', j)
    ensures d'.cells[j].ready == {} && !d'.cells[j].job.NoJob? && d'.cells[j].job.at == d.frontier
  {
    var a := OpenDrained(d, j);
    ReachableCell(a, j);
    RequestFacts(a.cells[j], a.frontier);
    d' := Do(a, j, RequestFlush);
    OnlyOn(d, a, d', j);
  }

  lemma FlushIfDirty(d: Db, j: nat) returns (d': Db)
    requires Reachable(d) && d.phase.Idle? && j < |d.cells| && d.cells[j].ready == {}
    requires d.cells[j].section.Free? && d.cells[j].job.NoJob?
    ensures Reachable(d') && Leads(d, d') && Beside(d, d', j) && Raised(d'.cells[j], d.frontier)
  {
    if IsDirty(d.cells[j].cell.state) {
      var a := RequestNow(d, j);
      d' := FinishJob(a, j);
      LeadsOn(d, a, d');
    } else {
      d' := d;
      LeadsSelf(d);
    }
  }

  lemma Raise(d: Db, j: nat) returns (d': Db)
    requires Reachable(d) && d.phase.Idle? && j < |d.cells|
    ensures Reachable(d') && Leads(d, d') && Beside(d, d', j) && Raised(d'.cells[j], d.frontier)
  {
    var a := DrainCell(d, j);
    var b := FinishIfPending(a, j);
    LeadsOn(d, a, b);
    d' := FlushIfDirty(b, j);
    LeadsOn(d, b, d');
  }

  /** Every cell below `n` but `i` is raised. */
  lemma {:induction false} RaiseUpTo(d: Db, n: nat, i: nat, r: nat) returns (d': Db)
    requires Reachable(d) && d.phase.Idle? && n <= |d.cells| && i < |d.cells| && Ready(d.passes, r)
    ensures Reachable(d') && Leads(d, d') && SameWal(d, d') && d'.phase.Idle? && Ready(d'.passes, r)
    ensures d'.cells[i] == d.cells[i]
    ensures forall j: nat | j < n && j != i :: Raised(d'.cells[j], d.frontier)
  {
    if n == 0 {
      d' := d;
      LeadsSelf(d);
    } else {
      var m := RaiseUpTo(d, n - 1, i, r);
      if n - 1 == i {
        d' := m;
      } else {
        d' := Raise(m, n - 1);
        LeadsOn(d, m, d');
      }
    }
  }

  // ---- a walk that stays above `m` ----

  /** The walk begun at `d` has visited the cells below `n` and recorded nothing below `m`. */
  predicate Walked(d: Db, d': Db, n: nat, m: nat, i: nat) {
    && SameWal(d, d') && d'.phase.Walking? && m <= d'.phase.from && i < |d.cells| && d'.cells[i].job == d.cells[i].job
    && (forall j: nat | j < |d.cells| :: j in d'.phase.recs <==> j < n)
    && (forall j: nat | n <= j < |d.cells| :: d'.cells[j] == d.cells[j])
  }

  lemma WalkStep(d: Db, a: Db, d': Db, n: nat, m: nat, i: nat)
    requires Walked(d, a, n, m, i) && n < |d.cells| && Visited(a, d', n) && d'.cells[n].job == a.cells[n].job
    requires Raised(a.cells[n], m) && m <= d.frontier && d'.phase.from == Lowered(a.cells[n], a.phase.from, a.frontier)
    ensures Walked(d, d', n + 1, m, i)
  {
  }

  lemma {:induction false} WalkAbove(d: Db, n: nat, m: nat, i: nat) returns (d': Db)
    requires Reachable(d) && d.phase.Walking? && n <= |d.cells| && i < |d.cells| && d.phase.recs == map[]
    requires m <= d.phase.from && m <= d.frontier && forall j: nat | j < |d.cells| :: Raised(d.cells[j], m)
    ensures Reachable(d') && Leads(d, d') && Walked(d, d', n, m, i)
  {
    if n == 0 {
      d' := d;
      LeadsSelf(d);
    } else {
      var a := WalkAbove(d, n - 1, m, i);
      d' := VisitOne(a, n - 1);
      WalkStep(d, a, d', n - 1, m, i);
      LeadsOn(d, a, d');
    }
  }

  // ---- the regression ----

  /** Some continuation, through any number of stores, reaches one that regresses. */
  ghost predicate EventuallyRegresses(d: Db) {
    exists es, d' :: Run(d, es, d') && Can(d', Store) && Regresses(d')
  }

  lemma EventuallyOn(d: Db, m: Db)
    requires Leads(d, m) && EventuallyRegresses(m)
    ensures EventuallyRegresses(d)
  {
    var es :| Run(d, es, m) && Storeless(es);
    var fs, d' :| Run(m, fs, d') && Can(d', Store) && Regresses(d');
    RunThen(d, es, m, fs, d');
  }

  lemma EventuallyNow(d: Db)
    requires CanRegress(d)
    ensures EventuallyRegresses(d)
  {
    var d' :| Leads(d, d') && Can(d', Store) && Regresses(d');
    var es :| Run(d, es, d') && Storeless(es);
  }

  /** A store ahead of a pending flush: the flush lands, and a later store regresses. */
  lemma StoreThenRegress(d: Db, i: nat)
    requires Reachable(d) && Can(d, Store) && i < |d.cells|
    requires !d.cells[i].job.NoJob? && d.cells[i].job.at < d.phase.from
    ensures EventuallyRegresses(d)
  {
    if Regresses(d) {
      assert Run(d, [], d);
    } else {
      var m := After(d, Store);
      ReachableOn(d, Store);
      PendingRegresses(m, i);
      EventuallyNow(m);
      var fs, d' :| Run(m, fs, d') && Can(d', Store) && Regresses(d');
      assert ([Store] + fs)[1..] == fs;
      assert Run(d, [Store] + fs, d');
    }
  }

  /** A walk of raised cells ends at a store that records nothing below `m`. */
  lemma WalkToStore(d: Db, i: nat, m: nat) returns (d': Db)
    requires Reachable(d) && AtWalk(d) && i < |d.cells|
    requires m <= d.frontier && forall j: nat | j < |d.cells| :: Raised(d.cells[j], m)
    ensures Reachable(d') && Leads(d, d') && Can(d', Store) && m <= d'.phase.from
    ensures |d'.cells| == |d.cells| && d'.cells[i].job == d.cells[i].job
  {
    var a := After(d, StartWalk);
    LeadsBy(d, StartWalk);
    var b := WalkAbove(a, |a.cells|, m, i);
    LeadsOn(d, a, b);
    d' := After(b, Sync);
    LeadsBy(b, Sync);
    LeadsOn(d, b, d');
  }

  /**
   A flush pending below its cell's own frontier, and a rebuild past its barrier that does not
   wait for it, always have a continuation in which a store regresses.
  */
  lemma UnanchoredRegresses(d: Db, i: nat)
    requires Reachable(d) && d.phase.Idle? && i < |d.cells| && Overtaken(d.passes, i)
    requires d.cells[i].job.Flush? && d.cells[i].job.at < d.cells[i].cell.lastProcessed && d.cells[i].ready == {}
    ensures EventuallyRegresses(d)
  {
    var m := d.cells[i].cell.lastProcessed;
    ReachableCell(d, i);
    var r :| r in d.passes && d.passes[r].Waiting? && i !in d.passes[r].waits;
    var a := ServePass(d, r, i);
    var b := RaiseUpTo(a, |a.cells|, i, r);
    LeadsOn(d, a, b);
    var c := TakeLock(b, r);
    LeadsOn(d, b, c);
    var e := WalkToStore(c, i, m);
    LeadsOn(d, c, e);
    StoreThenRegress(e, i);
    EventuallyOn(d, e);
  }

  // ---- one such run ----

  const K: Key := []
  const P: At := At(K, 100)
  const T: Table := Table(map[P := false], map[])
  const BOTH: map<nat, Pass> := map[0 := Queueing, 1 := Waiting({})]

  /** A one-cell database with nothing stored. */
  function One(tail: nat, frontier: nat, x: Ctx, passes: map<nat, Pass>): Db {
    Db(tail, frontier, map[], [x], passes, Idle, Stored(0, map[], 0))
  }

  /** Pass 1 of rebuild 0 has read frontier 50 of the empty cell; rebuild 1 is past its barrier. */
  const ENTERED: Ctx := NewCtx(false).(section := Draining(50, {}, true))

  /** The first write, at 100, has committed since. */
  const COMMITTED: Ctx := Ctx(T.data, map[], {P}, NEW_CELL, false, NoJob, None, Draining(50, {}, true))

  const DRAINED: Ctx :=
    Ctx(T.data, T.data, {}, Cell(DirtyLoaded, T, None, 0, NO_LEVELS, 100, None), false, NoJob, None, Drained(50, true))

  /** The flush is requested at 50. */
  const REQUESTED: Ctx :=
    Ctx(T.data, T.data, {}, Cell(DirtyLoaded, T, Some(0), 1, NO_LEVELS, 100, Some(50)), false,
        Flush(0, T, true, NO_LEVELS, 50, None), None, Free)

  /** One event of the one-cell run. */
  lemma By(d: Db, e: Event, d': Db)
    requires Reachable(d) && Can(d, e) && !e.Store? && d' == After(d, e)
    ensures Reachable(d')
  {
    LeadsBy(d, e);
  }

  lemma BothBegun()
    ensures Reachable(One(0, 0, NewCtx(false), BOTH))
  {
    var x := NewCtx(false);
    var d := Fresh([false]);
    assert d == One(0, 0, x, map[]) by {
      assert d.cells == [x];
    }
    assert Run(d, [], d);
    By(d, Begin(1), One(0, 0, x, map[1 := Queueing]));
    assert Pending([x]) == {};
    By(One(0, 0, x, map[1 := Queueing]), CallBarrier(1), One(0, 0, x, map[1 := Waiting({})]));
    By(One(0, 0, x, map[1 := Waiting({})]), Begin(0), One(0, 0, x, BOTH));
  }

  lemma SealOne(tail: nat, frontier: nat, x: Ctx, len: nat)
    requires Reachable(One(tail, frontier, x, BOTH)) && tail + len <= INVALID_OFFSET
    ensures Reachable(One(tail + len, frontier, x, BOTH))
  {
    By(One(tail, frontier, x, BOTH), Seal(len), One(tail + len, frontier, x, BOTH));
  }

  lemma AdvanceOne(tail: nat, frontier: nat, x: Ctx)
    requires Reachable(One(tail, frontier, x, BOTH)) && frontier <= tail
    requires forall p | p in x.log && p !in x.applied && p !in x.ready :: tail <= p.off
    ensures Reachable(One(tail, tail, x, BOTH))
  {
    By(One(tail, frontier, x, BOTH), Advance(tail), One(tail, tail, x, BOTH));
  }

  lemma WriteOne(tail: nat, frontier: nat, x: Ctx, k: Key, y: Ctx)
    requires Reachable(One(tail, frontier, x, BOTH)) && tail < INVALID_OFFSET && At(k, tail) !in x.log
    requires y == x.(log := x.log[At(k, tail) := false])
    ensures Reachable(One(tail, frontier, y, BOTH))
  {
    assert One(tail, frontier, x, BOTH).cells[0 := y] == [y];
    By(One(tail, frontier, x, BOTH), Write(0, k, false), One(tail, frontier, y, BOTH));
  }

  lemma StepOne(tail: nat, frontier: nat, x: Ctx, s: Step, y: Ctx)
    requires Reachable(One(tail, frontier, x, BOTH)) && Enabled(x, frontier, s) && Routine(x, s) && !Completes(s)
    requires y == Next(x, frontier, s)
    ensures Reachable(One(tail, frontier, y, BOTH))
  {
    var d := One(tail, frontier, x, BOTH);
    assert PassesAfter(BOTH, 0, s) == BOTH;
    assert d.cells[0 := y] == [y];
    By(d, On(0, s), One(tail, frontier, y, BOTH));
  }

  lemma CommittedReached()
    ensures Reachable(One(200, 200, COMMITTED, BOTH))
  {
    BothBegun();
    SealOne(0, 0, NewCtx(false), 50);
    AdvanceOne(50, 0, NewCtx(false));
    StepOne(50, 50, NewCtx(false), ReadFrontier, ENTERED);
    SealOne(50, 50, ENTERED, 50);
    var a := ENTERED.(log := T.data);
    assert ENTERED.log[P := false] == T.data;
    WriteOne(100, 50, ENTERED, K, a);
    SealOne(100, 50, a, 100);
    StepOne(200, 50, a, Commit(P), COMMITTED);
    AdvanceOne(200, 50, COMMITTED);
  }

  lemma DrainedReached()
    ensures Reachable(One(200, 200, DRAINED, BOTH))
  {
    CommittedReached();
    var a := DRAINED.(section := Draining(50, {}, true));
    assert a == Next(COMMITTED, 200, ApplyReady(P)) by {
      assert COMMITTED.applied[P := false] == T.data && COMMITTED.cell.table.data[P := false] == T.data;
    }
    StepOne(200, 200, COMMITTED, ApplyReady(P), a);
    StepOne(200, 200, a, EndDrain, DRAINED);
  }

  lemma RequestedReached()
    ensures Reachable(One(200, 200, REQUESTED, BOTH))
  {
    DrainedReached();
    var d := One(200, 200, DRAINED, BOTH);
    assert PassesAfter(BOTH, 0, RequestFlush) == BOTH;
    assert d.cells[0 := REQUESTED] == [REQUESTED];
    By(d, PassFlush(0, 0), One(200, 200, REQUESTED, BOTH));
  }

  /** Overlapping rebuilds do go back: a run of one cell in which a store regresses. */
  lemma OverlapRegresses()
    ensures exists d :: Reachable(d) && Can(d, Store) && Regresses(d)
  {
    var d := One(200, 200, REQUESTED, BOTH);
    RequestedReached();
    assert 1 in d.passes && d.passes[1].Waiting? && 0 !in d.passes[1].waits;
    UnanchoredRegresses(d, 0);
    var es, d' :| Run(d, es, d') && Can(d', Store) && Regresses(d');
    var keep, fs :| Run(Fresh(keep), fs, d);
    RunThen(Fresh(keep), fs, d, es, d');
  }
}
