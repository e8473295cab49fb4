/**
 The other half: from a state in which the next store is not sound, how a run goes on to a
 store that records a lower frontier than the stored one.
*/
module Regression {
  import opened Bytes
  import opened IndexTable
  import opened CellSpec
  import opened Protocol
  import opened CellInvariant
  import opened Recovery
  import opened Database
  import opened DatabaseInvariant
  import opened Stores

  // ---- runs without a store ----

  predicate Storeless(es: seq<Event>) {
    forall e | e in es :: !e.Store?
  }

  ghost predicate Leads(d: Db, d': Db) {
    exists es :: Run(d, es, d') && Storeless(es)
  }

  /** Some run reaches a store that would record less than is stored, with no store before it. */
  ghost predicate CanRegress(d: Db) {
    exists d' :: Leads(d, d') && Can(d', Store) && Regresses(d')
  }

  lemma {:induction false} RunThen(d: Db, es: seq<Event>, m: Db, fs: seq<Event>, d': Db)
    requires Run(d, es, m) && Run(m, fs, d')
    ensures Run(d, es + fs, d')
    decreases |es|
  {
    if es == [] {
      assert es + fs == fs;
    } else {
      RunThen(After(d, es[0]), es[1..], m, fs, d');
      assert (es + fs)[1..] == es[1..] + fs;
    }
  }

  lemma LeadsOn(d: Db, m: Db, d': Db)
    requires Leads(d, m) && Leads(m, d')
    ensures Leads(d, d')
  {
    var es :| Run(d, es, m) && Storeless(es);
    var fs :| Run(m, fs, d') && Storeless(fs);
    RunThen(d, es, m, fs, d');
    assert Storeless(es + fs);
  }

  lemma LeadsSelf(d: Db)
    ensures Leads(d, d)
  {
    assert Run(d, [], d) && Storeless([]);
  }

  lemma LeadsBy(d: Db, e: Event)
    requires Reachable(d) && Can(d, e) && !e.Store?
    ensures Leads(d, After(d, e)) && Reachable(After(d, e))
  {
    var es := [e];
    assert es[1..] == [] && Run(After(d, e), es[1..], After(d, e));
    assert Run(d, es, After(d, e)) && Storeless(es);
    var keep, fs :| Run(Fresh(keep), fs, d);
    RunThen(Fresh(keep), fs, d, es, After(d, e));
  }

  lemma {:induction false} RunStoreOk(d: Db, es: seq<Event>, d': Db)
    requires StoreInv(d) && Run(d, es, d')
    ensures StoreInv(d')
    decreases |es|
  {
    if es != [] {
      StoreEventOk(d, es[0]);
      RunStoreOk(After(d, es[0]), es[1..], d');
    }
  }

  lemma ReachableStoreOk(d: Db)
    requires Reachable(d)
    ensures StoreInv(d)
  {
    var keep, es :| Run(Fresh(keep), es, d);
    FreshStoreOk(keep);
    RunStoreOk(Fresh(keep), es, d);
  }

  lemma ReachableCell(d: Db, i: nat)
    requires Reachable(d) && i < |d.cells|
    ensures Inv(d.cells[i], d.frontier) && PinnedAt(d, i) && Accounted(d, i)
  {
    ReachableStoreOk(d);
    assert CellOk(d, i);
  }

  /** One cell moves, the rest of the database stays. */
  predicate Only(d: Db, d': Db, i: nat) {
    && i < |d.cells| == |d'.cells| && d' == d.(cells := d'.cells)
    && forall j: nat | j < |d.cells| && j != i :: d'.cells[j] == d.cells[j]
  }

  /** A step that ends no job. */
  lemma Do(d: Db, i: nat, s: Step) returns (d': Db)
    requires Reachable(d) && Can(d, On(i, s)) && !Completes(s)
    ensures Reachable(d') && Leads(d, d') && Only(d, d', i)
    ensures d'.cells[i] == Next(d.cells[i], d.frontier, s)
  {
    d' := After(d, On(i, s));
    LeadsBy(d, On(i, s));
    assert PassesAfter(d.passes, i, s) == d.passes;
  }

  // ---- draining a cell ----

  /** What draining keeps: the job and the levels; a cell in use only falls further behind. */
  predicate Drains(x: Ctx, y: Ctx) {
    && y.job == x.job && y.cell.image == x.cell.image
    && (!x.cell.state.Empty? ==>
          && !y.cell.state.Empty? && y.cell.lastProcessed <= x.cell.lastProcessed
          && (IsDirty(x.cell.state) ==> IsDirty(y.cell.state)))
  }

  lemma ApplyDrains(x: Ctx, f: nat, p: At)
    requires LogsOk(x, f) && Enabled(x, f, ApplyReady(p)) && x.section.Draining?
    ensures var y := Next(x, f, ApplyReady(p));
            && Drains(x, y) && y.ready == x.ready - {p}
            && y.section == x.section.(todo := x.section.todo - {p})
  {
    assert p !in x.cell.table.data;
  }

  /** A step of cell `i` and what follows it in cell `i`. */
  lemma OnlyOn(d: Db, m: Db, d': Db, i: nat)
    requires Leads(d, m) && Leads(m, d') && Only(d, m, i) && Only(m, d', i)
    ensures Leads(d, d') && Only(d, d', i)
  {
    LeadsOn(d, m, d');
  }

  lemma DrainOne(d: Db, i: nat, p: At) returns (d': Db)
    requires Reachable(d) && i < |d.cells| && d.cells[i].section.Draining? && p in d.cells[i].ready
    ensures Reachable(d') && Leads(d, d') && Only(d, d', i) && Drains(d.cells[i], d'.cells[i])
    ensures d'.cells[i].ready == d.cells[i].ready - {p}
    ensures d'.cells[i].section == d.cells[i].section.(todo := d.cells[i].section.todo - {p})
  {
    ReachableCell(d, i);
    ApplyDrains(d.cells[i], d.frontier, p);
    d' := Do(d, i, ApplyReady(p));
  }

  lemma {:induction false} DrainAll(d: Db, i: nat) returns (d': Db)
    requires Reachable(d) && i < |d.cells| && d.cells[i].section.Draining?
    requires d.cells[i].section.todo <= d.cells[i].ready
    ensures Reachable(d') && Leads(d, d') && Only(d, d', i) && Drains(d.cells[i], d'.cells[i])
    ensures d'.cells[i].section == d.cells[i].section.(todo := {}) && d'.cells[i].ready == {}
    ensures d.cells[i].ready == {} ==> d'.cells[i].cell == d.cells[i].cell
    decreases |d.cells[i].ready|
  {
    if d.cells[i].ready == {} {
      d' := d;
      LeadsSelf(d);
    } else {
      var p :| p in d.cells[i].ready;
      var m := DrainOne(d, i, p);
      d' := DrainAll(m, i);
      OnlyOn(d, m, d', i);
    }
  }

  /** A fresh section, opened at the frontier of the day and drained. */
  lemma OpenDrained(d: Db, i: nat) returns (d': Db)
    requires Reachable(d) && i < |d.cells| && d.cells[i].section.Free?
    ensures Reachable(d') && Leads(d, d') && Only(d, d', i) && Drains(d.cells[i], d'.cells[i])
    ensures d'.cells[i].section == Drained(d.frontier, d.cells[i].cell.state.Empty?) && d'.cells[i].ready == {}
    ensures d.cells[i].ready == {} ==> d'.cells[i].cell == d.cells[i].cell
  {
    var a := Do(d, i, ReadFrontier);
    var b := DrainAll(a, i);
    OnlyOn(d, a, b, i);
    d' := Do(b, i, EndDrain);
    OnlyOn(d, b, d', i);
  }

  /** Whoever is in the cell's section leaves it. */
  lemma FreeCell(d: Db, i: nat) returns (d': Db)
    requires Reachable(d) && i < |d.cells|
    ensures Reachable(d') && Leads(d, d') && Only(d, d', i)
    ensures d'.cells[i] == d.cells[i].(section := Free)
  {
    if d.cells[i].section.Free? {
      d' := d;
      LeadsSelf(d);
    } else {
      d' := Do(d, i, Leave);
    }
  }

  // ---- finishing a job ----

  function LevelKeys(b: Option<Blob>): set<Key> {
    if b.Some? then b.value.Keys else {}
  }

  /** One flush the flusher may produce: a new L0 over unchanged deeper levels. */
  function FlushOut(img: Image, dirty: Table, loaded: bool, f: nat): Image {
    var ks := Keys(dirty.data) + dirty.flat.Keys + LevelKeys(img.l0);
    Image(Some(map k | k in ks && Merged(img, dirty, loaded, f, k).Some? :: Merged(img, dirty, loaded, f, k).value),
          img.below, img.sharded)
  }

  lemma FlushOutOk(img: Image, dirty: Table, loaded: bool, f: nat)
    requires img.sharded ==> img.below.Some?
    ensures Flushed(img, dirty, loaded, f, FlushOut(img, dirty, loaded, f))
  {
    var out := FlushOut(img, dirty, loaded, f);
    forall k ensures FlushedAt(img, dirty, loaded, f, out, k) {
      if Latest(dirty.data, k, f).Some? {
        assert At(k, LatestBelow(dirty.data, k, f).value) in dirty.data;
      }
      assert InLevel(out.l0, k) == Merged(img, dirty, loaded, f, k);
    }
  }

  /** One relocation the flusher may produce. */
  function RelocateOut(img: Image): Image {
    if img.sharded then img
    else
      var ks := LevelKeys(img.l0) + LevelKeys(img.below);
      Image(Some(map k | k in ks && DiskVal(img, k).Some? :: Entry(DiskVal(img, k).value, false)), None, false)
  }

  lemma RelocateOutOk(img: Image)
    requires img.sharded ==> img.below.Some?
    ensures Relocated(img, RelocateOut(img))
  {
  }

  /** The pending job has been carried out and waits to be installed. */
  predicate Executed(j: Job) {
    (j.Flush? && j.out.Some?) || (j.Relocate? && j.moved.Some?)
  }

  lemma Execute(d: Db, i: nat) returns (d': Db)
    requires Reachable(d) && i < |d.cells| && !d.cells[i].job.NoJob?
    ensures Reachable(d') && Leads(d, d') && Only(d, d', i)
    ensures d'.cells[i] == d.cells[i].(job := d'.cells[i].job) && Executed(d'.cells[i].job)
    ensures d'.cells[i].job.at == d.cells[i].job.at && (d'.cells[i].job.Flush? <==> d.cells[i].job.Flush?)
  {
    ReachableCell(d, i);
    var j := d.cells[i].job;
    if Executed(j) {
      d' := d;
      LeadsSelf(d);
    } else if j.Flush? {
      FlushOutOk(j.image, j.original, j.loaded, d.frontier);
      d' := Do(d, i, ExecuteFlush(FlushOut(j.image, j.original, j.loaded, d.frontier)));
    } else {
      RelocateOutOk(j.image);
      d' := Do(d, i, ExecuteRelocate(RelocateOut(j.image)));
    }
  }

  /** The job of cell `i` is done, and every barrier waiting for it is told. */
  predicate Finished(d: Db, d': Db, i: nat) {
    && i < |d.cells| == |d'.cells|
    && d' == d.(cells := d'.cells, passes := PassesAfter(d.passes, i, CompleteFlush),
                phase := PhaseAfter(d.phase, i, CompleteFlush))
    && forall j: nat | j < |d.cells| && j != i :: d'.cells[j] == d.cells[j]
  }

  /** What a finished job leaves of its cell. */
  predicate Landed(x: Ctx, y: Ctx)
    requires !x.job.NoJob?
  {
    && y.job.NoJob? && y.section.Free? && y.ready == x.ready
    && !y.cell.state.Empty? && y.cell.lastProcessed == x.job.at
    && (x.job.Flush? && Beyond(x, x.job.at) ==> IsDirty(y.cell.state))
  }

  lemma CompleteLands(x: Ctx, f: nat, s: Step)
    requires Inv(x, f) && Executed(x.job) && x.section.Free?
    requires s == if x.job.Flush? then CompleteFlush else CompleteRelocate
    ensures Enabled(x, f, s) && Landed(x, Next(x, f, s))
  {
    NeverPanics(x, f, s);
    if x.job.Flush? && Beyond(x, x.job.at) {
      CompleteStaysDirty(x, f);
    }
  }

  /** A step that ends the job. */
  lemma End(d: Db, i: nat, s: Step) returns (d': Db)
    requires Reachable(d) && Can(d, On(i, s)) && Completes(s)
    ensures Reachable(d') && Leads(d, d') && Finished(d, d', i)
    ensures d'.cells[i] == Next(d.cells[i], d.frontier, s)
  {
    d' := After(d, On(i, s));
    LeadsBy(d, On(i, s));
  }

  lemma Install(d: Db, i: nat) returns (d': Db)
    requires Reachable(d) && i < |d.cells| && Executed(d.cells[i].job) && d.cells[i].section.Free?
    ensures Reachable(d') && Leads(d, d') && Finished(d, d', i) && Landed(d.cells[i], d'.cells[i])
  {
    ReachableCell(d, i);
    var s := if d.cells[i].job.Flush? then CompleteFlush else CompleteRelocate;
    CompleteLands(d.cells[i], d.frontier, s);
    d' := End(d, i, s);
  }

  lemma FinishJob(d: Db, i: nat) returns (d': Db)
    requires Reachable(d) && i < |d.cells| && !d.cells[i].job.NoJob?
    ensures Reachable(d') && Leads(d, d') && Finished(d, d', i) && Landed(d.cells[i], d'.cells[i])
  {
    var a := FreeCell(d, i);
    var b := Execute(a, i);
    OnlyOn(d, a, b, i);
    d' := Install(b, i);
    LeadsOn(d, b, d');
  }

  // ---- getting to a walk ----

  /** The database outside the cells is where it was. */
  predicate SameWal(d: Db, d': Db) {
    |d'.cells| == |d.cells| && d'.frontier == d.frontier && d'.tail == d.tail && d'.stored == d.stored
  }

  /** The jobs a waiting rebuild waits for all finish; cell `i` has none among them. */
  lemma {:induction false} ServePass(d: Db, r: nat, i: nat) returns (d': Db)
    requires Reachable(d) && r in d.passes && d.passes[r].Waiting? && i !in d.passes[r].waits && i < |d.cells|
    requires d.phase.Idle?
    ensures Reachable(d') && Leads(d, d') && SameWal(d, d') && d'.cells[i] == d.cells[i]
    ensures Ready(d'.passes, r) && d'.phase.Idle?
    decreases |d.passes[r].waits|
  {
    if d.passes[r].waits == {} {
      d' := d;
      LeadsSelf(d);
    } else {
      var j :| j in d.passes[r].waits;
      ReachableStoreOk(d);
      assert WaitsOk(d, d.passes[r].waits);
      var m := FinishJob(d, j);
      assert m.passes[r].waits == d.passes[r].waits - {j};
      d' := ServePass(m, r, i);
      LeadsOn(d, m, d');
    }
  }

  lemma {:induction false} ServeSettle(d: Db, i: nat) returns (d': Db)
    requires Reachable(d) && d.phase.Settling? && i !in d.phase.waits && i < |d.cells|
    ensures Reachable(d') && Leads(d, d') && SameWal(d, d') && d'.cells[i] == d.cells[i]
    ensures d'.phase == Settling({})
    decreases |d.phase.waits|
  {
    if d.phase.waits == {} {
      d' := d;
      LeadsSelf(d);
    } else {
      var j :| j in d.phase.waits;
      ReachableStoreOk(d);
      assert WaitsOk(d, d.phase.waits);
      var m := FinishJob(d, j);
      assert m.phase.waits == d.phase.waits - {j};
      d' := ServeSettle(m, i);
      LeadsOn(d, m, d');
    }
  }

  /** A pass number nobody uses. */
  lemma {:induction false} Unused(s: set<nat>) returns (r: nat)
    ensures forall q | q in s :: q < r
    decreases s
  {
    r := 0;
    if s != {} {
      var q :| q in s;
      var m := Unused(s - {q});
      r := if m <= q then q + 1 else m;
      assert forall p | p in s :: p == q || p in s - {q};
    }
  }

  /** A rebuild stands right before its walk. */
  predicate AtWalk(d: Db) {
    d.phase == Relocating(false) || d.phase == Settling({})
  }

  /** A rebuild past its first barrier takes the lock. */
  lemma TakeLock(d: Db, r: nat) returns (d': Db)
    requires Reachable(d) && d.phase.Idle? && Ready(d.passes, r)
    ensures Reachable(d') && Leads(d, d') && SameWal(d, d') && d'.cells == d.cells && AtWalk(d')
  {
    LeadsBy(d, Lock(r, false));
    d' := After(d, Lock(r, false));
  }

  /** A new rebuild calls its first barrier without queueing anything. */
  lemma BeginAndWait(d: Db) returns (d': Db, r: nat)
    requires Reachable(d)
    ensures Reachable(d') && Leads(d, d') && SameWal(d, d') && d'.cells == d.cells && d'.phase == d.phase
    ensures r in d'.passes && d'.passes[r] == Waiting(Pending(d.cells))
  {
    r := Unused(d.passes.Keys);
    var a := After(d, Begin(r));
    LeadsBy(d, Begin(r));
    d' := After(a, CallBarrier(r));
    LeadsBy(a, CallBarrier(r));
    LeadsOn(d, a, d');
  }

  lemma IdleToWalk(d: Db, i: nat) returns (d': Db)
    requires Reachable(d) && d.phase.Idle? && i < |d.cells| && Exposed(d, i)
    ensures Reachable(d') && Leads(d, d') && SameWal(d, d') && d'.cells[i] == d.cells[i] && AtWalk(d')
  {
    var a, r := d, 0;
    LeadsSelf(d);
    if Overtaken(d.passes, i) {
      r :| r in d.passes && d.passes[r].Waiting? && i !in d.passes[r].waits;
    } else {
      a, r := BeginAndWait(d);
    }
    var b := ServePass(a, r, i);
    LeadsOn(d, a, b);
    d' := TakeLock(b, r);
    LeadsOn(d, b, d');
  }

  lemma LockedToWalk(d: Db, i: nat) returns (d': Db)
    requires Reachable(d) && (d.phase.Relocating? || d.phase.Settling?) && i < |d.cells| && Exposed(d, i)
    ensures Reachable(d') && Leads(d, d') && SameWal(d, d') && d'.cells[i] == d.cells[i] && AtWalk(d')
  {
    var a := d;
    LeadsSelf(d);
    if d.phase == Relocating(true) {
      LeadsBy(d, CallSettle);
      a := After(d, CallSettle);
    }
    if a.phase.Settling? {
      d' := ServeSettle(a, i);
      LeadsOn(d, a, d');
    } else {
      d' := a;
    }
  }

  /** From any state without a walk, one starts with cell `i` as the next walk may find it. */
  lemma ToWalk(d: Db, i: nat) returns (d': Db)
    requires Reachable(d) && !Records(d.phase) && i < |d.cells| && Exposed(d, i)
    ensures Reachable(d') && Leads(d, d') && SameWal(d, d') && d'.cells[i] == d.cells[i]
    ensures d'.phase == Walking(d.frontier, d.frontier, map[])
  {
    var a := d;
    if d.phase.Idle? {
      a := IdleToWalk(d, i);
    } else {
      a := LockedToWalk(d, i);
    }
    LeadsBy(a, StartWalk);
    d' := After(a, StartWalk);
    LeadsOn(d, a, d');
  }

  // ---- the walk ----

  /** The walk has recorded cell `i` and nothing else has moved. */
  predicate Visited(d: Db, d': Db, i: nat) {
    && SameWal(d, d') && i < |d.cells| && d'.passes == d.passes && d.phase.Walking? && d'.phase.Walking?
    && d'.phase.recs.Keys == d.phase.recs.Keys + {i} && d'.phase.from <= d.phase.from
    && forall j: nat | j < |d.cells| && j != i :: d'.cells[j] == d.cells[j]
  }

  /** What the walk makes of the minimum when it finds nothing to drain. */
  function Lowered(x: Ctx, from: nat, frontier: nat): nat {
    if x.cell.state.Empty? then from
    else if IsClean(x.cell.state) then Min(from, frontier)
    else Min(from, x.cell.lastProcessed)
  }

  lemma VisitDrained(d: Db, i: nat) returns (d': Db)
    requires Reachable(d) && d.phase.Walking? && i < |d.cells| && i !in d.phase.recs
    requires d.cells[i].section.Drained? && d.cells[i].section.front == d.frontier
    ensures Reachable(d') && Leads(d, d') && Visited(d, d', i)
    ensures d'.phase.from == Lowered(d.cells[i], d.phase.from, d.frontier) && d'.cells[i].job == d.cells[i].job
  {
    ReachableStoreOk(d);
    LeadsBy(d, VisitCell(i));
    d' := After(d, VisitCell(i));
  }

  lemma VisitOne(d: Db, i: nat) returns (d': Db)
    requires Reachable(d) && d.phase.Walking? && i < |d.cells| && i !in d.phase.recs
    ensures Reachable(d') && Leads(d, d') && Visited(d, d', i) && d'.cells[i].job == d.cells[i].job
    ensures IsDirty(d.cells[i].cell.state) ==> d'.phase.from <= d.cells[i].cell.lastProcessed
    ensures d.cells[i].ready == {} ==> d'.phase.from == Lowered(d.cells[i], d.phase.from, d.frontier)
  {
    var a := FreeCell(d, i);
    var b := OpenDrained(a, i);
    OnlyOn(d, a, b, i);
    d' := VisitDrained(b, i);
    LeadsOn(d, b, d');
  }

  /** The walk visits the first `n` cells it has not visited yet. */
  lemma {:induction false} VisitUpTo(d: Db, n: nat) returns (d': Db)
    requires Reachable(d) && d.phase.Walking? && n <= |d.cells|
    ensures Reachable(d') && Leads(d, d') && SameWal(d, d') && d'.phase.Walking? && d'.phase.from <= d.phase.from
    ensures forall i: nat | i < n :: i in d'.phase.recs
  {
    if n == 0 {
      d' := d;
      LeadsSelf(d);
    } else {
      var m := VisitUpTo(d, n - 1);
      if n - 1 in m.phase.recs {
        d' := m;
      } else {
        d' := VisitOne(m, n - 1);
        LeadsOn(d, m, d');
      }
    }
  }

  /** A walk whose minimum is already too low ends at a store that regresses. */
  lemma FinishWalk(d: Db)
    requires Reachable(d) && Regresses(d)
    ensures CanRegress(d)
  {
    LeadsSelf(d);
    if d.phase.Walking? {
      var a := VisitUpTo(d, |d.cells|);
      LeadsBy(a, Sync);
      LeadsOn(d, a, After(a, Sync));
    }
  }

  lemma RegressOn(d: Db, d': Db)
    requires Leads(d, d') && CanRegress(d')
    ensures CanRegress(d)
  {
    var m :| Leads(d', m) && Can(m, Store) && Regresses(m);
    LeadsOn(d, d', m);
  }

  /** A dirty cell behind the stored frontier, met by the walk. */
  lemma WalkMeets(d: Db, i: nat)
    requires Reachable(d) && d.phase.Walking? && i < |d.cells| && i !in d.phase.recs
    requires IsDirty(d.cells[i].cell.state) && d.cells[i].cell.lastProcessed < d.stored.from
    ensures CanRegress(d)
  {
    var a := VisitOne(d, i);
    FinishWalk(a);
    RegressOn(d, a);
  }

  lemma BehindRegresses(d: Db, i: nat)
    requires Reachable(d) && i < |d.cells| && Ahead(d.phase, i) && Exposed(d, i)
    requires !d.cells[i].cell.state.Empty? && d.cells[i].cell.lastProcessed < d.stored.from
    ensures CanRegress(d)
  {
    ReachableCell(d, i);
    if d.phase.Walking? {
      WalkMeets(d, i);
    } else {
      var a := ToWalk(d, i);
      WalkMeets(a, i);
      RegressOn(d, a);
    }
  }

  lemma PendingRegresses(d: Db, i: nat)
    requires Reachable(d) && i < |d.cells| && Ahead(d.phase, i)
    requires !d.cells[i].job.NoJob? && d.cells[i].job.at < d.stored.from
    ensures CanRegress(d)
  {
    ReachableCell(d, i);
    var a := FinishJob(d, i);
    ReachableStoreOk(a);
    IdleExposed(a, i);
    BehindRegresses(a, i);
    RegressOn(d, a);
  }

  // ---- the exact condition ----

  lemma {:induction false} HoldsUntilStore(d: Db, es: seq<Event>, d': Db)
    requires StoreInv(d) && Run(d, es, d') && Storeless(es) && NextStoreHolds(d)
    ensures NextStoreHolds(d')
    decreases |es|
  {
    if es != [] {
      assert es[0] in es;
      StoreEventOk(d, es[0]);
      LevelKept(d, es[0]);
      HoldsUntilStore(After(d, es[0]), es[1..], d');
    }
  }

  /**
   In every reachable state: the next store regresses in some continuation iff a cell it has yet to
   record is behind.
  */
  lemma CanRegressIff(d: Db)
    requires Reachable(d)
    ensures CanRegress(d) <==> !NextStoreHolds(d)
  {
    ReachableStoreOk(d);
    if CanRegress(d) && NextStoreHolds(d) {
      var d' :| Leads(d, d') && Can(d', Store) && Regresses(d');
      var es :| Run(d, es, d') && Storeless(es);
      HoldsUntilStore(d, es, d');
      assert false;
    }
    if !NextStoreHolds(d) {
      if Regresses(d) {
        FinishWalk(d);
      } else {
        var i: nat :| i < |d.cells| && !LevelAt(d, i);
        if !d.cells[i].job.NoJob? && d.cells[i].job.at < d.stored.from {
          PendingRegresses(d, i);
        } else {
          BehindRegresses(d, i);
        }
      }
    }
  }

  /** At no point of the run can the next store regress. */
  ghost predicate RegressFree(d: Db, es: seq<Event>)
    decreases |es|
  {
    !CanRegress(d) && (es != [] ==> Can(d, es[0]) && RegressFree(After(d, es[0]), es[1..]))
  }

  lemma {:induction false} RegressFreeIff(d: Db, es: seq<Event>, d': Db)
    requires Reachable(d) && NextStoreHolds(d) && Run(d, es, d')
    ensures RegressFree(d, es) <==> SettledStores(d, es)
    decreases |es|
  {
    CanRegressIff(d);
    if es != [] {
      var e, m := es[0], After(d, es[0]);
      ReachableStoreOk(d);
      ReachableOn(d, e);
      CanRegressIff(m);
      if e.Store? {
        SettledHolds(d);
      } else {
        LevelKept(d, e);
      }
      if NextStoreHolds(m) {
        RegressFreeIff(m, es[1..], d');
      }
    }
  }

  lemma ReachableOn(d: Db, e: Event)
    requires Reachable(d) && Can(d, e)
    ensures Reachable(After(d, e))
  {
    var keep, fs :| Run(Fresh(keep), fs, d);
    assert [e][1..] == [] && Run(After(d, e), [e][1..], After(d, e));
    RunThen(Fresh(keep), fs, d, [e], After(d, e));
  }

  /**
   Exactly the runs whose every store is settled can never, from any point on, have their next
   store regress.
  */
  lemma StoresNeverRegressIff(keep: seq<bool>, es: seq<Event>, d: Db)
    requires Run(Fresh(keep), es, d)
    ensures RegressFree(Fresh(keep), es) <==> SettledStores(Fresh(keep), es)
  {
    assert Run(Fresh(keep), [], Fresh(keep));
    RegressFreeIff(Fresh(keep), es, d);
  }
}
