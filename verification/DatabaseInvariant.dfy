/** Every event of a database run keeps the invariant; what a run promises its users follows. */
module DatabaseInvariant {
  import opened Bytes
  import opened IndexTable
  import opened CellSpec
  import opened Protocol
  import opened CellInvariant
  import opened Recovery
  import opened Database

  lemma FreshOk(keep: seq<bool>)
    ensures DbInv(Fresh(keep))
  {
    var d := Fresh(keep);
    forall i: nat | i < |d.cells| ensures CellOk(d, i) {
      InitInv(keep[i], 0);
      var rec := RecAt(d.stored, i);
      forall k ensures RecKey(rec, 0, map[], 0, k) {
        assert AsOf(map[], k, 0) == None;
      }
    }
  }

  /** Records stay good as the log grows past the point they speak of. */
  lemma RecGrows(rec: Rec, r: nat, log: Log, p: At, del: bool, upto: nat, g: nat)
    requires RecOk(rec, r, log, upto) && upto <= g && p !in log && r <= upto <= p.off
    ensures RecOk(rec, r, log[p := del], g)
  {
    var w := log[p := del];
    forall k ensures RecKey(rec, r, w, g, k) {
      assert RecKey(rec, r, log, upto, k);
      var b :| && r <= b <= upto
               && (NonEmpty(rec.image) ==> rec.lastProcessed <= b)
               && DiskVal(rec.image, k) == AsOf(log, k, b);
      SameBelow(w, log, k, b);
      assert DiskVal(rec.image, k) == AsOf(w, k, b);
    }
  }

  lemma RecLater(rec: Rec, r: nat, log: Log, upto: nat, r': nat, g: nat)
    requires RecOk(rec, r, log, upto) && upto <= g && r' <= r
    ensures RecOk(rec, r', log, g)
  {
    forall k ensures RecKey(rec, r', log, g, k) {
      assert RecKey(rec, r, log, upto, k);
    }
  }

  /** Pending records survive a later frontier, a lower minimum and nothing else. */
  lemma RecordLater(x: Ctx, ph: Phase, ph': Phase, i: nat, f: nat, g: nat)
    requires RecordOk(x, ph, i, f) && f <= g
    requires Records(ph') && i in ph'.recs ==>
      && Records(ph) && i in ph.recs && ph.recs[i] == ph'.recs[i] && ph'.from <= ph.from
      && (ph.Synced? <==> ph'.Synced?) && (ph.Synced? ==> ph.upto == ph'.upto)
    ensures RecordOk(x, ph', i, g)
  {
    if Records(ph') && i in ph'.recs {
      var upto := if ph.Synced? then ph.upto else f;
      RecLater(ph.recs[i], ph.from, x.log, upto, ph'.from, if ph.Synced? then ph.upto else g);
    }
  }

  /** Cells an event does not touch keep their part of the invariant. */
  lemma Untouched(d: Db, d': Db, j: nat)
    requires j < |d.cells| == |d'.cells| && CellOk(d, j)
    requires d'.cells[j] == d.cells[j] && d'.stored == d.stored && d'.frontier == d.frontier && d.tail <= d'.tail
    requires RelocationLocked(d.cells[j], d'.phase, j)
    requires Records(d'.phase) && j in d'.phase.recs ==>
      && Records(d.phase) && j in d.phase.recs && d.phase.recs[j] == d'.phase.recs[j] && d'.phase.from <= d.phase.from
      && (d.phase.Synced? <==> d'.phase.Synced?) && (d.phase.Synced? ==> d.phase.upto == d'.phase.upto)
    ensures CellOk(d', j)
  {
    RecordLater(d.cells[j], d.phase, d'.phase, j, d.frontier, d.frontier);
  }

  lemma WriteCell(d: Db, i: nat, k: Key, del: bool)
    requires DbInv(d) && Can(d, Write(i, k, del))
    ensures CellOk(After(d, Write(i, k, del)), i)
  {
    var x, p := d.cells[i], At(k, d.tail);
    assert CellOk(d, i);
    AppendInv(x, d.frontier, p, del);
    RecGrows(RecAt(d.stored, i), d.stored.from, x.log, p, del, d.stored.upto, d.stored.upto);
    if Records(d.phase) && i in d.phase.recs {
      var upto := if d.phase.Synced? then d.phase.upto else d.frontier;
      RecGrows(d.phase.recs[i], d.phase.from, x.log, p, del, upto, upto);
    }
  }

  lemma WriteOk(d: Db, i: nat, k: Key, del: bool)
    requires DbInv(d) && Can(d, Write(i, k, del))
    ensures DbInv(After(d, Write(i, k, del)))
  {
    var d' := After(d, Write(i, k, del));
    WriteCell(d, i, k, del);
    forall j: nat | j < |d'.cells| ensures CellOk(d', j) {
      assert CellOk(d, j);
      if j != i {
        Untouched(d, d', j);
      }
    }
  }

  lemma SealOk(d: Db, len: nat)
    requires DbInv(d) && Can(d, Seal(len))
    ensures DbInv(After(d, Seal(len)))
  {
    var d' := After(d, Seal(len));
    forall j: nat | j < |d'.cells| ensures CellOk(d', j) {
      assert CellOk(d, j);
      Untouched(d, d', j);
    }
  }

  lemma AdvanceOk(d: Db, to: nat)
    requires DbInv(d) && Can(d, Advance(to))
    ensures DbInv(After(d, Advance(to)))
  {
    var d' := After(d, Advance(to));
    forall j: nat | j < |d'.cells| ensures CellOk(d', j) {
      assert CellOk(d, j);
      FrontierInv(d.cells[j], d.frontier, to);
      RecordLater(d.cells[j], d.phase, d.phase, j, d.frontier, to);
    }
  }

  lemma LatchOk(d: Db, e: Event)
    requires DbInv(d) && Can(d, e) && (e.Take? || e.Grant? || e.Release?)
    ensures DbInv(After(d, e))
  {
    var d' := After(d, e);
    forall j: nat | j < |d'.cells| ensures CellOk(d', j) {
      assert CellOk(d, j);
      Untouched(d, d', j);
    }
  }

  /** No step but an append changes the log, and none hands a guard back. */
  lemma StepLogs(x: Ctx, f: nat, s: Step)
    requires Enabled(x, f, s) && !s.Append?
    ensures var y := Next(x, f, s);
            && y.log == x.log
            && x.applied.Keys + x.ready <= y.applied.Keys + y.ready
  {
  }

  /** Relocations stay under the lock, and quiet stays, whatever a cell does. */
  lemma StepKeeps(x: Ctx, f: nat, s: Step, ph: Phase, i: nat, r: nat)
    requires Enabled(x, f, s) && LogsOk(x, f) && RelocationLocked(x, ph, i) && Quiet(x, r) && r <= f
    requires Records(ph) ==> ph.from <= f && (i in ph.recs ==> Quiet(x, ph.from))
    requires x.job.Relocate? ==> x.cell.pending.Some? && !x.cell.state.Empty?
    requires s.RequestRelocate? ==> ph == Relocating(true)
    ensures RelocationLocked(Next(x, f, s), PhaseAfter(ph, i, s), i) && Quiet(Next(x, f, s), r)
    ensures Records(ph) && i in ph.recs ==> Quiet(Next(x, f, s), ph.from)
    ensures !s.Append? ==> Next(x, f, s).log == x.log
  {
    QuietStep(x, f, s, r);
    if Records(ph) && i in ph.recs {
      QuietStep(x, f, s, ph.from);
    }
  }

  lemma AccountedAfter(d: Db, i: nat, s: Step)
    requires i < |d.cells| && Enabled(d.cells[i], d.frontier, s) && Accounted(d, i)
    requires var y := Next(d.cells[i], d.frontier, s);
             && y.log == d.cells[i].log && SectionAnchored(y) && Quiet(y, d.stored.from)
             && RelocationLocked(y, PhaseAfter(d.phase, i, s), i)
             && (Records(d.phase) && i in d.phase.recs ==> Quiet(y, d.phase.from))
    ensures Accounted(Stepped(d, i, s), i)
  {
  }

  /** A cell's own part of the invariant after a step of its own. */
  lemma SteppedAccount(d: Db, i: nat, s: Step)
    requires i < |d.cells| && CellOk(d, i) && d.stored.from <= d.frontier && PhaseOk(d)
    requires Enabled(d.cells[i], d.frontier, s) && !s.Append? && !s.Visit?
    requires s.RequestRelocate? ==> d.phase == Relocating(true)
    ensures Accounted(Stepped(d, i, s), i)
  {
    SectionAnchoredStep(d.cells[i], d.frontier, s);
    StepKeeps(d.cells[i], d.frontier, s, d.phase, i, d.stored.from);
    AccountedAfter(d, i, s);
  }

  lemma OtherCellsOk(d: Db, i: nat, s: Step, j: nat)
    requires i < |d.cells| && Enabled(d.cells[i], d.frontier, s) && j < |d.cells| && j != i && CellOk(d, j)
    ensures CellOk(Stepped(d, i, s), j)
  {
    Untouched(d, Stepped(d, i, s), j);
  }

  /** Replacing one cell by its successor keeps the whole invariant. */
  lemma SteppedOk(d: Db, i: nat, s: Step)
    requires DbInv(d) && i < |d.cells| && Enabled(d.cells[i], d.frontier, s) && !s.Append? && !s.Visit?
    requires s.RequestRelocate? ==> d.phase == Relocating(true)
    ensures DbInv(Stepped(d, i, s))
  {
    var d' := Stepped(d, i, s);
    assert CellOk(d, i);
    StepInv(d.cells[i], d.frontier, s);
    SteppedAccount(d, i, s);
    forall j: nat | j < |d'.cells| ensures CellOk(d', j) {
      assert CellOk(d, j);
      if j != i {
        OtherCellsOk(d, i, s, j);
      }
    }
    StepLogs(d.cells[i], d.frontier, s);
    forall id | id in d.latches && d.latches[id].granted ensures GuardsFrom(d', d'.latches[id].position) {
      GuardsKept(d, d', i, d.latches[id].position);
    }
  }

  lemma GuardsKept(d: Db, d': Db, i: nat, f: nat)
    requires GuardsFrom(d, f) && i < |d.cells|
    requires |d'.cells| == |d.cells| && d'.cells == d.cells[i := d'.cells[i]]
    requires d'.cells[i].log == d.cells[i].log
    requires d.cells[i].applied.Keys + d.cells[i].ready <= d'.cells[i].applied.Keys + d'.cells[i].ready
    ensures GuardsFrom(d', f)
  {
    forall j, p | 0 <= j < |d'.cells| && p in d'.cells[j].log && p !in d'.cells[j].applied && p !in d'.cells[j].ready
      ensures f <= p.off
    {
      assert p in d.cells[j].log && p !in d.cells[j].applied.Keys + d.cells[j].ready;
    }
  }

  /** The rebuild events that touch no cell. */
  lemma RebuildOk(d: Db, e: Event)
    requires DbInv(d) && Can(d, e)
    requires e.Begin? || e.CallBarrier? || e.Lock? || e.CallSettle? || e.StartWalk?
    ensures DbInv(After(d, e))
  {
    var d' := After(d, e);
    forall j: nat | j < |d'.cells| ensures CellOk(d', j) {
      assert CellOk(d, j);
      Untouched(d, d', j);
    }
  }

  lemma SyncOk(d: Db)
    requires DbInv(d) && Can(d, Sync)
    ensures DbInv(After(d, Sync))
  {
    var d' := After(d, Sync);
    forall j: nat | j < |d'.cells| ensures CellOk(d', j) {
      assert CellOk(d, j);
    }
  }

  lemma VisitAccount(d: Db, i: nat)
    requires Can(d, VisitCell(i)) && CellOk(d, i) && d.stored.from <= d.frontier && PhaseOk(d)
    ensures Accounted(After(d, VisitCell(i)), i)
  {
    SectionAnchoredStep(d.cells[i], d.frontier, Visit);
    QuietStep(d.cells[i], d.frontier, Visit, d.stored.from);
    VisitRecords(d.cells[i], d.frontier, After(d, VisitCell(i)).phase.from);
  }

  lemma VisitOther(d: Db, i: nat, j: nat)
    requires Can(d, VisitCell(i)) && j < |d.cells| && j != i && CellOk(d, j)
    ensures j < |After(d, VisitCell(i)).cells| && CellOk(After(d, VisitCell(i)), j)
  {
    Untouched(d, After(d, VisitCell(i)), j);
  }

  lemma VisitGuards(d: Db, i: nat, f: nat)
    requires Can(d, VisitCell(i)) && GuardsFrom(d, f)
    ensures GuardsFrom(After(d, VisitCell(i)), f)
  {
    StepLogs(d.cells[i], d.frontier, Visit);
    GuardsKept(d, After(d, VisitCell(i)), i, f);
  }

  lemma VisitCellOk(d: Db, i: nat)
    requires Can(d, VisitCell(i)) && CellOk(d, i) && d.stored.from <= d.frontier && PhaseOk(d)
    ensures CellOk(After(d, VisitCell(i)), i)
  {
    StepInv(d.cells[i], d.frontier, Visit);
    VisitAccount(d, i);
  }

  lemma VisitOk(d: Db, i: nat)
    requires DbInv(d) && Can(d, VisitCell(i))
    ensures DbInv(After(d, VisitCell(i)))
  {
    var d' := After(d, VisitCell(i));
    assert CellOk(d, i);
    VisitCellOk(d, i);
    forall j: nat | j < |d'.cells| ensures CellOk(d', j) {
      assert CellOk(d, j);
      if j != i {
        VisitOther(d, i, j);
      }
    }
    forall id | id in d.latches && d.latches[id].granted ensures GuardsFrom(d', d'.latches[id].position) {
      VisitGuards(d, i, d.latches[id].position);
    }
  }

  lemma StoredCellOk(d: Db, j: nat)
    requires DbInv(d) && Can(d, Store) && !Regresses(d) && j < |d.cells|
    ensures CellOk(After(d, Store), j)
  {
    assert CellOk(d, j);
  }

  /** A store keeps the invariant whether its assertion fires or not. */
  lemma StoreOk(d: Db)
    requires DbInv(d) && Can(d, Store)
    ensures DbInv(After(d, Store))
  {
    var d' := After(d, Store);
    forall j: nat | j < |d'.cells| ensures CellOk(d', j) {
      if Regresses(d) {
        assert CellOk(d, j);
        Untouched(d, d', j);
      } else {
        StoredCellOk(d, j);
      }
    }
  }

  lemma CrashOk(d: Db, cut: nat)
    requires DbInv(d) && Can(d, Crash(cut))
    ensures DbInv(After(d, Crash(cut)))
  {
    var d' := After(d, Crash(cut));
    forall j: nat | j < |d'.cells| ensures CellOk(d', j) {
      assert CellOk(d, j);
      RestartInv(d.cells[j], RecAt(d.stored, j), d.stored.from, d.stored.upto, cut);
      RecCut(RecAt(d.stored, j), d.stored.from, d.cells[j].log, d.stored.upto, cut);
    }
  }

  lemma RecCut(rec: Rec, r: nat, log: Log, upto: nat, cut: nat)
    requires RecOk(rec, r, log, upto) && upto <= cut
    ensures RecOk(rec, r, Upto(log, cut), upto)
  {
    var w := Upto(log, cut);
    forall k ensures RecKey(rec, r, w, upto, k) {
      assert RecKey(rec, r, log, upto, k);
      var b :| && r <= b <= upto
               && (NonEmpty(rec.image) ==> rec.lastProcessed <= b)
               && DiskVal(rec.image, k) == AsOf(log, k, b);
      SameBelow(w, log, k, b);
      assert DiskVal(rec.image, k) == AsOf(w, k, b);
    }
  }

  lemma WalEventOk(d: Db, e: Event)
    requires DbInv(d) && Can(d, e)
    requires e.Write? || e.Seal? || e.Advance?
    ensures DbInv(After(d, e))
  {
    match e
    case Write(i, k, del) => WriteOk(d, i, k, del);
    case Seal(len) => SealOk(d, len);
    case Advance(to) => AdvanceOk(d, to);
  }

  lemma RebuildEventOk(d: Db, e: Event)
    requires DbInv(d) && Can(d, e)
    requires e.PassFlush? || e.PassRelocate? || e.VisitCell? || e.Sync? || e.Store?
    ensures DbInv(After(d, e))
  {
    match e
    case PassFlush(_, i) => SteppedOk(d, i, RequestFlush);
    case PassRelocate(i) => SteppedOk(d, i, RequestRelocate);
    case VisitCell(i) => VisitOk(d, i);
    case Sync => SyncOk(d);
    case Store => StoreOk(d);
  }

  /** Every event keeps the invariant. */
  lemma EventOk(d: Db, e: Event)
    requires DbInv(d) && Can(d, e)
    ensures DbInv(After(d, e))
  {
    if e.On? {
      SteppedOk(d, e.i, e.step);
    } else if e.Begin? || e.CallBarrier? || e.Lock? || e.CallSettle? || e.StartWalk? {
      RebuildOk(d, e);
    } else if e.PassFlush? || e.PassRelocate? || e.VisitCell? || e.Sync? || e.Store? {
      RebuildEventOk(d, e);
    } else if e.Crash? {
      CrashOk(d, e.cut);
    } else if e.Take? || e.Grant? || e.Release? {
      LatchOk(d, e);
    } else {
      WalEventOk(d, e);
    }
  }

  lemma {:induction false} RunOk(d: Db, es: seq<Event>, d': Db)
    requires DbInv(d) && Run(d, es, d')
    ensures DbInv(d')
    decreases |es|
  {
    if es != [] {
      EventOk(d, es[0]);
      RunOk(After(d, es[0]), es[1..], d');
    }
  }

  lemma ReachableOk(d: Db)
    requires Reachable(d)
    ensures DbInv(d)
  {
    var keep, es :| Run(Fresh(keep), es, d);
    FreshOk(keep);
    RunOk(Fresh(keep), es, d);
  }

  // ---- what a run promises ----

  /** Whatever rebuilds overlap, no panic arm of a cell is reachable. */
  lemma ReachableNeverPanics(d: Db, i: nat, s: Step)
    requires Reachable(d) && i < |d.cells| && Enabled(d.cells[i], d.frontier, s)
    ensures !Panics(d.cells[i], s)
  {
    ReachableOk(d);
    assert CellOk(d, i);
    NeverPanics(d.cells[i], d.frontier, s);
  }

  /** In every reachable state the label of a cell tells what it holds, and a flush in flight keeps it dirty. */
  lemma StateMachine(d: Db, i: nat)
    requires Reachable(d) && i < |d.cells|
    ensures var x := d.cells[i];
            && (x.cell.state.Empty? ==>
                  x.cell.image == NO_LEVELS && x.cell.table == EMPTY_TABLE && x.applied == map[] && x.job.NoJob?)
            && (x.cell.state.Unloaded? ==> x.cell.table == EMPTY_TABLE)
            && (x.cell.state.DirtyUnloaded? ==> NonEmpty(x.cell.image))
            && (!IsDirty(x.cell.state) ==> (x.cell.state.Empty? <==> !NonEmpty(x.cell.image)))
            && (x.job.Flush? ==> IsDirty(x.cell.state))
            && (x.cell.pending.Some? <==> !x.job.NoJob?)
  {
    ReachableOk(d);
    assert CellOk(d, i);
  }

  /** A live read, which first drains the committed operations, returns the newest acknowledged write. */
  lemma LiveReads(d: Db, i: nat, k: Key)
    requires Reachable(d) && i < |d.cells| && d.cells[i].ready == {}
    ensures Read(d.cells[i].cell, k, INVALID_OFFSET) == AsOf(Acknowledged(d.cells[i]), k, INVALID_OFFSET)
  {
    ReachableOk(d);
    assert CellOk(d, i);
    ReadsAsOf(d.cells[i], d.frontier, k, INVALID_OFFSET);
    SameBelow(d.cells[i].applied, Acknowledged(d.cells[i]), k, INVALID_OFFSET);
  }

  /** While a latch is held nothing below it is ever added to any cell's history. */
  lemma {:induction false} LatchHeld(d: Db, es: seq<Event>, d': Db, id: nat)
    requires DbInv(d) && Run(d, es, d') && id in d.latches && d.latches[id].granted
    requires forall e | e in es :: !e.Crash? && e != Release(id)
    ensures DbInv(d') && id in d'.latches && d'.latches[id] == d.latches[id] && |d'.cells| == |d.cells|
    ensures forall i: nat | i < |d.cells| ::
              Upto(d'.cells[i].log, d.latches[id].position) == Upto(d.cells[i].log, d.latches[id].position)
    decreases |es|
  {
    if es != [] {
      var m := After(d, es[0]);
      EventOk(d, es[0]);
      assert es[0] in es;
      LatchKept(d, es[0], id);
      LatchHeld(m, es[1..], d', id);
    }
  }

  lemma LatchKept(d: Db, e: Event, id: nat)
    requires Can(d, e) && id in d.latches && d.latches[id].granted && d.latches[id].position <= d.tail
    requires !e.Crash? && e != Release(id)
    ensures var m := After(d, e);
            && id in m.latches && m.latches[id] == d.latches[id] && |m.cells| == |d.cells|
            && forall i: nat | i < |d.cells| ::
                 Upto(m.cells[i].log, d.latches[id].position) == Upto(d.cells[i].log, d.latches[id].position)
  {
    var m := After(d, e);
    assert |m.cells| == |d.cells|;
    forall i: nat | i < |d.cells|
      ensures Upto(m.cells[i].log, d.latches[id].position) == Upto(d.cells[i].log, d.latches[id].position)
    {
      LogKept(d, e, i);
      UptoKept(d.cells[i].log, m.cells[i].log, d.tail, d.latches[id].position);
    }
  }

  lemma UptoKept(v: Log, w: Log, tail: nat, l: nat)
    requires Within(v, w) && (forall p | p in w :: p in v || tail <= p.off) && l <= tail
    ensures Upto(w, l) == Upto(v, l)
  {
  }

  /** An event adds to a cell's history at the WAL tail or not at all. */
  lemma LogKept(d: Db, e: Event, i: nat)
    requires Can(d, e) && !e.Crash? && i < |d.cells|
    ensures |After(d, e).cells| == |d.cells|
    ensures Within(d.cells[i].log, After(d, e).cells[i].log)
    ensures forall p | p in After(d, e).cells[i].log :: p in d.cells[i].log || d.tail <= p.off
  {
    match e
    case On(j, s) => StepLogs(d.cells[j], d.frontier, s);
    case PassFlush(_, j) => StepLogs(d.cells[j], d.frontier, RequestFlush);
    case PassRelocate(j) => StepLogs(d.cells[j], d.frontier, RequestRelocate);
    case VisitCell(j) => StepLogs(d.cells[j], d.frontier, Visit);
    case _ =>
  }

  /**
   Checkpoint stability: however the run goes on while the latch is held, a checkpoint read,
   which first drains the committed operations below its frontier, returns exactly the newest
   write below the latch as of the moment the checkpoint was granted.
  */
  lemma CheckpointStable(d: Db, es: seq<Event>, d': Db, id: nat, i: nat, k: Key)
    requires Reachable(d) && Run(d, es, d') && id in d.latches && d.latches[id].granted
    requires forall e | e in es :: !e.Crash? && e != Release(id)
    requires i < |d.cells| == |d'.cells|
    requires forall p | p in d'.cells[i].ready :: d.latches[id].position <= p.off
    ensures Read(d'.cells[i].cell, k, d.latches[id].position) == AsOf(d.cells[i].log, k, d.latches[id].position)
  {
    ReachableOk(d);
    LatchHeld(d, es, d', id);
    var l, x, x' := d.latches[id].position, d.cells[i], d'.cells[i];
    assert CellOk(d', i);
    ReadsAsOf(x', d'.frontier, k, l);
    assert GuardsFrom(d', l);
    SameBelow(x'.applied, x'.log, k, l);
    SameBelow(x.log, Upto(x.log, l), k, l);
    SameBelow(x'.log, Upto(x'.log, l), k, l);
  }

  /** Crash recovery: a restart gives back, for every key, exactly the history below the WAL cut. */
  lemma CrashRecovers(d: Db, cut: nat, i: nat, k: Key)
    requires Reachable(d) && Can(d, Crash(cut)) && i < |d.cells|
    ensures Read(After(d, Crash(cut)).cells[i].cell, k, INVALID_OFFSET) == AsOf(d.cells[i].log, k, cut)
  {
    ReachableOk(d);
    CrashOk(d, cut);
    var y := After(d, Crash(cut)).cells[i];
    assert CellOk(d, i);
    RestartAnswers(d.cells[i], RecAt(d.stored, i), d.stored.from, d.stored.upto, cut, k);
    assert LatestBelow(map[], k, INVALID_OFFSET) == None;
  }

  /** When the cut loses no acknowledged write and keeps no other, the live map survives the crash. */
  lemma CrashKeepsLiveMap(d: Db, cut: nat, i: nat, k: Key)
    requires Reachable(d) && Can(d, Crash(cut)) && i < |d.cells| && d.cells[i].ready == {}
    requires forall p | p in d.cells[i].log :: p.off < cut <==> p in d.cells[i].applied
    ensures Read(After(d, Crash(cut)).cells[i].cell, k, INVALID_OFFSET) == Read(d.cells[i].cell, k, INVALID_OFFSET)
  {
    ReachableOk(d);
    assert CellOk(d, i);
    var x := d.cells[i];
    CrashRecovers(d, cut, i, k);
    ReadsAsOf(x, d.frontier, k, INVALID_OFFSET);
    SameBelow(x.log, x.applied, k, cut);
    QuietBetween(x.applied, k, cut, INVALID_OFFSET);
  }
}
