/** Every step of a cell's life keeps the invariant, and the invariant gives reads their meaning. */
module CellInvariant {
  import opened Bytes
  import opened IndexTable
  import opened CellSpec
  import opened Protocol

  // ---- history lemmas ----

  /** Two histories that agree on `k` below `b` answer alike. */
  lemma SameBelow(v: Log, w: Log, k: Key, b: nat)
    requires forall p | p in v && p.key == k && p.off < b :: p in w && v[p] == w[p]
    requires forall p | p in w && p.key == k && p.off < b :: p in v
    ensures Latest(v, k, b) == Latest(w, k, b)
  {
  }

  /** With nothing written in between, the bound may move. */
  lemma QuietBetween(w: Log, k: Key, a: nat, b: nat)
    requires a <= b
    requires forall p | p in w && p.key == k && a <= p.off :: b <= p.off
    ensures Latest(w, k, a) == Latest(w, k, b)
  {
  }

  /** A late write never takes an answer out of history: it only moves the bound down to itself. */
  lemma InsertKeeps(w: Log, p: At, del: bool, k: Key, b: nat) returns (m: nat)
    requires p !in w
    ensures AsOf(w[p := del], k, m) == AsOf(w, k, b)
    ensures m == b || (p.key == k && m == p.off < b)
  {
    var w' := w[p := del];
    m := b;
    if p.key == k && p.off < b && LatestBelow(w', k, b) == Some(p.off) {
      m := p.off;
      QuietBetween(w, k, p.off, b);
      SameBelow(w', w, k, p.off);
    } else {
      assert LatestBelow(w', k, b) == LatestBelow(w, k, b);
    }
  }

  // ---- reads ----

  /** The value `k` reads with a bound `b` at or past a cut is the one history gives. */
  lemma CutAnswers(x: Ctx, f: nat, k: Key, c: nat, m: nat, b: nat)
    requires Within(x.cell.table.data, x.applied)
    requires Cut(x, f, k, c, m) && f <= b
    ensures View(Or(Latest(x.cell.table.data, k, b), Or(Find(x.cell.table.flat, k), BelowTable(x.cell, k))))
         == AsOf(x.applied, k, b)
  {
    var d, w := LatestBelow(x.cell.table.data, k, b), LatestBelow(x.applied, k, b);
    if d.None? {
      QuietBetween(x.applied, k, m, b);
    } else {
      assert d == w;
    }
  }

  /** Any read at or above the frontier, live reads included, returns the latest applied write below its bound. */
  lemma ReadsAsOf(x: Ctx, f: nat, k: Key, b: nat)
    requires Inv(x, f) && f <= b
    ensures Read(x.cell, k, b) == AsOf(x.applied, k, b)
  {
    assert KeyOk(x, Seen(x, f), k);
    var c, m :| Cut(x, Seen(x, f), k, c, m);
    CutAnswers(x, Seen(x, f), k, c, m, b);
  }

  /** Only clean cells are Empty iff they have no levels: the first write of any cell breaks the equivalence. */
  lemma FirstWriteHasNoLevels(p: At, del: bool, frontier: nat)
    ensures var c := Write(NEW_CELL, p, del, frontier); c.state.DirtyLoaded? && !NonEmpty(c.image)
  {
  }

  /** No assertion or panic arm of a cell is reachable. */
  lemma NeverPanics(x: Ctx, f: nat, s: Step)
    requires Inv(x, f) && Enabled(x, f, s)
    ensures !Panics(x, s)
  {
  }

  // ---- every step keeps the invariant ----

  lemma InitInv(keepLoaded: bool, f: nat)
    ensures Inv(NewCtx(keepLoaded), f)
  {
    var x := NewCtx(keepLoaded);
    forall k ensures KeyOk(x, f, k) {
      assert Cut(x, f, k, 0, 0);
    }
  }

  /** The frontier may pass everything but the guards of in-flight writes. */
  lemma FrontierInv(x: Ctx, f: nat, g: nat)
    requires Inv(x, f) && f <= g
    requires forall p | p in x.log && p !in x.applied && p !in x.ready :: g <= p.off
    ensures Inv(x, g)
  {
    CarryOver(x, x, f, Seen(x, f), Seen(x, g));
    DiskLater(x, f, g);
    if x.section.Free? {
      CleanLater(x, f, g);
    }
  }

  lemma DiskLater(x: Ctx, f: nat, g: nat)
    requires f <= g && (!x.cell.state.Empty? ==> forall k :: DiskOk(x, f, k))
    ensures !x.cell.state.Empty? ==> forall k :: DiskOk(x, g, k)
  {
    if !x.cell.state.Empty? {
      forall k ensures DiskOk(x, g, k) {
        assert DiskOk(x, f, k);
      }
    }
  }

  lemma CleanLater(x: Ctx, f: nat, g: nat)
    requires f <= g && CleanOk(x, f)
    ensures CleanOk(x, g)
  {
    if IsClean(x.cell.state) {
      forall k ensures DiskVal(x.cell.image, k) == AsOf(x.applied, k, g) {
        QuietBetween(x.applied, k, f, g);
      }
    }
  }

  /** Whatever leaves history, table, levels and state alone keeps every key's facts. */
  lemma CarryOver(x: Ctx, y: Ctx, f: nat, s: nat, t: nat)
    requires y.log == x.log && y.applied == x.applied
    requires y.cell.table == x.cell.table && y.cell.image == x.cell.image && y.cell.state == x.cell.state
    requires y.cell.lastProcessed == x.cell.lastProcessed
    requires s <= t
    requires forall k :: KeyOk(x, s, k)
    requires !x.cell.state.Empty? ==> forall k :: DiskOk(x, f, k)
    ensures forall k :: KeyOk(y, t, k)
    ensures !x.cell.state.Empty? ==> forall k :: DiskOk(y, f, k)
  {
    forall k ensures KeyOk(y, t, k) {
      assert KeyOk(x, s, k);
      var c, b :| Cut(x, s, k, c, b);
      assert Cut(y, t, k, c, b);
    }
    if !x.cell.state.Empty? {
      forall k ensures DiskOk(y, f, k) {
        assert DiskOk(x, f, k);
      }
    }
  }

  lemma AppendCut(x: Ctx, f: nat, p: At, del: bool, k: Key)
    requires p !in x.log && f <= p.off && KeyOk(x, f, k)
    ensures KeyOk(x.(log := x.log[p := del]), f, k)
  {
    var y := x.(log := x.log[p := del]);
    var c, b :| Cut(x, f, k, c, b);
    assert Cut(y, f, k, c, b);
  }

  /** A job looks only at the cell and at where unapplied writes may still land. */
  lemma JobCarries(x: Ctx, y: Ctx, f: nat)
    requires JobOk(x, f)
    requires y.job == x.job && y.cell == x.cell && y.applied == x.applied
    requires !x.job.NoJob? ==> UnappliedFrom(y, x.job.at) && x.job.at <= Seen(y, f)
    ensures JobOk(y, f)
  {
    if y.job.Flush? {
      forall k ensures Tracks(y, k) {
        assert Tracks(x, k);
      }
    }
  }

  lemma AppendInv(x: Ctx, f: nat, p: At, del: bool)
    requires Inv(x, f) && p !in x.log && f <= p.off < INVALID_OFFSET
    ensures Inv(x.(log := x.log[p := del]), f)
  {
    var y := x.(log := x.log[p := del]);
    forall k ensures KeyOk(y, Seen(y, f), k) {
      AppendCut(x, Seen(x, f), p, del, k);
    }
    if !x.cell.state.Empty? {
      forall k ensures DiskOk(y, f, k) {
        assert DiskOk(x, f, k);
      }
    }
    JobCarries(x, y, f);
  }

  /** Steps that touch neither the history nor the cell. */
  lemma SameCellInv(x: Ctx, y: Ctx, f: nat)
    requires Inv(x, f)
    requires y == x.(ready := y.ready, section := y.section)
    requires LogsOk(y, f) && SectionOk(y, f)
    requires y.section.Free? || y.section.front == Seen(x, f)
    ensures Inv(y, f)
  {
    CarryOver(x, y, f, Seen(x, f), Seen(y, f));
    JobCarries(x, y, f);
    if IsClean(x.cell.state) {
      forall k ensures DiskVal(y.cell.image, k) == AsOf(y.applied, k, Seen(y, f)) {
        QuietBetween(x.applied, k, Seen(x, f), Seen(y, f));
      }
    }
  }

  /** A write reaching the table, however stale, keeps every key's cut. */
  lemma ApplyCut(x: Ctx, f: nat, s: nat, p: At, k: Key)
    requires LogsOk(x, f) && p in x.log && p !in x.applied
    requires KeyOk(x, s, k)
    ensures KeyOk(Applied(x, p, f), s, k)
  {
    var y := Applied(x, p, f);
    var c, b :| Cut(x, s, k, c, b);
    var m := InsertKeeps(x.applied, p, x.log[p], k, b);
    assert Base(y.cell, k) == Base(x.cell, k);
    assert Cut(y, s, k, c, m);
  }

  /** Marking a cell dirty lowers its durable frontier far enough for the write that dirtied it. */
  lemma ApplyDisk(x: Ctx, f: nat, p: At, k: Key)
    requires LogsOk(x, f) && p in x.log && p !in x.applied && Shape(x.cell)
    requires !x.cell.state.Empty? ==> DiskOk(x, f, k)
    ensures DiskOk(Applied(x, p, f), f, k)
  {
    var y := Applied(x, p, f);
    if x.cell.state.Empty? {
      assert AsOf(y.applied, k, y.cell.lastProcessed) == None;
    } else {
      var b :| x.cell.lastProcessed <= b <= f && DiskVal(x.cell.image, k) == AsOf(x.applied, k, b);
      var m := InsertKeeps(x.applied, p, x.log[p], k, b);
    }
  }

  lemma ApplyJob(x: Ctx, f: nat, p: At)
    requires Inv(x, f) && p in x.log && p !in x.applied
    ensures JobOk(Applied(x, p, f), f)
  {
    var y := Applied(x, p, f);
    if !x.job.NoJob? {
      forall k ensures AsOf(y.applied, k, x.job.at) == AsOf(x.applied, k, x.job.at) {
        SameBelow(y.applied, x.applied, k, x.job.at);
      }
    }
    if x.job.Flush? {
      forall k ensures Tracks(y, k) {
        assert Tracks(x, k);
      }
    }
  }

  lemma ApplyInv(x: Ctx, f: nat, p: At)
    requires Inv(x, f) && p in x.log && p !in x.applied && !x.section.Drained?
    ensures Inv(Applied(x, p, f), f)
  {
    var y := Applied(x, p, f);
    ApplyJob(x, f, p);
    forall k ensures KeyOk(y, Seen(x, f), k) {
      ApplyCut(x, f, Seen(x, f), p, k);
    }
    forall k ensures DiskOk(y, f, k) {
      ApplyDisk(x, f, p, k);
    }
  }

  /** Sharing the table for a snapshot changes nothing a reader or a job can see. */
  lemma ShareInv(x: Ctx, f: nat)
    requires Inv(x, f)
    ensures Inv(x.(cell := Share(x.cell)), f)
  {
    var y := x.(cell := Share(x.cell));
    CarryOver(x, y, f, Seen(x, f), Seen(y, f));
    if y.job.Flush? {
      forall k ensures Tracks(y, k) {
        assert Tracks(x, k);
      }
    }
  }

  lemma BeginPromotion(x: Ctx, f: nat, pr: Option<Promotion>)
    requires Inv(x, f) && PromotionOk(x.(promotion := pr), f)
    ensures Inv(x.(promotion := pr), f)
  {
    var y := x.(promotion := pr);
    CarryOver(x, y, f, Seen(x, f), Seen(y, f));
    JobCarries(x, y, f);
  }

  lemma FlatBeginInv(x: Ctx, f: nat)
    requires Inv(x, f) && Enabled(x, f, FlatBegin)
    ensures Inv(Next(x, f, FlatBegin), f)
  {
    ShareInv(x, f);
    var y := x.(cell := Share(x.cell));
    var z := Next(x, f, FlatBegin);
    BeginPromotion(y, f, z.promotion);
    SameCellInv(y.(promotion := z.promotion), z, f);
  }

  /** What a promotion from `t` to `r` does to one key: all of its positions move, or none does. */
  predicate KeyMoved(t: Table, r: Table, threshold: nat, k: Key) {
    if Promotable(t.data, k, threshold) then
      && (forall p | p in r.data :: p.key != k)
      && Latest(t.data, k, threshold).Some?
      && Find(r.flat, k) == Latest(t.data, k, threshold)
    else
      && (forall p | p in t.data && p.key == k :: p in r.data)
      && (forall p | p in r.data && p.key == k :: p in t.data)
      && Find(r.flat, k) == Find(t.flat, k)
  }

  lemma PromotedKey(t: Table, threshold: nat, k: Key)
    ensures KeyMoved(t, PromoteToFlat(t, threshold), threshold, k)
  {
    if Promotable(t.data, k, threshold) {
      var p :| p in t.data && p.key == k;
    }
  }

  lemma PromotedCut(x: Ctx, y: Ctx, f: nat, t: nat, k: Key)
    requires y.log == x.log && y.applied == x.applied
    requires y.cell.image == x.cell.image && y.cell.state == x.cell.state
    requires KeyMoved(x.cell.table, y.cell.table, t, k)
    requires Within(x.cell.table.data, x.applied) && t <= f && UnappliedFrom(x, t)
    requires KeyOk(x, f, k)
    ensures KeyOk(y, f, k)
  {
    var c, b :| Cut(x, f, k, c, b);
    if Promotable(x.cell.table.data, k, t) {
      MovedHistory(x, f, t, k, c, b);
      assert Cut(y, f, k, t, t);
    } else {
      assert Cut(y, f, k, c, b);
    }
  }

  /** The buffer of a promotable key holds the newest of its history, all of it below the threshold. */
  lemma MovedHistory(x: Ctx, f: nat, t: nat, k: Key, c: nat, b: nat)
    requires Within(x.cell.table.data, x.applied)
    requires Cut(x, f, k, c, b)
    requires Promotable(x.cell.table.data, k, t)
    ensures forall p | p in x.applied && p.key == k :: p.off < t
    ensures Latest(x.cell.table.data, k, t) == Latest(x.applied, k, t)
  {
    var p :| p in x.cell.table.data && p.key == k;
    assert c <= p.off < t;
    assert LatestBelow(x.cell.table.data, k, t) == LatestBelow(x.applied, k, t);
  }

  lemma PromotedTracks(x: Ctx, t: nat, k: Key)
    requires x.job.Flush? && t <= x.job.at
    requires Within(x.cell.table.data, x.applied) && Within(x.job.original.data, x.applied)
    requires Tracks(x, k)
    ensures Tracks(x.(cell := Own(x.cell, PromoteToFlat(x.cell.table, t))), k)
  {
    PromotedKey(x.cell.table, t, k);
    if Promotable(x.cell.table.data, k, t) {
      var p :| p in x.cell.table.data && p.key == k;
      assert p.off < t;
      SameBelow(x.cell.table.data, x.job.original.data, k, x.job.at);
      QuietBetween(x.cell.table.data, k, t, x.job.at);
    }
  }

  lemma FlatEndInv(x: Ctx, f: nat)
    requires Inv(x, f) && Enabled(x, f, FlatEnd)
    ensures Inv(Next(x, f, FlatEnd), f)
  {
    var pr := x.promotion.value;
    if x.cell.arc == Some(pr.arc) {
      var y := x.(cell := Own(x.cell, PromoteToFlat(x.cell.table, pr.threshold)));
      forall k ensures KeyOk(y, f, k) {
        PromotedKey(x.cell.table, pr.threshold, k);
        PromotedCut(x, y, f, pr.threshold, k);
      }
      if x.job.Flush? {
        forall k ensures Tracks(y, k) {
          PromotedTracks(x, pr.threshold, k);
        }
      }
      PromotedInv(x, y, f, pr.threshold);
      BeginPromotion(y, f, None);
    } else {
      BeginPromotion(x, f, None);
    }
  }

  lemma PromotedInv(x: Ctx, y: Ctx, f: nat, t: nat)
    requires Inv(x, f) && x.section.Free?
    requires y == x.(cell := Own(x.cell, PromoteToFlat(x.cell.table, t)))
    requires x.promotion.Some? && x.promotion.value.threshold == t
    requires forall k :: KeyOk(y, f, k)
    requires x.job.Flush? ==> forall k :: Tracks(y, k)
    ensures Inv(y, f)
  {
    if !x.job.NoJob? {
      forall p | p in x.applied && x.job.at <= p.off ensures p in y.cell.table.data {
        assert p in x.cell.table.data && t <= x.job.at;
      }
    }
    if !x.cell.state.Empty? {
      forall k ensures DiskOk(y, f, k) {
        assert DiskOk(x, f, k);
      }
    }
  }

  /** Folding the overlay onto L0 moves L0's entries from the levels into the table's base. */
  lemma LoadKeeps(c: Cell, k: Key)
    ensures Base(Load(c), k) == Base(c, k)
    ensures Load(c).table.data == c.table.data
  {
  }

  lemma LoadInv(x: Ctx, f: nat)
    requires Inv(x, f) && Enabled(x, f, LoadL0)
    ensures Inv(Next(x, f, LoadL0), f)
  {
    var y := Next(x, f, LoadL0);
    if y != x {
      forall k ensures KeyOk(y, f, k) {
        assert KeyOk(x, f, k);
        var c, b :| Cut(x, f, k, c, b);
        LoadKeeps(x.cell, k);
        assert Cut(y, f, k, c, b);
      }
      forall k ensures DiskOk(y, f, k) {
        assert DiskOk(x, f, k);
      }
    }
  }

  // ---- flush ----

  /** A snapshot taken in a drained section answers every key as of the section's frontier. */
  lemma SnapshotAnswers(x: Ctx, f: nat, k: Key)
    requires Inv(x, f) && x.section.Drained? && IsDirty(x.cell.state)
    ensures SnapshotVal(x.cell.image, x.cell.table, x.cell.state.DirtyLoaded?, x.section.front, k)
         == AsOf(x.applied, k, x.section.front)
  {
    var at := x.section.front;
    assert KeyOk(x, at, k);
    var c, b :| Cut(x, at, k, c, b);
    CutAnswers(x, at, k, c, b, at);
  }

  lemma SnapshotBuffered(x: Ctx, f: nat)
    requires Inv(x, f) && x.section.Drained?
    ensures Buffered(x, x.section.front)
  {
    forall p | p in x.applied && x.section.front <= p.off ensures p in x.cell.table.data {
      assert KeyOk(x, x.section.front, p.key);
      var c, b :| Cut(x, x.section.front, p.key, c, b);
    }
  }

  lemma RequestFlushInv(x: Ctx, f: nat)
    requires Inv(x, f) && Enabled(x, f, RequestFlush)
    ensures Inv(Next(x, f, RequestFlush), f)
  {
    ShareInv(x, f);
    var y := x.(cell := Share(x.cell));
    SnapshotBuffered(y, f);
    var z := Next(x, f, RequestFlush);
    forall k
      ensures SnapshotVal(z.job.image, z.job.original, z.job.loaded, z.job.at, k) == AsOf(z.applied, k, z.job.at)
    {
      SnapshotAnswers(y, f, k);
    }
    CarryOver(y, z, f, Seen(y, f), f);
    assert forall k :: Tracks(z, k);
  }

  lemma ExecuteFlushInv(x: Ctx, f: nat, out: Image)
    requires Inv(x, f) && Enabled(x, f, ExecuteFlush(out))
    ensures Inv(Next(x, f, ExecuteFlush(out)), f)
  {
    var y := Next(x, f, ExecuteFlush(out));
    CarryOver(x, y, f, Seen(x, f), Seen(y, f));
    forall k ensures Tracks(y, k) {
      assert Tracks(x, k);
    }
  }

  /** The flushed levels answer `k` as of some point between the request and the execution. */
  lemma FlushedAnswers(x: Ctx, f: nat, k: Key) returns (b: nat)
    requires Inv(x, f) && x.job.Flush? && x.job.out.Some?
    ensures x.job.at <= b <= f
    ensures DiskVal(x.job.out.value.1, k) == AsOf(x.applied, k, b)
    ensures InLevel(x.job.out.value.1.l0, k).None?
        ==> View(InLevel(x.job.out.value.1.below, k)) == AsOf(x.applied, k, b)
  {
    var j := x.job;
    var (fe, out) := j.out.value;
    assert FlushedAt(j.image, j.original, j.loaded, fe, out, k);
    assert SnapshotVal(j.image, j.original, j.loaded, j.at, k) == AsOf(x.applied, k, j.at);
    var m := LatestBelow(j.original.data, k, fe);
    if m.Some? && j.at <= m.value {
      b := m.value + 1;
      assert LatestBelow(x.applied, k, b) == m;
    } else {
      b := j.at;
      QuietAt(j.original.data, k, j.at, fe);
    }
  }

  lemma QuietAt(w: Log, k: Key, a: nat, b: nat)
    requires a <= b
    requires LatestBelow(w, k, b).None? || LatestBelow(w, k, b).value < a
    ensures Latest(w, k, a) == Latest(w, k, b)
  {
  }

  /** The levels `img` answer `k` as of some point between the job's request and now. */
  ghost predicate Answered(x: Ctx, img: Image, f: nat, k: Key)
    requires !x.job.NoJob?
  {
    exists b :: x.job.at <= b <= f && DiskVal(img, k) == AsOf(x.applied, k, b)
  }

  /** `t` keeps exactly the writes of `live` at or above `f`, and no base. */
  predicate RetainedTable(live: Table, t: Table, f: nat) {
    && t.flat == map[]
    && (forall p | p in t.data :: p in live.data && t.data[p] == live.data[p] && f <= p.off)
    && (forall p | p in live.data && f <= p.off :: p in t.data)
  }

  /** A completion that unloads the cell over levels holding everything below the job's frontier. */
  predicate Unloads(x: Ctx, y: Ctx)
    requires !x.job.NoJob?
  {
    && y == x.(cell := y.cell, job := NoJob)
    && y.cell.pending == None && y.cell.lastProcessed == x.job.at
    && y.cell.arc == None && y.cell.nextArc == x.cell.nextArc
    && RetainedTable(x.cell.table, y.cell.table, x.job.at)
    && (y.cell.state.DirtyUnloaded? || (y.cell.state.Unloaded? && y.cell.table == EMPTY_TABLE))
    && NonEmpty(y.cell.image) && (y.cell.image.sharded ==> y.cell.image.below.Some?)
  }

  lemma UnloadedCut(x: Ctx, y: Ctx, f: nat, k: Key)
    requires !x.job.NoJob? && Unloads(x, y) && Answered(x, y.cell.image, f, k)
    requires UnappliedFrom(x, x.job.at) && Buffered(x, x.job.at)
    ensures KeyOk(y, f, k) && DiskOk(y, f, k)
  {
    var b :| x.job.at <= b <= f && DiskVal(y.cell.image, k) == AsOf(x.applied, k, b);
    assert Cut(y, f, k, x.job.at, b);
  }

  lemma UnloadedClean(x: Ctx, y: Ctx, f: nat, k: Key)
    requires !x.job.NoJob? && Unloads(x, y) && Answered(x, y.cell.image, f, k)
    requires Buffered(x, x.job.at) && y.cell.table == EMPTY_TABLE
    ensures forall p | p in x.applied :: p.off < x.job.at
    ensures DiskVal(y.cell.image, k) == AsOf(y.applied, k, f)
  {
    assert forall p | p in x.applied && x.job.at <= p.off :: p in y.cell.table.data;
    var b :| x.job.at <= b <= f && DiskVal(y.cell.image, k) == AsOf(x.applied, k, b);
    QuietBetween(x.applied, k, b, f);
  }

  lemma UnloadsInv(x: Ctx, y: Ctx, f: nat)
    requires Inv(x, f) && x.section.Free? && !x.job.NoJob? && Unloads(x, y)
    requires forall k :: Answered(x, y.cell.image, f, k)
    ensures Inv(y, f)
  {
    forall k ensures KeyOk(y, f, k) && DiskOk(y, f, k) {
      UnloadedCut(x, y, f, k);
    }
    if y.cell.state.Unloaded? {
      forall k ensures DiskVal(y.cell.image, k) == AsOf(y.applied, k, f) {
        UnloadedClean(x, y, f, k);
      }
      UnloadedClean(x, y, f, []);
    }
  }

  /** Unmerging leaves exactly the writes at or above the flush frontier, and nothing in `flat`. */
  lemma UnmergedTable(x: Ctx, f: nat)
    requires JobOk(x, f) && x.job.Flush?
    requires Within(x.cell.table.data, x.applied)
    ensures RetainedTable(x.cell.table, UnmergeFlushed(x.cell.table, x.job.original, x.job.at), x.job.at)
  {
    var t := UnmergeFlushed(x.cell.table, x.job.original, x.job.at);
    forall p | p in t.data ensures x.job.at <= p.off {
      assert Tracks(x, p.key);
    }
    forall k ensures k !in t.flat {
      assert Tracks(x, k);
      if k in t.flat {
        UnmergedFlat(x, k);
      }
    }
  }

  lemma UnmergedFlat(x: Ctx, k: Key)
    requires x.job.Flush? && Tracks(x, k) && k in x.cell.table.flat
    ensures k !in UnmergeFlushed(x.cell.table, x.job.original, x.job.at).flat
  {
    var live, orig, at := x.cell.table, x.job.original, x.job.at;
    if Find(live.flat, k) != Find(orig.flat, k) {
      var gone: Log := map p | p in orig.data && p !in live.data :: orig.data[p];
      assert LatestBelow(gone, k, at) == LatestBelow(orig.data, k, at);
    }
  }

  lemma FlushedAnswered(x: Ctx, f: nat)
    requires Inv(x, f) && x.job.Flush? && x.job.out.Some?
    ensures forall k :: Answered(x, x.job.out.value.1, f, k)
  {
    forall k ensures Answered(x, x.job.out.value.1, f, k) {
      var b := FlushedAnswers(x, f, k);
    }
  }

  /** Completion over a table that changed since the snapshot, or of a cell that unloads. */
  lemma CompleteUnloadInv(x: Ctx, f: nat)
    requires Inv(x, f) && x.section.Free? && x.job.Flush? && x.job.out.Some?
    requires x.cell.arc == Some(x.job.arc) ==> !(IsLoaded(x.cell.state) && x.keepLoaded)
    ensures var c := UpdateFlushed(x.cell, x.job.arc, x.job.original, x.job.out.value.1, x.keepLoaded);
            Inv(x.(cell := c, job := NoJob), f)
  {
    var c := UpdateFlushed(x.cell, x.job.arc, x.job.original, x.job.out.value.1, x.keepLoaded);
    var y := x.(cell := c, job := NoJob);
    FlushedAnswered(x, f);
    if x.cell.arc != Some(x.job.arc) {
      UnmergedTable(x, f);
    }
    assert Unloads(x, y);
    UnloadsInv(x, y, f);
  }

  /** A kept table over the flushed levels: what the flush pushed below L0 the buffer still holds. */
  lemma KeptCut(x: Ctx, y: Ctx, f: nat, fe: nat, k: Key)
    requires y.log == x.log && y.applied == x.applied && Within(x.cell.table.data, x.applied)
    requires y.cell.table == x.cell.table && IsLoaded(x.cell.state) && IsLoaded(y.cell.state)
    requires fe <= f && FlushedAt(x.cell.image, x.cell.table, true, fe, y.cell.image, k)
    requires KeyOk(x, f, k)
    ensures KeyOk(y, f, k)
  {
    var c, b :| Cut(x, f, k, c, b);
    if Base(y.cell, k) == Base(x.cell, k) {
      assert Cut(y, f, k, c, b);
    } else {
      var m := LatestBelow(x.cell.table.data, k, fe);
      assert LatestBelow(x.applied, k, m.value + 1) == m;
      assert Cut(y, f, k, c, m.value + 1);
    }
  }

  /** What cleaning does to one key: a live newest position survives alone, a tombstone takes all with it. */
  predicate KeyCleaned(t: Table, r: Table, k: Key) {
    var m := LatestBelow(t.data, k, INVALID_OFFSET);
    if m.None? then
      && (forall p | p in r.data :: p.key != k)
      && View(Find(r.flat, k)) == View(Find(t.flat, k))
    else if t.data[At(k, m.value)] then
      && (forall p | p in r.data :: p.key != k)
      && Find(r.flat, k) == None
    else
      At(k, m.value) in r.data && forall p | p in r.data && p.key == k :: p.off == m.value
  }

  lemma CleanedKey(t: Table, k: Key)
    requires forall p | p in t.data :: p.off < INVALID_OFFSET
    ensures KeyCleaned(t, CleanSelf(t), k)
  {
  }

  /** Cleaning a fully processed table with nothing below L0 loses no answer. */
  lemma CleanedCut(x: Ctx, y: Ctx, f: nat, at: nat, k: Key)
    requires y.log == x.log && y.applied == x.applied && Within(x.cell.table.data, x.applied)
    requires UnappliedFrom(x, at) && at <= f
    requires forall p | p in x.applied :: p.off < at && p.off < INVALID_OFFSET
    requires KeyCleaned(x.cell.table, y.cell.table, k)
    requires IsLoaded(x.cell.state) && IsLoaded(y.cell.state)
    requires y.cell.image == x.cell.image && y.cell.image.below.None?
    requires KeyOk(x, f, k)
    ensures KeyOk(y, f, k)
  {
    var c, b :| Cut(x, f, k, c, b);
    if Latest(x.cell.table.data, k, INVALID_OFFSET).None? {
      assert Cut(y, f, k, c, b);
    } else {
      NewestBuffered(x, f, at, k, c, b);
      CleanedNewest(x, y, f, at, k);
    }
  }

  lemma CleanedNewest(x: Ctx, y: Ctx, f: nat, at: nat, k: Key)
    requires y.log == x.log && y.applied == x.applied && UnappliedFrom(x, at) && at <= f
    requires forall p | p in x.applied :: p.off < at
    requires KeyCleaned(x.cell.table, y.cell.table, k)
    requires IsLoaded(y.cell.state) && y.cell.image.below.None?
    requires Latest(x.cell.table.data, k, INVALID_OFFSET).Some?
    requires Latest(x.applied, k, at) == Latest(x.cell.table.data, k, INVALID_OFFSET)
    ensures KeyOk(y, f, k)
  {
    var m := LatestBelow(x.cell.table.data, k, INVALID_OFFSET).value;
    if x.cell.table.data[At(k, m)] {
      assert Cut(y, f, k, at, at);
    } else {
      assert Cut(y, f, k, m, m + 1);
    }
  }

  lemma NewestBuffered(x: Ctx, f: nat, at: nat, k: Key, c: nat, b: nat)
    requires Within(x.cell.table.data, x.applied) && Cut(x, f, k, c, b)
    requires forall p | p in x.applied :: p.off < at && p.off < INVALID_OFFSET
    requires Latest(x.cell.table.data, k, INVALID_OFFSET).Some?
    ensures Latest(x.applied, k, at) == Latest(x.cell.table.data, k, INVALID_OFFSET)
    ensures forall p | p in x.applied && p.key == k :: p.off <= LatestBelow(x.cell.table.data, k, INVALID_OFFSET).value
  {
    var m := LatestBelow(x.cell.table.data, k, INVALID_OFFSET);
    assert LatestBelow(x.applied, k, at) == m;
  }

  /** A completion that keeps the cell loaded over the flushed levels. */
  predicate Keeps(x: Ctx, y: Ctx)
    requires x.job.Flush? && x.job.out.Some?
  {
    && y == x.(cell := y.cell, job := NoJob)
    && y.cell.pending == None && y.cell.lastProcessed == x.job.at
    && y.cell.image == x.job.out.value.1
    && (y.cell.arc == None || (y.cell.arc == x.cell.arc && y.cell.table == x.cell.table))
    && y.cell.nextArc == x.cell.nextArc
    && Within(y.cell.table.data, x.applied)
    && (y.cell.state.DirtyLoaded? || (y.cell.state.Loaded? && !HasUnprocessed(x.cell.table, x.job.at)))
  }

  lemma KeepsInv(x: Ctx, y: Ctx, f: nat)
    requires Inv(x, f) && x.section.Free? && x.job.Flush? && x.job.out.Some? && Keeps(x, y)
    requires forall k :: KeyOk(y, f, k)
    ensures Inv(y, f)
  {
    FlushedAnswered(x, f);
    forall k ensures DiskOk(y, f, k) {
      assert Answered(x, x.job.out.value.1, f, k);
    }
    if y.cell.state.Loaded? {
      forall k ensures DiskVal(y.cell.image, k) == AsOf(y.applied, k, f) {
        assert Answered(x, x.job.out.value.1, f, k);
        var b :| x.job.at <= b <= f && DiskVal(y.cell.image, k) == AsOf(x.applied, k, b);
        QuietBetween(x.applied, k, b, f);
      }
    }
  }

  lemma CompleteKeepInv(x: Ctx, f: nat)
    requires Inv(x, f) && x.section.Free? && x.job.Flush? && x.job.out.Some?
    requires x.cell.arc == Some(x.job.arc) && IsLoaded(x.cell.state) && x.keepLoaded
    ensures var c := UpdateFlushed(x.cell, x.job.arc, x.job.original, x.job.out.value.1, x.keepLoaded);
            Inv(x.(cell := c, job := NoJob), f)
  {
    var (fe, out) := x.job.out.value;
    var c := UpdateFlushed(x.cell, x.job.arc, x.job.original, out, x.keepLoaded);
    var y := x.(cell := c, job := NoJob);
    var mid := y.(cell := y.cell.(table := x.cell.table));
    forall k ensures KeyOk(mid, f, k) {
      assert KeyOk(x, f, k);
      assert FlushedAt(x.cell.image, x.cell.table, true, fe, out, k);
      KeptCut(x, mid, f, fe, k);
    }
    forall k ensures KeyOk(y, f, k) {
      assert KeyOk(mid, f, k);
      if y.cell.table != x.cell.table {
        CleanedKey(x.cell.table, k);
        CleanedCut(mid, y, f, x.job.at, k);
      }
    }
    KeepsInv(x, y, f);
  }

  // ---- relocation ----

  lemma RequestRelocateInv(x: Ctx, f: nat)
    requires Inv(x, f) && x.section.Drained? && x.cell.pending.None? && IsClean(x.cell.state)
    ensures var c := x.cell.(pending := Some(x.section.front));
            Inv(x.(cell := c, section := Free, job := Relocate(x.cell.image, x.section.front, None)), f)
  {
    var c := x.cell.(pending := Some(x.section.front));
    var y := x.(cell := c, section := Free, job := Relocate(x.cell.image, x.section.front, None));
    SnapshotBuffered(x, f);
    CarryOver(x, y, f, Seen(x, f), f);
    forall k ensures DiskVal(y.cell.image, k) == AsOf(y.applied, k, f) {
      QuietBetween(x.applied, k, x.section.front, f);
    }
  }

  lemma ExecuteRelocateInv(x: Ctx, f: nat, moved: Image)
    requires Inv(x, f) && x.job.Relocate? && Relocated(x.job.image, moved)
    ensures Inv(x.(job := x.job.(moved := Some(moved))), f)
  {
    var y := x.(job := x.job.(moved := Some(moved)));
    CarryOver(x, y, f, Seen(x, f), Seen(y, f));
  }

  /** Levels with the same answers below the same table leave every cut in place. */
  lemma MovedLevelsCut(x: Ctx, y: Ctx, f: nat, k: Key)
    requires y.log == x.log && y.applied == x.applied
    requires y.cell.table == x.cell.table && IsLoaded(y.cell.state) == IsLoaded(x.cell.state)
    requires View(BelowTable(y.cell, k)) == View(BelowTable(x.cell, k))
    requires KeyOk(x, f, k)
    ensures KeyOk(y, f, k)
  {
    var c, b :| Cut(x, f, k, c, b);
    assert Cut(y, f, k, c, b);
  }

  /** A relocation that leaves table and state as they are. */
  lemma RelocateInPlaceInv(x: Ctx, f: nat)
    requires Inv(x, f) && x.section.Free? && x.job.Relocate? && x.job.moved.Some?
    requires x.cell.state.DirtyLoaded? ==> x.job.moved.value.sharded || x.cell.image.below.None?
    requires !x.cell.state.Loaded?
    ensures Inv(x.(cell := UpdateRelocated(x.cell, x.job.moved.value), job := NoJob), f)
  {
    var y := x.(cell := UpdateRelocated(x.cell, x.job.moved.value), job := NoJob);
    forall k ensures DiskVal(y.cell.image, k) == DiskVal(x.cell.image, k) {
    }
    forall k ensures KeyOk(y, f, k) {
      assert KeyOk(x, f, k);
      assert DiskVal(y.cell.image, k) == DiskVal(x.cell.image, k);
      MovedLevelsCut(x, y, f, k);
    }
    forall k ensures DiskOk(y, f, k) {
      assert DiskVal(y.cell.image, k) == AsOf(y.applied, k, x.job.at);
    }
  }

  /** A relocation that unloads the cell. */
  lemma RelocateUnloadInv(x: Ctx, f: nat)
    requires Inv(x, f) && x.section.Free? && x.job.Relocate? && x.job.moved.Some?
    requires x.cell.state.Loaded?
          || (x.cell.state.DirtyLoaded? && !x.job.moved.value.sharded && x.cell.image.below.Some?)
    ensures Inv(x.(cell := UpdateRelocated(x.cell, x.job.moved.value), job := NoJob), f)
  {
    var y := x.(cell := UpdateRelocated(x.cell, x.job.moved.value), job := NoJob);
    forall k ensures Answered(x, y.cell.image, f, k) {
      assert DiskVal(y.cell.image, k) == AsOf(x.applied, k, x.job.at);
    }
    if x.cell.state.Loaded? {
      LoadedIsProcessed(x, f);
    }
    assert Unloads(x, y);
    UnloadsInv(x, y, f);
  }

  /** Nothing raced the relocation of a cell that is still clean. */
  lemma LoadedIsProcessed(x: Ctx, f: nat)
    requires Inv(x, f) && x.job.Relocate? && IsClean(x.cell.state)
    ensures forall p | p in x.cell.table.data :: p.off < x.job.at
  {
  }

  /** A clean cell's durable frontier may move up to any point its levels account for. */
  lemma AdvanceInv(x: Ctx, f: nat, v: nat)
    requires Inv(x, f) && x.section.Free? && IsClean(x.cell.state) && v <= f
    requires forall k :: DiskVal(x.cell.image, k) == AsOf(x.applied, k, v)
    ensures Inv(x.(cell := x.cell.(lastProcessed := v)), f)
  {
    var y := x.(cell := x.cell.(lastProcessed := v));
    forall k ensures DiskOk(y, f, k) {
      assert DiskVal(x.cell.image, k) == AsOf(x.applied, k, v);
    }
    forall k ensures KeyOk(y, f, k) {
      assert KeyOk(x, f, k);
      MovedLevelsCut(x, y, f, k);
    }
  }

  lemma VisitInv(x: Ctx, f: nat)
    requires Inv(x, f) && x.section.Drained?
    ensures Inv(Next(x, f, Visit), f)
  {
    var z := x.(section := Free);
    SameCellInv(x, z, f);
    if IsClean(x.cell.state) {
      AdvanceInv(z, f, x.section.front);
    }
  }

  lemma DrainInv(x: Ctx, f: nat, p: At)
    requires Inv(x, f) && p in x.ready && !x.section.Drained?
    ensures Inv(Next(x, f, ApplyReady(p)), f)
  {
    ApplyInv(x, f, p);
    SameCellInv(Applied(x, p, f), Next(x, f, ApplyReady(p)), f);
  }

  lemma SectionInv(x: Ctx, f: nat, s: Step)
    requires Inv(x, f) && Enabled(x, f, s)
    requires s.Commit? || s.ReadFrontier? || s.EndDrain? || s.Leave?
    ensures Inv(Next(x, f, s), f)
  {
    SameCellInv(x, Next(x, f, s), f);
  }

  lemma CompleteFlushInv(x: Ctx, f: nat)
    requires Inv(x, f) && x.section.Free? && x.job.Flush? && x.job.out.Some?
    ensures Inv(Next(x, f, CompleteFlush), f)
  {
    if x.cell.arc == Some(x.job.arc) && IsLoaded(x.cell.state) && x.keepLoaded {
      CompleteKeepInv(x, f);
    } else {
      CompleteUnloadInv(x, f);
    }
  }

  lemma CompleteRelocateInv(x: Ctx, f: nat)
    requires Inv(x, f) && x.section.Free? && x.job.Relocate? && x.job.moved.Some?
    ensures Inv(Next(x, f, CompleteRelocate), f)
  {
    if x.cell.state.Loaded? || (x.cell.state.DirtyLoaded? && !x.job.moved.value.sharded && x.cell.image.below.Some?) {
      RelocateUnloadInv(x, f);
    } else {
      RelocateInPlaceInv(x, f);
    }
  }

  /** The main result on one cell: every step, in every interleaving, keeps the invariant. */
  lemma StepInv(x: Ctx, f: nat, s: Step)
    requires Inv(x, f) && Enabled(x, f, s)
    ensures Inv(Next(x, f, s), f)
  {
    match s
    case Append(p, del) => AppendInv(x, f, p, del);
    case Commit(_) => SectionInv(x, f, s);
    case ReadFrontier => SectionInv(x, f, s);
    case EndDrain => SectionInv(x, f, s);
    case Leave => SectionInv(x, f, s);
    case Direct(p) => ApplyInv(x, f, p);
    case ApplyReady(p) => DrainInv(x, f, p);
    case FlatBegin => FlatBeginInv(x, f);
    case FlatEnd => FlatEndInv(x, f);
    case FlatSkip => BeginPromotion(x, f, None);
    case LoadL0 => LoadInv(x, f);
    case RequestFlush => RequestFlushInv(x, f);
    case ExecuteFlush(out) => ExecuteFlushInv(x, f, out);
    case CompleteFlush => CompleteFlushInv(x, f);
    case RequestRelocate => RequestRelocateInv(x, f);
    case ExecuteRelocate(moved) => ExecuteRelocateInv(x, f, moved);
    case CompleteRelocate => CompleteRelocateInv(x, f);
    case Visit => VisitInv(x, f);
  }

  // ---- what completion and promotion leave ----

  /**
   A flush whose snapshot is still the live table leaves the cell dirty exactly when some write
   at or above its frontier has been applied, and loaded exactly when the cell is never unloaded.
  */
  lemma FlushLeavesClean(x: Ctx, f: nat)
    requires Inv(x, f) && Enabled(x, f, CompleteFlush) && x.cell.arc == Some(x.job.arc)
    ensures var c := Next(x, f, CompleteFlush).cell;
            && (IsDirty(c.state) <==> Beyond(x, x.job.at))
            && (IsLoaded(c.state) <==> IsLoaded(x.cell.state) && x.keepLoaded)
            && (!IsLoaded(c.state) ==> c.table.flat == map[])
            && (c.state.Loaded? && c.image.below.None? ==> Stripped(c.table))
  {
    NeverPanics(x, f, CompleteFlush);
    if Beyond(x, x.job.at) {
      var p :| p in x.applied && x.job.at <= p.off;
      assert p in x.cell.table.data;
      assert p in RetainUnprocessed(x.cell.table, x.job.at).data;
    } else {
      assert forall p | p in x.cell.table.data :: p in x.applied;
      assert IsEmpty(RetainUnprocessed(x.cell.table, x.job.at));
    }
  }

  /** No tombstone is left, and no buffered position but the newest of its key. */
  predicate Stripped(t: Table) {
    && (forall p | p in t.data :: !t.data[p]) && (forall k | k in t.flat :: !t.flat[k].del)
    && forall p, q | p in t.data && q in t.data && p.key == q.key :: p.off == q.off
  }

  /** A cell off the levels keeps in its buffer exactly the writes at or above the frontier it was flushed to. */
  lemma UnloadedHolds(x: Ctx, f: nat, p: At)
    requires Inv(x, f) && Enabled(x, f, CompleteFlush)
    requires var c := Next(x, f, CompleteFlush).cell; !IsLoaded(c.state)
    ensures p in Next(x, f, CompleteFlush).cell.table.data <==> p in x.applied && x.job.at <= p.off
  {
    NeverPanics(x, f, CompleteFlush);
    UnmergedTable(x, f);
  }

  /** A relocated cell is dirty exactly when it was written to meanwhile, and loaded only while its overlay covers. */
  lemma RelocationLeavesClean(x: Ctx, f: nat)
    requires Inv(x, f) && Enabled(x, f, CompleteRelocate)
    ensures var c := Next(x, f, CompleteRelocate).cell;
            && (IsDirty(c.state) <==> Beyond(x, x.job.at))
            && (IsLoaded(c.state) <==> x.cell.state.DirtyLoaded? && (c.image.sharded || x.cell.image.below.None?))
  {
    NeverPanics(x, f, CompleteRelocate);
    if Beyond(x, x.job.at) {
      var p :| p in x.applied && x.job.at <= p.off;
      assert p in x.cell.table.data;
      assert p in RetainUnprocessed(x.cell.table, x.job.at).data;
    }
  }

  /** A key without a position of its own at or above the threshold moves to the flat map at its newest one. */
  lemma NewestPromoted(t: Table, threshold: nat, p: At)
    requires NewestOf(t.data, p) && p.off < threshold
    ensures Find(PromoteToFlat(t, threshold).flat, p.key) == Some(Entry(p.off, t.data[p]))
  {
    assert p.key in Keys(t.data) && Promotable(t.data, p.key, threshold);
    assert LatestBelow(t.data, p.key, threshold) == Some(p.off);
  }

  /** A key keeps a buffered position exactly while one of its own positions is at or above the threshold. */
  lemma PromotedByPosition(t: Table, threshold: nat, k: Key)
    ensures var r := PromoteToFlat(t, threshold);
            && (forall p | p in r.data :: p in t.data && r.data[p] == t.data[p])
            && ((exists p | p in r.data :: p.key == k) <==> InFlight(t.data, k, threshold))
            && (InFlight(t.data, k, threshold) ==> forall p | p in t.data && p.key == k :: p in r.data)
            && (InFlight(t.data, k, threshold) || k !in Keys(t.data) ==> Find(r.flat, k) == Find(t.flat, k))
    ensures forall p | NewestOf(t.data, p) && p.key == k && p.off < threshold ::
              Find(PromoteToFlat(t, threshold).flat, k) == Some(Entry(p.off, t.data[p]))
  {
    var r := PromoteToFlat(t, threshold);
    if InFlight(t.data, k, threshold) {
      var p :| p in t.data && p.key == k && threshold <= p.off;
      assert p in r.data;
    }
    forall p | NewestOf(t.data, p) && p.key == k && p.off < threshold
      ensures Find(r.flat, k) == Some(Entry(p.off, t.data[p]))
    {
      NewestPromoted(t, threshold, p);
    }
  }

  /** Some write of `k` in `w` is at or above `b`. */
  predicate InFlight(w: Log, k: Key, b: nat) {
    exists p | p in w :: p.key == k && b <= p.off
  }

  predicate NewestOf(w: Log, p: At) {
    p in w && forall q | q in w && q.key == p.key :: q.off <= p.off
  }

  /**
   An undisturbed promotion empties the buffer of every key but those with a write of their own
   at or above the frontier read, or the frontier of a flush in flight.
  */
  lemma PromotionDrains(x: Ctx, f: nat, k: Key)
    requires Inv(x, f) && Enabled(x, f, FlatBegin)
    ensures var y := Next(x, f, FlatBegin);
            var bound := if x.cell.pending.Some? then x.cell.pending.value else x.section.front;
            && Enabled(y, f, FlatEnd)
            && ((exists p | p in Next(y, f, FlatEnd).cell.table.data :: p.key == k)
                <==> InFlight(x.cell.table.data, k, bound))
  {
    var y := Next(x, f, FlatBegin);
    PromotedByPosition(x.cell.table, y.promotion.value.threshold, k);
    assert Next(y, f, FlatEnd).cell.table == PromoteToFlat(x.cell.table, y.promotion.value.threshold);
  }

  /** The writes whose callers have returned: applied directly, or committed with their batch. */
  function Acknowledged(x: Ctx): Log {
    map p | p in x.log && (p in x.applied || p in x.ready) :: x.log[p]
  }

  /** Only a write reaching the table changes what a live read returns. */
  lemma OnlyWritesChangeReads(x: Ctx, f: nat, s: Step, k: Key)
    requires Inv(x, f) && Enabled(x, f, s) && f <= INVALID_OFFSET
    requires !s.Direct? && !s.ApplyReady?
    ensures Read(Next(x, f, s).cell, k, INVALID_OFFSET) == Read(x.cell, k, INVALID_OFFSET)
  {
    StepInv(x, f, s);
    ReadsAsOf(x, f, k, INVALID_OFFSET);
    ReadsAsOf(Next(x, f, s), f, k, INVALID_OFFSET);
  }
}
