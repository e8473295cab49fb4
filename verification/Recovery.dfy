/**
 What a control region records about one cell, why it is enough to rebuild the cell from
 the WAL, and the floor under every durable frontier that keeps later records from going back.
*/
module Recovery {
  import opened Bytes
  import opened IndexTable
  import opened CellSpec
  import opened Protocol
  import opened CellInvariant

  /** The persisted snapshot of one cell. */
  datatype Rec = Rec(image: Image, lastProcessed: nat)

  // ---- the floor ----

  /** No write still to be applied and no section still open goes back below `r`. */
  predicate Quiet(x: Ctx, r: nat) {
    UnappliedFrom(x, r) && (!x.section.Free? ==> r <= x.section.front)
  }

  /** Nothing the cell may still do can take a recorded frontier below `r`. */
  predicate Floor(x: Ctx, r: nat) {
    && Quiet(x, r)
    && (!x.cell.state.Empty? ==> r <= x.cell.lastProcessed)
    && (!x.job.NoJob? ==> r <= x.job.at)
  }

  /** Quiet stays, whatever happens. */
  lemma QuietStep(x: Ctx, f: nat, s: Step, r: nat)
    requires Enabled(x, f, s) && LogsOk(x, f) && Quiet(x, r) && r <= f
    ensures Quiet(Next(x, f, s), r)
  {
  }

  /** A pending job was requested at or above the cell's durable frontier. */
  predicate Anchored(x: Ctx) {
    !x.job.NoJob? ==> x.cell.lastProcessed <= x.job.at
  }

  /** A section that found the cell in use read a frontier at or above the cell's own. */
  predicate SectionAnchored(x: Ctx) {
    !x.section.Free? ==>
      if x.section.wasEmpty then !IsClean(x.cell.state) && x.cell.image == NO_LEVELS
      else !x.cell.state.Empty? && x.cell.lastProcessed <= x.section.front
  }

  /** The floor holds through every step, whatever else happens. */
  lemma FloorStep(x: Ctx, f: nat, s: Step, r: nat)
    requires Enabled(x, f, s) && LogsOk(x, f)
    requires x.cell.pending == if x.job.NoJob? then None else Some(x.job.at)
    requires Floor(x, r) && r <= f
    ensures Floor(Next(x, f, s), r)
  {
    QuietStep(x, f, s, r);
  }

  lemma SectionAnchoredStep(x: Ctx, f: nat, s: Step)
    requires Enabled(x, f, s) && Shape(x.cell) && SectionAnchored(x)
    requires !x.cell.state.Empty? ==> x.cell.lastProcessed <= f
    ensures SectionAnchored(Next(x, f, s))
  {
  }

  /**
   Requests stay anchored except for a flush requested by a section that found the cell Empty,
   and except when the walk advances a clean cell under a relocation.
  */
  lemma AnchoredStep(x: Ctx, f: nat, s: Step)
    requires Inv(x, f) && Enabled(x, f, s) && SectionAnchored(x) && Anchored(x)
    requires s.RequestFlush? ==> !x.section.wasEmpty
    requires s.Visit? ==> !x.job.Relocate?
    ensures Anchored(Next(x, f, s))
  {
  }

  // ---- records ----

  /** `rec` accounts for every write of `log` below `r`, and for none at or above `upto`. */
  ghost predicate RecOk(rec: Rec, r: nat, log: Log, upto: nat) {
    && (if NonEmpty(rec.image) then r <= rec.lastProcessed <= upto else forall p | p in log :: r <= p.off)
    && (rec.image.sharded ==> rec.image.below.Some?)
    && forall k :: RecKey(rec, r, log, upto, k)
  }

  ghost predicate RecKey(rec: Rec, r: nat, log: Log, upto: nat, k: Key) {
    exists b ::
      && r <= b <= upto
      && (NonEmpty(rec.image) ==> rec.lastProcessed <= b)
      && DiskVal(rec.image, k) == AsOf(log, k, b)
  }

  /** Later writes never take an answer out of history: the bound at worst drops to the earliest of them. */
  lemma {:induction false} GrowKeeps(v: Log, w: Log, k: Key, b: nat, low: nat) returns (m: nat)
    requires Within(v, w) && forall p | p in w && p !in v :: low <= p.off
    ensures AsOf(w, k, m) == AsOf(v, k, b)
    ensures Min(b, low) <= m <= b
    decreases b
  {
    var n := LatestBelow(w, k, b);
    if n == LatestBelow(v, k, b) {
      m := b;
    } else {
      QuietBetween(v, k, n.value, b);
      m := GrowKeeps(v, w, k, n.value, low);
    }
  }

  function RecOf(c: Cell): Rec {
    Rec(c.image, c.lastProcessed)
  }

  /** What the walk records of a cell it visits accounts for everything below the frontier it read. */
  lemma VisitRecords(x: Ctx, f: nat, r: nat)
    requires Inv(x, f) && SectionAnchored(x) && x.section.Drained? && r <= x.section.front
    requires var y := Next(x, f, Visit); !y.cell.state.Empty? ==> r <= y.cell.lastProcessed
    ensures var y := Next(x, f, Visit); RecOk(RecOf(y.cell), r, y.log, f)
  {
    var y := Next(x, f, Visit);
    VisitInv(x, f);
    assert NonEmpty(y.cell.image) ==> y.cell.lastProcessed <= x.section.front;
    forall k ensures RecKey(RecOf(y.cell), r, y.log, f, k) {
      VisitKey(x, y, f, r, k);
    }
  }

  lemma VisitKey(x: Ctx, y: Ctx, f: nat, r: nat, k: Key)
    requires Inv(y, f) && x.section.Drained? && r <= x.section.front <= f && UnappliedFrom(y, x.section.front)
    requires !y.cell.state.Empty? ==> r <= y.cell.lastProcessed
    requires NonEmpty(y.cell.image) ==> y.cell.lastProcessed <= x.section.front
    ensures RecKey(RecOf(y.cell), r, y.log, f, k)
  {
    if y.cell.state.Empty? {
      assert AsOf(y.log, k, r) == None;
    } else {
      assert DiskOk(y, f, k);
      var b :| y.cell.lastProcessed <= b <= f && DiskVal(y.cell.image, k) == AsOf(y.applied, k, b);
      var m := GrowKeeps(y.applied, y.log, k, b, x.section.front);
    }
  }

  // ---- restart ----

  /** The WAL as far as a restart can read it: everything below the cut. */
  function Upto(log: Log, cut: nat): Log {
    map p | p in log && p.off < cut :: log[p]
  }

  function From(log: Log, r: nat): Log {
    map p | p in log && r <= p.off :: log[p]
  }

  /** The lowest offset of `w` in `[a, b)`, or `b`. */
  function Earliest(w: Log, a: nat, b: nat): (r: nat)
    requires a <= b
    ensures a <= r <= b
    ensures forall p | p in w && a <= p.off < b :: r <= p.off
    ensures r < b ==> exists p | p in w :: p.off == r
    decreases b - a
  {
    if a == b || exists p | p in w :: p.off == a then a else Earliest(w, a + 1, b)
  }

  /** One entry per replayed key, its newest position. */
  function ReplayFlat(w: Log, cut: nat): Blob {
    map k | k in Keys(w) && Latest(w, k, cut).Some? :: Latest(w, k, cut).value
  }

  /** The cell a restart builds: the recorded levels under what the WAL replays from `r` on. */
  function Restarted(x: Ctx, rec: Rec, r: nat, cut: nat): Ctx
    requires r <= cut
  {
    var log := Upto(x.log, cut);
    var w := From(log, r);
    var base := if NonEmpty(rec.image) then Unloaded else Empty;
    var cell := Cell(
      if w == map[] then base else Dirtied(base),
      Table(map[], ReplayFlat(w, cut)),
      None, 0, rec.image,
      if base.Empty? && w != map[] then Earliest(w, r, cut) else rec.lastProcessed,
      None);
    Ctx(log, log, {}, cell, x.keepLoaded, NoJob, None, Free)
  }

  /** The levels alone, after a restart, still answer as of a point at or past the recorded frontier. */
  lemma RestartDisk(x: Ctx, rec: Rec, r: nat, upto: nat, cut: nat, k: Key)
    requires r <= upto <= cut && RecOk(rec, r, x.log, upto)
    ensures var y := Restarted(x, rec, r, cut); !y.cell.state.Empty? ==> DiskOk(y, cut, k)
  {
    if NonEmpty(rec.image) {
      assert RecKey(rec, r, x.log, upto, k);
      var b :| rec.lastProcessed <= b <= upto && DiskVal(rec.image, k) == AsOf(x.log, k, b);
      var y := Restarted(x, rec, r, cut);
      SameBelow(x.log, y.log, k, b);
      assert DiskVal(y.cell.image, k) == AsOf(y.applied, k, b);
    } else {
      FreshDisk(x, rec, r, cut, k);
    }
  }

  lemma FreshDisk(x: Ctx, rec: Rec, r: nat, cut: nat, k: Key)
    requires r <= cut && !NonEmpty(rec.image) && forall p | p in x.log :: r <= p.off
    ensures var y := Restarted(x, rec, r, cut); !y.cell.state.Empty? ==> DiskOk(y, cut, k)
  {
    var y := Restarted(x, rec, r, cut);
    assert From(y.log, r) == y.log;
    if !y.cell.state.Empty? {
      assert AsOf(y.log, k, y.cell.lastProcessed) == None;
    }
  }

  /** Recovery of one key: the levels plus the replayed tail give back the whole history below the cut. */
  lemma RestartAnswers(x: Ctx, rec: Rec, r: nat, upto: nat, cut: nat, k: Key)
    requires r <= upto <= cut && RecOk(rec, r, x.log, upto)
    ensures Base(Restarted(x, rec, r, cut).cell, k) == AsOf(x.log, k, cut)
  {
    var log := Upto(x.log, cut);
    var w := From(log, r);
    var m := LatestBelow(w, k, cut);
    if m.None? {
      assert RecKey(rec, r, x.log, upto, k);
      QuietTail(x, rec, r, upto, cut, k);
    } else {
      assert k in Keys(w);
      assert LatestBelow(x.log, k, cut) == m;
    }
  }

  lemma NothingReplayed(log: Log, r: nat, cut: nat, k: Key)
    requires LatestBelow(From(Upto(log, cut), r), k, cut).None?
    ensures forall p | p in log && p.key == k && r <= p.off :: cut <= p.off
  {
    assert forall p | p in log && p.key == k && r <= p.off < cut :: p in From(Upto(log, cut), r);
  }

  /** With nothing of `k` to replay, the levels already answer for the whole history. */
  lemma QuietTail(x: Ctx, rec: Rec, r: nat, upto: nat, cut: nat, k: Key)
    requires r <= upto <= cut && RecKey(rec, r, x.log, upto, k)
    requires LatestBelow(From(Upto(x.log, cut), r), k, cut).None?
    ensures DiskVal(rec.image, k) == AsOf(x.log, k, cut)
  {
    var b :| r <= b <= upto && DiskVal(rec.image, k) == AsOf(x.log, k, b);
    NothingReplayed(x.log, r, cut, k);
    QuietBetween(x.log, k, b, cut);
  }

  /** A restarted cell satisfies the invariant, so every later run is covered too. */
  lemma RestartInv(x: Ctx, rec: Rec, r: nat, upto: nat, cut: nat)
    requires r <= upto <= cut && RecOk(rec, r, x.log, upto)
    requires forall p | p in x.log :: p.off < INVALID_OFFSET
    ensures var y := Restarted(x, rec, r, cut); Inv(y, cut) && Floor(y, r)
  {
    var y := Restarted(x, rec, r, cut);
    forall k ensures KeyOk(y, cut, k) {
      RestartAnswers(x, rec, r, upto, cut, k);
      SameBelow(x.log, y.log, k, cut);
      assert Cut(y, cut, k, cut, cut);
    }
    if !y.cell.state.Empty? {
      forall k ensures DiskOk(y, cut, k) {
        RestartDisk(x, rec, r, upto, cut, k);
      }
    }
    if y.cell.state.Unloaded? {
      forall k ensures DiskVal(y.cell.image, k) == AsOf(y.applied, k, cut) {
        assert RecKey(rec, r, x.log, upto, k);
        QuietTail(x, rec, r, upto, cut, k);
        SameBelow(x.log, y.log, k, cut);
      }
      assert y.cell.table == EMPTY_TABLE;
    }
    RestartLogs(x, rec, r, upto, cut);
  }

  /**
   A restarted cell is dirty exactly when something was replayed into it and Empty exactly when it
   has neither levels nor replayed writes; without levels it is anchored at the earliest of them.
  */
  lemma RestartState(x: Ctx, rec: Rec, r: nat, upto: nat, cut: nat)
    requires r <= upto <= cut && RecOk(rec, r, x.log, upto)
    ensures var c := Restarted(x, rec, r, cut).cell;
            && (IsDirty(c.state) <==> exists p | p in x.log :: r <= p.off < cut)
            && (c.state.Empty? <==> !NonEmpty(rec.image) && forall p | p in x.log :: cut <= p.off)
            && (IsDirty(c.state) && !NonEmpty(rec.image) ==>
                  && (forall p | p in x.log :: c.lastProcessed <= p.off)
                  && exists p | p in x.log :: p.off == c.lastProcessed)
            && (NonEmpty(rec.image) ==> c.lastProcessed == rec.lastProcessed)
  {
    var w := From(Upto(x.log, cut), r);
    if exists p | p in x.log :: r <= p.off < cut {
      var p :| p in x.log && r <= p.off < cut;
      assert p in w;
      if !NonEmpty(rec.image) {
        var e := Earliest(w, r, cut);
        assert e <= p.off;
        var q :| q in w && q.off == e;
      }
    } else {
      assert w == map[];
    }
  }

  lemma RestartLogs(x: Ctx, rec: Rec, r: nat, upto: nat, cut: nat)
    requires r <= upto <= cut && RecOk(rec, r, x.log, upto)
    requires forall p | p in x.log :: p.off < INVALID_OFFSET
    ensures var y := Restarted(x, rec, r, cut); LogsOk(y, cut) && Shape(y.cell)
  {
    var y := Restarted(x, rec, r, cut);
    var w := From(y.log, r);
    if !NonEmpty(rec.image) {
      assert w == y.log;
    }
    if w == map[] {
      assert ReplayFlat(w, cut) == map[];
    }
  }
}
