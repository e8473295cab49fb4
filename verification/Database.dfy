/**
 The whole database: the WAL tail and its processed frontier, checkpoint latches, every cell,
 any number of control-region rebuilds at once, and crashes.
*/
module Database {
  import opened Bytes
  import opened IndexTable
  import opened CellSpec
  import opened Protocol
  import opened CellInvariant
  import opened Recovery

  /** A held latch pins the frontier at `position`; it is granted once everything below is processed. */
  datatype Latch = Latch(position: nat, granted: bool)

  /**
   Pass 1 of a rebuild, outside the control-region lock: it queues flushes and then waits at a
   flusher barrier for every job queued by that time.
  */
  datatype Pass = Queueing | Waiting(waits: set<nat>)

  /**
   The rebuild holding the control-region lock: pass 2 queues relocations and waits at a second
   barrier, unless it has no files to empty; the walk records the cells one by one; the WAL is
   synced; the control region is stored.
  */
  datatype Phase =
    | Idle
    | Relocating(busy: bool)
    | Settling(waits: set<nat>)
    | Walking(start: nat, from: nat, recs: map<nat, Rec>)
    | Synced(from: nat, recs: map<nat, Rec>, upto: nat)

  /** A stored control region; `upto` is the frontier up to which the WAL had been synced. */
  datatype Stored = Stored(from: nat, recs: map<nat, Rec>, upto: nat)

  /** A cell the control region does not mention restarts without levels. */
  function RecAt(st: Stored, i: nat): Rec {
    if i in st.recs then st.recs[i] else Rec(NO_LEVELS, 0)
  }

  datatype Db = Db(
    tail: nat,
    frontier: nat,
    latches: map<nat, Latch>,
    cells: seq<Ctx>,
    passes: map<nat, Pass>,
    phase: Phase,
    stored: Stored)

  datatype Event =
    | Write(i: nat, key: Key, del: bool)
    | Seal(len: nat)
    | Advance(to: nat)
    | Take(id: nat, at: nat)
    | Grant(id: nat)
    | Release(id: nat)
    | On(i: nat, step: Step)
    | Begin(pass: nat)
    | PassFlush(pass: nat, i: nat)
    | CallBarrier(pass: nat)
    | Lock(pass: nat, busy: bool)
    | PassRelocate(i: nat)
    | CallSettle
    | StartWalk
    | VisitCell(i: nat)
    | Sync
    | Store
    | Crash(cut: nat)

  function Fresh(keep: seq<bool>): Db {
    Db(0, 0, map[], seq(|keep|, i requires 0 <= i < |keep| => NewCtx(keep[i])), map[], Idle, Stored(0, map[], 0))
  }

  /** Writes allocated and neither applied nor committed still hold their WAL guard. */
  predicate GuardsFrom(d: Db, f: nat) {
    forall i, p | 0 <= i < |d.cells| && p in d.cells[i].log && p !in d.cells[i].applied && p !in d.cells[i].ready
      :: f <= p.off
  }

  /** Steps a cell takes outside a rebuild; a write path flushes only cells it found in use. */
  predicate Routine(x: Ctx, s: Step) {
    && !s.Append? && !s.Visit? && !s.RequestRelocate?
    && (s.RequestFlush? ==> x.section.Drained? && !x.section.wasEmpty)
  }

  /** The cells whose jobs a barrier called now has to wait for. */
  function Pending(cells: seq<Ctx>): set<nat> {
    set i: nat | i < |cells| && !cells[i].job.NoJob?
  }

  predicate Ready(ps: map<nat, Pass>, r: nat) {
    r in ps && ps[r] == Waiting({})
  }

  /** The walk has recorded cells and may still store them. */
  predicate Records(ph: Phase) {
    ph.Walking? || ph.Synced?
  }

  /** What the pending store would record goes back: the store asserts against it. */
  predicate Regresses(d: Db) {
    Records(d.phase) && d.phase.from < d.stored.from
  }

  ghost predicate Can(d: Db, e: Event) {
    match e
    case Write(i, k, del) => i < |d.cells| && d.tail < INVALID_OFFSET && At(k, d.tail) !in d.cells[i].log
    case Seal(len) => d.tail + len <= INVALID_OFFSET
    case Advance(to) =>
      && d.frontier <= to <= d.tail && GuardsFrom(d, to)
      && forall id | id in d.latches :: to <= d.latches[id].position
    case Take(id, at) =>
      && id !in d.latches && d.frontier <= at <= d.tail
      && forall j | j in d.latches :: d.latches[j].position <= at
    case Grant(id) => id in d.latches && GuardsFrom(d, d.latches[id].position)
    case Release(id) => id in d.latches
    case On(i, s) => i < |d.cells| && Enabled(d.cells[i], d.frontier, s) && Routine(d.cells[i], s)
    case Begin(r) => r !in d.passes
    case PassFlush(r, i) =>
      && r in d.passes && d.passes[r].Queueing?
      && i < |d.cells| && Enabled(d.cells[i], d.frontier, RequestFlush)
    case CallBarrier(r) => r in d.passes && d.passes[r].Queueing?
    case Lock(r, busy) => Ready(d.passes, r) && d.phase.Idle?
    case PassRelocate(i) =>
      d.phase == Relocating(true) && i < |d.cells| && Enabled(d.cells[i], d.frontier, RequestRelocate)
    case CallSettle => d.phase == Relocating(true)
    case StartWalk => d.phase == Relocating(false) || d.phase == Settling({})
    case VisitCell(i) =>
      && d.phase.Walking? && i < |d.cells| && i !in d.phase.recs
      && Enabled(d.cells[i], d.frontier, Visit) && d.phase.start <= d.cells[i].section.front
    case Sync => d.phase.Walking? && forall i: nat | i < |d.cells| :: i in d.phase.recs
    case Store => d.phase.Synced?
    case Crash(cut) => d.stored.from <= cut && d.stored.upto <= cut <= d.tail
  }

  predicate Completes(s: Step) {
    s.CompleteFlush? || s.CompleteRelocate?
  }

  /** A completed job no longer holds up the barriers called behind it. */
  function Served(w: set<nat>, i: nat, s: Step): set<nat> {
    if Completes(s) then w - {i} else w
  }

  function PassesAfter(ps: map<nat, Pass>, i: nat, s: Step): map<nat, Pass> {
    map r | r in ps :: if ps[r].Waiting? then Waiting(Served(ps[r].waits, i, s)) else ps[r]
  }

  function PhaseAfter(ph: Phase, i: nat, s: Step): Phase {
    if ph.Settling? then Settling(Served(ph.waits, i, s)) else ph
  }

  /** Cell `i` takes step `s`. */
  ghost function Stepped(d: Db, i: nat, s: Step): Db
    requires i < |d.cells| && Enabled(d.cells[i], d.frontier, s)
  {
    d.(cells := d.cells[i := Next(d.cells[i], d.frontier, s)],
       passes := PassesAfter(d.passes, i, s),
       phase := PhaseAfter(d.phase, i, s))
  }

  ghost function After(d: Db, e: Event): Db
    requires Can(d, e)
  {
    match e
    case Write(i, k, del) =>
      var x := d.cells[i];
      d.(cells := d.cells[i := x.(log := x.log[At(k, d.tail) := del])])
    case Seal(len) => d.(tail := d.tail + len)
    case Advance(to) => d.(frontier := to)
    case Take(id, at) => d.(latches := d.latches[id := Latch(at, false)])
    case Grant(id) => d.(latches := d.latches[id := d.latches[id].(granted := true)])
    case Release(id) => d.(latches := d.latches - {id})
    case On(i, s) => Stepped(d, i, s)
    case Begin(r) => d.(passes := d.passes[r := Queueing])
    case PassFlush(_, i) => Stepped(d, i, RequestFlush)
    case CallBarrier(r) => d.(passes := d.passes[r := Waiting(Pending(d.cells))])
    case Lock(r, busy) => d.(passes := d.passes - {r}, phase := Relocating(busy))
    case PassRelocate(i) => Stepped(d, i, RequestRelocate)
    case CallSettle => d.(phase := Settling(Pending(d.cells)))
    case StartWalk => d.(phase := Walking(d.frontier, d.frontier, map[]))
    case VisitCell(i) =>
      var y := Next(d.cells[i], d.frontier, Visit);
      var from := if y.cell.state.Empty? then d.phase.from else Min(d.phase.from, y.cell.lastProcessed);
      d.(cells := d.cells[i := y], phase := Walking(d.phase.start, from, d.phase.recs[i := RecOf(y.cell)]))
    case Sync => d.(phase := Synced(d.phase.from, d.phase.recs, d.frontier))
    case Store =>
      if Regresses(d) then d.(phase := Idle)
      else d.(phase := Idle, stored := Stored(d.phase.from, d.phase.recs, d.phase.upto))
    case Crash(cut) =>
      Db(cut, cut, map[],
         seq(|d.cells|, i requires 0 <= i < |d.cells| =>
           Restarted(d.cells[i], RecAt(d.stored, i), d.stored.from, cut)),
         map[], Idle, d.stored)
  }

  /** `es` takes the database from `d` to `d'`. */
  ghost predicate Run(d: Db, es: seq<Event>, d': Db)
    decreases |es|
  {
    if es == [] then d' == d
    else Can(d, es[0]) && Run(After(d, es[0]), es[1..], d')
  }

  ghost predicate Reachable(d: Db) {
    exists keep, es :: Run(Fresh(keep), es, d)
  }

  // ---- the invariant ----

  /** Relocations are queued and waited for under the lock. */
  predicate RelocationLocked(x: Ctx, ph: Phase, i: nat) {
    x.job.Relocate? ==> ph == Relocating(true) || (ph.Settling? && i in ph.waits)
  }

  /** What a pending record owes: until the sync it may speak of anything below the frontier. */
  ghost predicate RecordOk(x: Ctx, ph: Phase, i: nat, f: nat) {
    Records(ph) && i in ph.recs ==>
      && Quiet(x, ph.from)
      && RecOk(ph.recs[i], ph.from, x.log, if ph.Synced? then ph.upto else f)
  }

  ghost predicate CellOk(d: Db, i: nat)
    requires i < |d.cells|
  {
    Inv(d.cells[i], d.frontier) && Accounted(d, i)
  }

  /** What the store and the rebuild in progress owe cell `i`. */
  ghost predicate Accounted(d: Db, i: nat)
    requires i < |d.cells|
  {
    var x := d.cells[i];
    && (forall p | p in x.log :: p.off <= d.tail)
    && SectionAnchored(x)
    && RelocationLocked(x, d.phase, i)
    && Quiet(x, d.stored.from)
    && RecOk(RecAt(d.stored, i), d.stored.from, x.log, d.stored.upto)
    && RecordOk(x, d.phase, i, d.frontier)
  }

  predicate PhaseOk(d: Db) {
    match d.phase
    case Walking(start, from, _) => from <= start <= d.frontier
    case Synced(from, recs, upto) => from <= upto <= d.frontier && forall i: nat | i < |d.cells| :: i in recs
    case _ => true
  }

  ghost predicate DbInv(d: Db) {
    && d.stored.from <= d.stored.upto <= d.frontier <= d.tail <= INVALID_OFFSET
    && (forall id | id in d.latches :: d.frontier <= d.latches[id].position <= d.tail)
    && (forall id | id in d.latches && d.latches[id].granted :: GuardsFrom(d, d.latches[id].position))
    && PhaseOk(d)
    && (forall i: nat | i < |d.cells| :: CellOk(d, i))
  }
}
