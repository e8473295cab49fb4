/**
 Garbage collection of index files: which files a control-region rebuild may delete while
 flushes keep replacing the blobs of live cells, what a crash in between finds, and when a
 restarted writer's mapper runs into a file that is gone.
*/
module Gc {
  /** An async flush or relocation: queued with the levels it replaces, then written and waiting to be installed. */
  datatype Job = NoJob | Queued(levels: set<nat>) | Written(levels: set<nat>, next: set<nat>)

  /** Blob positions of one cell. */
  datatype Cell = Cell(live: set<nat>, job: Job)

  /** A rebuild captures the writer position, queues its flushes and waits out the jobs queued by then. */
  datatype Ticket = Queueing(pre: nat) | Waiting(pre: nat, waits: set<nat>)

  /** Under the lock it walks the cells, stores the control region and only then deletes files one by one. */
  datatype Phase =
    | Idle
    | Walking(pre: nat, recs: map<nat, set<nat>>)
    | Unlinking(todo: set<nat>)

  /**
   Files `0..newest` have been created and those in `deleted` are gone again.  The mapper has
   mapped every file from the writer's up to `mapped`; once it meets a deleted file the
   process is `halted`.
  */
  datatype Index = Index(
    fileSize: nat,
    writer: nat,
    mapped: nat,
    newest: nat,
    cells: seq<Cell>,
    stored: map<nat, set<nat>>,
    deleted: set<nat>,
    tickets: map<nat, Ticket>,
    phase: Phase,
    halted: bool)

  datatype Event =
    | MapNext
    | Request(i: nat)
    | Execute(i: nat, next: set<nat>, writer: nat)
    | Complete(i: nat)
    | Drop(i: nat)
    | Begin(r: nat)
    | CallBarrier(r: nat)
    | Lock(r: nat)
    | Visit(i: nat)
    | Store
    | Abandon
    | Unlink(file: nat)
    | EndUnlink
    | Crash(back: set<nat>)

  /** `locate_file`. */
  function File(size: nat, p: nat): nat
    requires size > 0
  {
    p / size
  }

  function All(recs: map<nat, set<nat>>): set<nat> {
    set i, p | i in recs && p in recs[i] :: p
  }

  /** One past the highest position, where a restarted writer continues. */
  function After(s: set<nat>): (n: nat)
    ensures forall p | p in s :: p < n
    ensures s != {} ==> n > 0 && (n - 1) in s
  {
    if s == {} then 0
    else
      MaxExists(s);
      var m: nat :| m in s && Highest(s, m);
      m + 1
  }

  predicate Highest(s: set<nat>, m: nat) {
    m in s && forall q | q in s :: q <= m
  }

  lemma {:induction false} MaxExists(s: set<nat>)
    requires s != {}
    ensures exists m: nat :: Highest(s, m)
    decreases s
  {
    var x :| x in s;
    if s == {x} {
      assert Highest(s, x);
    } else {
      MaxExists(s - {x});
      var m: nat :| Highest(s - {x}, m);
      assert forall q | q in s :: q == x || q in s - {x};
      assert Highest(s, if m < x then x else m);
    }
  }

  /** The files a finished walk may delete: below both bounds and without a recorded position. */
  function ToDelete(size: nat, pre: nat, recs: map<nat, set<nat>>): set<nat>
    requires size > 0
  {
    var live := All(recs);
    if live == {} then {}
    else
      var top := File(size, After(live) - 1);
      var cutoff := if File(size, pre) < top then File(size, pre) else top;
      set f: nat | f < cutoff && Dead(size, live, f)
  }

  predicate Dead(size: nat, live: set<nat>, f: nat)
    requires size > 0
  {
    forall p | p in live :: File(size, p) != f
  }

  /** Some recorded position lies in a file after `f`. */
  predicate Before(size: nat, f: nat, recs: map<nat, set<nat>>)
    requires size > 0
  {
    exists i, p | i in recs && p in recs[i] :: f < File(size, p)
  }

  /** Exactly the files without a recorded position that lie below the captured position and below a recorded one go. */
  lemma ToDeleteExact(size: nat, pre: nat, recs: map<nat, set<nat>>, f: nat)
    requires size > 0
    ensures f in ToDelete(size, pre, recs)
       <==> && f < File(size, pre) && Before(size, f, recs)
            && forall i, p | i in recs && p in recs[i] :: File(size, p) != f
  {
    var live := All(recs);
    assert forall i, p | i in recs && p in recs[i] :: p in live;
    if Before(size, f, recs) {
      var i, p :| i in recs && p in recs[i] && f < File(size, p);
      assert p in live;
      FileMonotone(size, p, After(live) - 1);
    } else if live != {} {
      var j :| j in recs && (After(live) - 1) in recs[j];
    }
  }

  /** A flush replaces levels by some of them and blobs written past the writer position. */
  predicate FlushShape(levels: set<nat>, next: set<nat>, writer: nat, writer': nat) {
    writer <= writer' && forall p | p in next :: p in levels || writer <= p < writer'
  }

  function Pending(cells: seq<Cell>): set<nat> {
    set i: nat | i < |cells| && !cells[i].job.NoJob?
  }

  /** A halted process can only be restarted. */
  ghost predicate Can(x: Index, e: Event) {
    && x.fileSize > 0
    && (x.halted ==> e.Crash?)
    && match e
       case MapNext => true
       case Request(i) => i < |x.cells| && x.cells[i].job.NoJob?
       case Execute(i, next, w) =>
         && i < |x.cells| && x.cells[i].job.Queued? && FlushShape(x.cells[i].job.levels, next, x.writer, w)
         && File(x.fileSize, w) <= x.mapped
       case Complete(i) => i < |x.cells| && x.cells[i].job.Written?
       case Drop(i) => i < |x.cells| && x.cells[i].job.NoJob?
       case Begin(r) => r !in x.tickets
       case CallBarrier(r) => r in x.tickets && x.tickets[r].Queueing?
       case Lock(r) => x.phase.Idle? && r in x.tickets && x.tickets[r].Waiting? && x.tickets[r].waits == {}
       case Visit(i) => x.phase.Walking? && i < |x.cells| && i !in x.phase.recs
       case Store => x.phase.Walking? && forall i: nat | i < |x.cells| :: i in x.phase.recs
       case Abandon => x.phase.Walking?
       case Unlink(f) => x.phase.Unlinking? && f in x.phase.todo
       case EndUnlink => x.phase.Unlinking?
       case Crash(back) => true
  }

  function StoredAt(x: Index, i: nat): set<nat> {
    if i in x.stored then x.stored[i] else {}
  }

  function Told(ts: map<nat, Ticket>, i: nat): map<nat, Ticket> {
    map r | r in ts :: if ts[r].Waiting? then ts[r].(waits := ts[r].waits - {i}) else ts[r]
  }

  /** The mapper moves to the next file: it creates one past the newest, and halts at one that is gone. */
  function Mapped(x: Index): Index {
    var f := x.mapped + 1;
    if f > x.newest then x.(mapped := f, newest := f)
    else if f in x.deleted then x.(halted := true)
    else x.(mapped := f)
  }

  /**
   A restart: removals that had not reached the disk are undone, the writer continues after the
   highest stored position, and opening its file halts if that file is gone.
  */
  function Restarted(x: Index, back: set<nat>): Index
    requires x.fileSize > 0
  {
    var w := After(All(x.stored));
    Index(x.fileSize, w, File(x.fileSize, w), x.newest,
          seq(|x.cells|, i requires 0 <= i < |x.cells| => Cell(StoredAt(x, i), NoJob)),
          x.stored, x.deleted - back, map[], Idle, File(x.fileSize, w) in x.deleted - back)
  }

  ghost function Next(x: Index, e: Event): Index
    requires Can(x, e)
  {
    match e
    case MapNext => Mapped(x)
    case Request(i) => x.(cells := x.cells[i := x.cells[i].(job := Queued(x.cells[i].live))])
    case Execute(i, next, w) =>
      x.(writer := w, cells := x.cells[i := x.cells[i].(job := Written(x.cells[i].job.levels, next))])
    case Complete(i) => x.(cells := x.cells[i := Cell(x.cells[i].job.next, NoJob)], tickets := Told(x.tickets, i))
    case Drop(i) => x.(cells := x.cells[i := Cell({}, NoJob)])
    case Begin(r) => x.(tickets := x.tickets[r := Queueing(x.writer)])
    case CallBarrier(r) => x.(tickets := x.tickets[r := Waiting(x.tickets[r].pre, Pending(x.cells))])
    case Lock(r) => x.(tickets := x.tickets - {r}, phase := Walking(x.tickets[r].pre, map[]))
    case Visit(i) => x.(phase := x.phase.(recs := x.phase.recs[i := x.cells[i].live]))
    case Store => x.(stored := x.phase.recs, phase := Unlinking(ToDelete(x.fileSize, x.phase.pre, x.phase.recs)))
    case Abandon => x.(phase := Idle)
    case Unlink(f) => x.(deleted := x.deleted + {f}, phase := Unlinking(x.phase.todo - {f}))
    case EndUnlink => x.(phase := Idle)
    case Crash(back) => Restarted(x, back)
  }

  function Fresh(n: nat, fileSize: nat): Index {
    Index(fileSize, 0, 0, 0, seq(n, _ => Cell({}, NoJob)), map[], {}, map[], Idle, false)
  }

  ghost predicate Run(x: Index, es: seq<Event>, y: Index)
    decreases |es|
  {
    if es == [] then y == x else Can(x, es[0]) && Run(Next(x, es[0]), es[1..], y)
  }

  // ---- the invariant ----

  /** No position of `s` lies in a file of `gone`. */
  predicate Clear(size: nat, s: set<nat>, gone: set<nat>)
    requires size > 0
  {
    forall p | p in s :: File(size, p) !in gone
  }

  /** Every file of `gone` lies before the file of `p`. */
  predicate Behind(size: nat, gone: set<nat>, p: nat)
    requires size > 0
  {
    forall f | f in gone :: f < File(size, p)
  }

  /** Every position of `s` is followed by one whose file has been created. */
  predicate Created(size: nat, s: set<nat>, newest: nat)
    requires size > 0
  {
    forall p | p in s :: File(size, p + 1) <= newest
  }

  function NextOf(c: Cell): set<nat> {
    if c.job.Written? then c.job.next else {}
  }

  predicate Recent(c: Cell, s: set<nat>, pre: nat) {
    && (forall p | p in c.live :: p in s || pre <= p)
    && (forall p | p in NextOf(c) :: p in s || pre <= p)
  }

  /** A rebuild waits for every job that may install a blob written before its captured position. */
  predicate TicketOk(t: Ticket, c: Cell, i: nat) {
    t.Waiting? ==> i in t.waits || Recent(c, c.live, t.pre)
  }

  predicate CellOk(x: Index, i: nat)
    requires x.fileSize > 0 && i < |x.cells|
  {
    var c := x.cells[i];
    && (!c.job.NoJob? ==> c.job.levels == c.live)
    && Created(x.fileSize, c.live + NextOf(c) + StoredAt(x, i), x.newest)
    && Clear(x.fileSize, c.live + NextOf(c) + StoredAt(x, i), x.deleted)
    && (forall r | r in x.tickets :: TicketOk(x.tickets[r], c, i))
    && match x.phase
       case Idle => true
       case Walking(pre, recs) =>
         && Recent(c, c.live, pre)
         && (i in recs ==>
               && Recent(c, recs[i], pre) && Clear(x.fileSize, recs[i], x.deleted)
               && Created(x.fileSize, recs[i], x.newest))
       case Unlinking(todo) => Clear(x.fileSize, c.live + NextOf(c) + StoredAt(x, i), todo)
  }

  /** No deleted file lies where the writer may write: from its own file up to the last one mapped. */
  predicate WindowClear(x: Index)
    requires x.fileSize > 0
  {
    forall f | f in x.deleted :: f < File(x.fileSize, x.writer) || x.mapped < f
  }

  predicate PhaseOk(x: Index)
    requires x.fileSize > 0
  {
    match x.phase
    case Idle => true
    case Walking(pre, recs) => pre <= x.writer && forall i | i in recs :: i < |x.cells|
    case Unlinking(todo) => Behind(x.fileSize, todo, x.writer) && Behind(x.fileSize, todo, After(All(x.stored)))
  }

  predicate GcInv(x: Index) {
    && x.fileSize > 0
    && File(x.fileSize, x.writer) <= x.mapped <= x.newest
    && (forall f | f in x.deleted :: f <= x.newest)
    && (forall i | i in x.stored :: i < |x.cells|)
    && (forall i: nat | i < |x.cells| :: CellOk(x, i))
    && (forall r | r in x.tickets :: x.tickets[r].pre <= x.writer)
    && (!x.halted ==> WindowClear(x))
    && PhaseOk(x)
  }

  lemma MulMonotone(n: nat, a: nat, b: nat)
    requires a <= b
    ensures n * a <= n * b
  {
  }

  lemma FileMonotone(n: nat, p: nat, q: nat)
    requires n > 0 && p <= q
    ensures File(n, p) <= File(n, q)
  {
    var a, b := p / n, q / n;
    assert p == n * a + p % n && q == n * b + q % n;
    if b + 1 <= a {
      MulMonotone(n, b + 1, a);
    }
  }

  lemma FreshOk(n: nat, fileSize: nat)
    requires fileSize > 0
    ensures GcInv(Fresh(n, fileSize))
  {
  }

  /** Events that touch one cell, the tickets or only the phase. */
  lemma PlainOk(x: Index, e: Event)
    requires GcInv(x) && Can(x, e)
    requires e.Request? || e.Complete? || e.Drop? || e.Begin? || e.CallBarrier? || e.Lock? || e.Visit?
          || e.Abandon? || e.EndUnlink?
    ensures GcInv(Next(x, e))
  {
    var y := Next(x, e);
    forall j: nat | j < |y.cells| ensures CellOk(y, j) {
      assert CellOk(x, j);
    }
  }

  lemma UnlinkOk(x: Index, f: nat)
    requires GcInv(x) && Can(x, Unlink(f))
    ensures GcInv(Next(x, Unlink(f)))
  {
    var y := Next(x, Unlink(f));
    forall j: nat | j < |y.cells| ensures CellOk(y, j) {
      assert CellOk(x, j);
    }
  }

  lemma MapOk(x: Index)
    requires GcInv(x) && Can(x, MapNext)
    ensures GcInv(Next(x, MapNext))
  {
    var y := Next(x, MapNext);
    forall j: nat | j < |y.cells| ensures CellOk(y, j) {
      assert CellOk(x, j);
    }
  }

  /** A fresh blob lies in a file mapped and still there. */
  lemma WrittenClear(x: Index, p: nat, w: nat)
    requires GcInv(x) && !x.halted && x.writer <= p < w && File(x.fileSize, w) <= x.mapped
    ensures File(x.fileSize, p) !in x.deleted && File(x.fileSize, p + 1) <= x.newest
    ensures x.phase.Unlinking? ==> File(x.fileSize, p) !in x.phase.todo
  {
    FileMonotone(x.fileSize, x.writer, p);
    FileMonotone(x.fileSize, p, w);
    FileMonotone(x.fileSize, p + 1, w);
  }

  lemma ExecuteCell(x: Index, i: nat, next: set<nat>, w: nat)
    requires GcInv(x) && Can(x, Execute(i, next, w))
    ensures CellOk(Next(x, Execute(i, next, w)), i)
  {
    assert CellOk(x, i);
    forall p | p in next && p !in x.cells[i].live
      ensures File(x.fileSize, p) !in x.deleted && File(x.fileSize, p + 1) <= x.newest
      ensures x.phase.Unlinking? ==> File(x.fileSize, p) !in x.phase.todo
    {
      WrittenClear(x, p, w);
    }
  }

  lemma ExecuteOk(x: Index, i: nat, next: set<nat>, w: nat)
    requires GcInv(x) && Can(x, Execute(i, next, w))
    ensures GcInv(Next(x, Execute(i, next, w)))
  {
    var y := Next(x, Execute(i, next, w));
    ExecuteCell(x, i, next, w);
    FileMonotone(x.fileSize, x.writer, w);
    forall j: nat | j < |y.cells| ensures CellOk(y, j) {
      assert CellOk(x, j);
    }
  }

  /** The files about to be deleted hold nothing recorded, live or waiting to be installed. */
  lemma DoomedAreDead(x: Index, i: nat)
    requires GcInv(x) && Can(x, Store) && i < |x.cells|
    ensures var c, todo := x.cells[i], ToDelete(x.fileSize, x.phase.pre, x.phase.recs);
            Clear(x.fileSize, c.live + NextOf(c) + x.phase.recs[i], todo)
  {
    var c, todo := x.cells[i], ToDelete(x.fileSize, x.phase.pre, x.phase.recs);
    assert CellOk(x, i);
    forall p | p in c.live + NextOf(c) + x.phase.recs[i] ensures File(x.fileSize, p) !in todo {
      if p in x.phase.recs[i] {
        assert p in All(x.phase.recs);
      } else {
        FileMonotone(x.fileSize, x.phase.pre, p);
      }
    }
  }

  lemma StoreOk(x: Index)
    requires GcInv(x) && Can(x, Store)
    ensures GcInv(Next(x, Store))
  {
    var y := Next(x, Store);
    FileMonotone(x.fileSize, x.phase.pre, x.writer);
    if All(x.phase.recs) != {} {
      FileMonotone(x.fileSize, After(All(x.phase.recs)) - 1, After(All(x.phase.recs)));
    }
    forall j: nat | j < |y.cells| ensures CellOk(y, j) {
      assert CellOk(x, j);
      DoomedAreDead(x, j);
    }
  }

  /** The file a restarted writer continues in has been created. */
  lemma RestartCreated(x: Index)
    requires GcInv(x)
    ensures File(x.fileSize, After(All(x.stored))) <= x.newest
  {
    var s := All(x.stored);
    if s != {} {
      var p := After(s) - 1;
      var i :| i in x.stored && p in x.stored[i];
      assert CellOk(x, i) && p in StoredAt(x, i);
    }
  }

  lemma CrashOk(x: Index, back: set<nat>)
    requires GcInv(x)
    ensures GcInv(Restarted(x, back))
  {
    var y := Restarted(x, back);
    RestartCreated(x);
    forall j: nat | j < |y.cells| ensures CellOk(y, j) {
      assert CellOk(x, j);
      assert y.cells[j] == Cell(StoredAt(x, j), NoJob);
    }
  }

  lemma EventOk(x: Index, e: Event)
    requires GcInv(x) && Can(x, e)
    ensures GcInv(Next(x, e))
  {
    match e
    case MapNext => MapOk(x);
    case Execute(i, next, w) => ExecuteOk(x, i, next, w);
    case Store => StoreOk(x);
    case Unlink(f) => UnlinkOk(x, f);
    case Crash(back) => CrashOk(x, back);
    case _ => PlainOk(x, e);
  }

  lemma {:induction false} RunOk(x: Index, es: seq<Event>, y: Index)
    requires GcInv(x) && Run(x, es, y)
    ensures GcInv(y)
    decreases |es|
  {
    if es != [] {
      EventOk(x, es[0]);
      RunOk(Next(x, es[0]), es[1..], y);
    }
  }

  /**
   Index-file safety: over any run of flushes, relocations, drops, overlapping rebuilds and
   crashes, no stored, live or newly written position, nor any a queued job is about to read,
   ever lies in a deleted file.
  */
  lemma RunIsSafe(n: nat, fileSize: nat, es: seq<Event>, y: Index, i: nat)
    requires fileSize > 0 && Run(Fresh(n, fileSize), es, y) && i < |y.cells|
    ensures y.fileSize > 0
    ensures Clear(y.fileSize, y.cells[i].live + NextOf(y.cells[i]) + StoredAt(y, i), y.deleted)
    ensures y.cells[i].job.Queued? ==> Clear(y.fileSize, y.cells[i].job.levels, y.deleted)
  {
    FreshOk(n, fileSize);
    RunOk(Fresh(n, fileSize), es, y);
    assert CellOk(y, i);
  }
}
