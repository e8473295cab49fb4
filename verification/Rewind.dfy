/**
 When a restarted index writer runs into a deleted file.  A restart sends the writer back to
 the highest stored position; the mapper then halts at the first missing file it meets.
*/
module Rewind {
  import opened Gc

  /** A restart would put the writer past every deleted file. */
  predicate RestartClear(x: Index)
    requires x.fileSize > 0
  {
    Behind(x.fileSize, x.deleted, After(All(x.stored)))
  }

  predicate OnlyMaps(es: seq<Event>) {
    forall e | e in es :: e.MapNext?
  }

  /** After a crash now, the mapper alone brings the restarted process to a halt. */
  ghost predicate CrashHalts(x: Index) {
    exists es, y :: Can(x, Crash({})) && Run(Restarted(x, {}), es, y) && OnlyMaps(es) && y.halted
  }

  /** The mapper, left to itself, meets a deleted file ahead of it. */
  lemma {:induction false} MapsInto(x: Index, f: nat)
    requires x.fileSize > 0 && !x.halted && f in x.deleted && x.mapped < f <= x.newest
    ensures exists es, y :: Run(x, es, y) && OnlyMaps(es) && y.halted
    decreases f - x.mapped
  {
    var m := Next(x, MapNext);
    if m.halted {
      assert [MapNext][1..] == [] && Run(m, [MapNext][1..], m);
      assert Run(x, [MapNext], m) && OnlyMaps([MapNext]);
    } else {
      MapsInto(m, f);
      var es, y :| Run(m, es, y) && OnlyMaps(es) && y.halted;
      assert ([MapNext] + es)[1..] == es;
      assert Run(x, [MapNext] + es, y) && OnlyMaps([MapNext] + es);
    }
  }

  lemma {:induction false} MapsOn(x: Index, es: seq<Event>, y: Index)
    requires x.fileSize > 0 && !x.halted && (forall f | f in x.deleted ::
      f <= x.mapped) && Run(x, es, y) && OnlyMaps(es)
    ensures !y.halted
    decreases |es|
  {
    if es != [] {
      assert es[0] in es;
      MapsOn(Next(x, es[0]), es[1..], y);
    }
  }

  /** A crash leads to a halt iff the restarted writer comes back at or before a deleted file. */
  lemma CrashHaltsIff(x: Index)
    requires GcInv(x)
    ensures CrashHalts(x) <==> !RestartClear(x)
  {
    var y := Restarted(x, {});
    RestartCreated(x);
    if RestartClear(x) {
      forall es, z | Run(y, es, z) && OnlyMaps(es) ensures !z.halted {
        MapsOn(y, es, z);
      }
    } else {
      var f :| f in x.deleted && File(x.fileSize, After(All(x.stored))) <= f;
      if y.halted {
        assert Run(y, [], y) && OnlyMaps([]);
      } else {
        MapsInto(y, f);
      }
    }
  }

  // ---- the exact condition ----

  /** What a store can check of itself: its highest recorded file lies above every deleted one. */
  predicate LevelStore(x: Index)
    requires x.fileSize > 0 && x.phase.Walking?
  {
    Behind(x.fileSize, x.deleted, After(All(x.phase.recs)))
  }

  ghost predicate LevelStores(x: Index, es: seq<Event>)
    decreases |es|
  {
    es == [] || (Can(x, es[0]) && (es[0].Store? ==> LevelStore(x)) && LevelStores(Next(x, es[0]), es[1..]))
  }

  /** At no point of the run would a crash lead to a halt. */
  ghost predicate CrashSafe(x: Index, es: seq<Event>)
    decreases |es|
  {
    !CrashHalts(x) && (es != [] ==> Can(x, es[0]) && CrashSafe(Next(x, es[0]), es[1..]))
  }

  /** Neither this process nor a restarted one has a deleted file ahead of its writer. */
  predicate Sailing(x: Index)
    requires x.fileSize > 0
  {
    !x.halted && Behind(x.fileSize, x.deleted, x.writer) && RestartClear(x)
  }

  lemma SailingKept(x: Index, e: Event)
    requires GcInv(x) && Sailing(x) && Can(x, e) && !e.Store?
    ensures Sailing(Next(x, e))
  {
    if e.Execute? {
      FileMonotone(x.fileSize, x.writer, e.writer);
    }
  }

  lemma StoreSails(x: Index)
    requires GcInv(x) && Sailing(x) && Can(x, Store)
    ensures Sailing(Next(x, Store)) <==> LevelStore(x)
  {
  }

  lemma {:induction false} CrashSafeFrom(x: Index, es: seq<Event>, y: Index)
    requires GcInv(x) && Sailing(x) && Run(x, es, y)
    ensures CrashSafe(x, es) <==> LevelStores(x, es)
    ensures LevelStores(x, es) ==> !y.halted
    decreases |es|
  {
    CrashHaltsIff(x);
    if es != [] {
      var e, m := es[0], Next(x, es[0]);
      EventOk(x, e);
      CrashHaltsIff(m);
      if e.Store? {
        StoreSails(x);
      } else {
        SailingKept(x, e);
      }
      if RestartClear(m) {
        CrashSafeFrom(m, es[1..], y);
      }
    }
  }

  /**
   Exactly the runs whose every store is level are safe to crash: no restart after any part of
   them has its mapper meet a deleted file.
  */
  lemma NeverMeetsDeletedIff(n: nat, fileSize: nat, es: seq<Event>, y: Index)
    requires fileSize > 0 && Run(Fresh(n, fileSize), es, y)
    ensures CrashSafe(Fresh(n, fileSize), es) <==> LevelStores(Fresh(n, fileSize), es)
    ensures LevelStores(Fresh(n, fileSize), es) ==> !y.halted
  {
    FreshOk(n, fileSize);
    CrashSafeFrom(Fresh(n, fileSize), es, y);
  }

  // ---- runs whose stores are level ----

  /** `b` reaches at least as far as `a`. */
  predicate Reaches(a: set<nat>, b: set<nat>) {
    forall p | p in a :: exists q | q in b :: p <= q
  }

  /** A flush that writes a blob, or changes nothing, never lowers a cell's highest position. */
  predicate Steady(x: Index, e: Event)
  {
    match e
    case Execute(i, next, _) =>
      && i < |x.cells| && x.cells[i].job.Queued?
      && (next == x.cells[i].job.levels || exists p | p in next :: x.writer <= p)
    case Drop(_) => false
    case _ => true
  }

  predicate CellTop(x: Index, i: nat)
    requires i < |x.cells|
  {
    var c := x.cells[i];
    && (forall p | p in c.live + NextOf(c) + StoredAt(x, i) :: p < x.writer)
    && Reaches(StoredAt(x, i), c.live) && (c.job.Written? ==> Reaches(c.live, c.job.next))
    && (x.phase.Walking? && i in x.phase.recs ==>
          && Reaches(StoredAt(x, i), x.phase.recs[i]) && Reaches(x.phase.recs[i], c.live)
          && forall p | p in x.phase.recs[i] :: p < x.writer)
  }

  /** Every file of `gone` lies before the file of some stored position. */
  predicate Below(size: nat, stored: map<nat, set<nat>>, gone: set<nat>)
    requires size > 0
  {
    forall f | f in gone :: exists i, p | i in stored && p in stored[i] :: f < File(size, p)
  }

  predicate TopInv(x: Index)
    requires x.fileSize > 0
  {
    && (forall i: nat | i < |x.cells| :: CellTop(x, i))
    && Below(x.fileSize, x.stored, x.deleted)
    && (x.phase.Unlinking? ==> Below(x.fileSize, x.stored, x.phase.todo))
  }

  lemma ReachesTransitive(a: set<nat>, b: set<nat>, c: set<nat>)
    requires Reaches(a, b) && Reaches(b, c)
    ensures Reaches(a, c)
  {
    forall p | p in a ensures exists q | q in c :: p <= q {
      var m :| m in b && p <= m;
      var q :| q in c && m <= q;
    }
  }

  lemma CompleteTop(x: Index, j: nat)
    requires GcInv(x) && Can(x, Complete(j)) && CellTop(x, j)
    ensures CellTop(Next(x, Complete(j)), j)
  {
    var c := x.cells[j];
    assert CellOk(x, j);
    ReachesTransitive(StoredAt(x, j), c.live, c.job.next);
    if x.phase.Walking? && j in x.phase.recs {
      ReachesTransitive(x.phase.recs[j], c.live, c.job.next);
    }
  }

  lemma CrashTop(x: Index, back: set<nat>, j: nat)
    requires x.fileSize > 0 && j < |x.cells| && (forall i | i in x.stored :: i < |x.cells|)
    ensures CellTop(Restarted(x, back), j)
  {
    var y := Restarted(x, back);
    assert y.cells[j] == Cell(StoredAt(x, j), NoJob);
    forall p | p in StoredAt(x, j) ensures p < y.writer {
      assert p in All(x.stored);
    }
  }

  lemma TopCell(x: Index, e: Event, j: nat)
    requires GcInv(x) && j < |x.cells| && CellTop(x, j) && Can(x, e) && Steady(x, e)
    ensures j < |Next(x, e).cells| && CellTop(Next(x, e), j)
  {
    assert CellOk(x, j);
    if e == Complete(j) {
      CompleteTop(x, j);
    } else if e.Crash? {
      CrashTop(x, e.back, j);
    }
  }

  lemma StoreBelow(x: Index)
    requires GcInv(x) && TopInv(x) && Can(x, Store)
    ensures Below(x.fileSize, x.phase.recs, x.deleted)
    ensures Below(x.fileSize, x.phase.recs, ToDelete(x.fileSize, x.phase.pre, x.phase.recs))
  {
    var recs := x.phase.recs;
    forall f | f in x.deleted ensures exists i, p | i in recs && p in recs[i] :: f < File(x.fileSize, p) {
      var i, p :| i in x.stored && p in x.stored[i] && f < File(x.fileSize, p);
      assert CellTop(x, i);
      var q :| q in recs[i] && p <= q;
      FileMonotone(x.fileSize, p, q);
    }
    forall f | f in ToDelete(x.fileSize, x.phase.pre, recs)
      ensures exists i, p | i in recs && p in recs[i] :: f < File(x.fileSize, p)
    {
      var m := After(All(recs)) - 1;
      assert m in All(recs);
      var i :| i in recs && m in recs[i];
    }
  }

  lemma TopStep(x: Index, e: Event)
    requires GcInv(x) && TopInv(x) && Can(x, e) && Steady(x, e)
    ensures TopInv(Next(x, e))
  {
    var y := Next(x, e);
    forall j: nat | j < |y.cells| ensures CellTop(y, j) {
      TopCell(x, e, j);
    }
    if e.Store? {
      StoreBelow(x);
    }
  }


  lemma TopIsLevel(x: Index)
    requires GcInv(x) && TopInv(x) && Can(x, Store)
    ensures LevelStore(x)
  {
    var recs := x.phase.recs;
    StoreBelow(x);
    forall f | f in x.deleted ensures f < File(x.fileSize, After(All(recs))) {
      var i, p :| i in recs && p in recs[i] && f < File(x.fileSize, p);
      assert p in All(recs);
      FileMonotone(x.fileSize, p, After(All(recs)));
    }
  }

  ghost predicate SteadyRun(x: Index, es: seq<Event>)
    decreases |es|
  {
    es == [] || (Can(x, es[0]) && Steady(x, es[0]) && SteadyRun(Next(x, es[0]), es[1..]))
  }

  lemma {:induction false} SteadyIsLevel(x: Index, es: seq<Event>)
    requires GcInv(x) && TopInv(x) && SteadyRun(x, es)
    ensures LevelStores(x, es)
    decreases |es|
  {
    if es != [] {
      if es[0].Store? {
        TopIsLevel(x);
      }
      EventOk(x, es[0]);
      TopStep(x, es[0]);
      SteadyIsLevel(Next(x, es[0]), es[1..]);
    }
  }

  /** Flushes that write a blob or change nothing keep every store level, whatever crashes and overlaps the run sees. */
  lemma SteadyNeverMeetsDeleted(n: nat, fileSize: nat, es: seq<Event>, y: Index)
    requires fileSize > 0 && Run(Fresh(n, fileSize), es, y) && SteadyRun(Fresh(n, fileSize), es)
    ensures CrashSafe(Fresh(n, fileSize), es) && !y.halted
  {
    FreshOk(n, fileSize);
    SteadyIsLevel(Fresh(n, fileSize), es);
    NeverMeetsDeletedIff(n, fileSize, es, y);
  }

  // ---- a run that ends at a deleted file ----

  lemma {:induction false} RunThen(x: Index, es: seq<Event>, m: Index, fs: seq<Event>, y: Index)
    requires Run(x, es, m) && Run(m, fs, y)
    ensures Run(x, es + fs, y)
    decreases |es|
  {
    if es == [] {
      assert es + fs == fs;
    } else {
      RunThen(Next(x, es[0]), es[1..], m, fs, y);
      assert (es + fs)[1..] == es[1..] + fs;
    }
  }

  ghost predicate Leads(x: Index, y: Index) {
    exists es :: Run(x, es, y)
  }

  lemma Then(x: Index, m: Index, e: Event, y: Index)
    requires Leads(x, m) && Can(m, e) && y == Next(m, e)
    ensures Leads(x, y)
  {
    var es :| Run(x, es, m);
    assert [e][1..] == [] && Run(Next(m, e), [e][1..], y);
    RunThen(x, es, m, [e], y);
  }

  /** A one-cell index with one-position files and nothing in flight. */
  function Single(writer: nat, live: set<nat>, stored: map<nat, set<nat>>, deleted: set<nat>, phase: Phase): Index {
    Index(1, writer, 10, 10, [Cell(live, NoJob)], stored, deleted, map[], phase, false)
  }

  lemma {:induction false} MappedTo(n: nat)
    ensures Leads(Fresh(1, 1), Fresh(1, 1).(mapped := n, newest := n))
  {
    if n == 0 {
      assert Run(Fresh(1, 1), [], Fresh(1, 1));
    } else {
      MappedTo(n - 1);
      Then(Fresh(1, 1), Fresh(1, 1).(mapped := n - 1, newest := n - 1), MapNext,
           Fresh(1, 1).(mapped := n, newest := n));
    }
  }

  lemma Flushes(x: Index, w: nat, live: set<nat>, next: set<nat>, w': nat, st: map<nat, set<nat>>, gone: set<nat>)
    requires Leads(x, Single(w, live, st, gone, Idle)) && FlushShape(live, next, w, w') && w' <= 10
    ensures Leads(x, Single(w', next, st, gone, Idle))
  {
    var s := Single(w, live, st, gone, Idle);
    var s1 := s.(cells := [Cell(live, Queued(live))]);
    var s2 := s.(writer := w', cells := [Cell(live, Written(live, next))]);
    Then(x, s, Request(0), s1);
    assert s2.cells == s1.cells[0 := Cell(live, Written(live, next))];
    Then(x, s1, Execute(0, next, w'), s2);
    var y := Single(w', next, st, gone, Idle);
    assert y.cells == s2.cells[0 := Cell(next, NoJob)];
    assert Told(map[], 0) == map[];
    Then(x, s2, Complete(0), y);
  }

  lemma Rebuilds(x: Index, w: nat, live: set<nat>, st: map<nat, set<nat>>, gone: set<nat>)
    requires Leads(x, Single(w, live, st, gone, Idle))
    ensures Leads(x, Single(w, live, map[0 := live], gone, Unlinking(ToDelete(1, w, map[0 := live]))))
  {
    var s := Single(w, live, st, gone, Idle);
    var s1, s2 := s.(tickets := map[0 := Queueing(w)]), s.(tickets := map[0 := Waiting(w, {})]);
    var s3, s4 := s.(phase := Walking(w, map[])), s.(phase := Walking(w, map[0 := live]));
    Then(x, s, Begin(0), s1);
    assert Pending(s.cells) == {};
    Then(x, s1, CallBarrier(0), s2);
    assert s2.tickets - {0} == map[];
    Then(x, s2, Lock(0), s3);
    Then(x, s3, Visit(0), s4);
    Then(x, s4, Store, s4.(stored := map[0 := live], phase := Unlinking(ToDelete(1, w, map[0 := live]))));
  }

  lemma AllOne(live: set<nat>)
    ensures All(map[0 := live]) == live
  {
    var recs: map<nat, set<nat>> := map[0 := live];
    forall p ensures p in All(recs) <==> p in live {
      if p in live {
        assert 0 in recs && p in recs[0];
      }
    }
  }

  /** Blobs in files 0 and 9 are stored, and a rebuild has deleted file 5. */
  lemma Collected()
    ensures Leads(Fresh(1, 1), Single(10, {0, 9}, map[0 := {0, 9}], {5}, Idle))
  {
    var x := Fresh(1, 1);
    var both: map<nat, set<nat>> := map[0 := {0, 9}];
    MappedTo(10);
    assert x.(mapped := 10, newest := 10) == Single(0, {}, map[], {}, Idle) by {
      assert x.cells == [Cell({}, NoJob)];
    }
    Flushes(x, 0, {}, {0, 9}, 10, map[], {});
    Rebuilds(x, 10, {0, 9}, map[], {});
    AllOne({0, 9});
    var todo := ToDelete(1, 10, both);
    assert Dead(1, {0, 9}, 5) && 5 in todo;
    Then(x, Single(10, {0, 9}, both, {}, Unlinking(todo)), Unlink(5),
         Single(10, {0, 9}, both, {5}, Unlinking(todo - {5})));
    Then(x, Single(10, {0, 9}, both, {5}, Unlinking(todo - {5})), EndUnlink, Single(10, {0, 9}, both, {5}, Idle));
  }

  /**
   A flush that leaves only old blobs behind is enough: the next store is not level, a crash
   sends the writer back to file 1, and the mapper halts at deleted file 5.
  */
  lemma ShrinkingFlushHalts()
    ensures exists es, y :: Run(Fresh(1, 1), es, y) && y.halted
  {
    var x := Fresh(1, 1);
    Collected();
    Flushes(x, 10, {0, 9}, {0}, 10, map[0 := {0, 9}], {5});
    Rebuilds(x, 10, {0}, map[0 := {0, 9}], {5});
    var m := Single(10, {0}, map[0 := {0}], {5}, Unlinking(ToDelete(1, 10, map[0 := {0}])));
    var es :| Run(x, es, m);
    FreshOk(1, 1);
    RunOk(x, es, m);
    AllOne({0});
    assert 5 in m.deleted;
    CrashHaltsIff(m);
    Then(x, m, Crash({}), Restarted(m, {}));
    var fs, y :| Run(Restarted(m, {}), fs, y) && y.halted;
    var gs :| Run(x, gs, Restarted(m, {}));
    RunThen(x, gs, Restarted(m, {}), fs, y);
  }
}
