/**
 Ordered iteration: a step merges the in-memory overlay with the on-disk levels of one cell,
 opening one shard of a sharded cell, and moves on to the next cell when it is exhausted.
*/
module Iteration {
  import opened Bytes
  import opened IndexTable
  import opened CellSpec
  import opened Levels
  import Geometry

  /** Key order in the direction of the walk. */
  predicate Before(rev: bool, a: Key, b: Key) {
    if rev then Less(b, a) else Less(a, b)
  }

  predicate Past(rev: bool, prev: Option<Key>, k: Key) {
    prev.Some? ==> Before(rev, prev.value, k)
  }

  /** `r` is the first entry of `b` past `prev`. */
  predicate IsNext(b: Blob, rev: bool, prev: Option<Key>, r: Option<Key>) {
    match r
    case None => forall k | k in b :: !Past(rev, prev, k)
    case Some(n) =>
      && n in b && Past(rev, prev, n)
      && forall k | k in b && Past(rev, prev, k) && k != n :: Before(rev, n, k)
  }

  lemma BeforeTransitive(rev: bool, a: Key, b: Key, c: Key)
    requires Before(rev, a, b) && Before(rev, b, c)
    ensures Before(rev, a, c)
  {
    if rev {
      LessTransitive(c, b, a);
    } else {
      LessTransitive(a, b, c);
    }
  }

  lemma BeforeTotal(rev: bool, a: Key, b: Key)
    ensures Before(rev, a, b) || a == b || Before(rev, b, a)
    ensures !(Before(rev, a, b) && Before(rev, b, a))
  {
    LessTotal(a, b);
    NotLeqLess(a, b);
    NotLeqLess(b, a);
  }

  /** The next key of one source. */
  method NextIn(b: Blob, rev: bool, prev: Option<Key>) returns (r: Option<Key>)
    ensures IsNext(b, rev, prev, r)
  {
    r := None;
    var todo := b.Keys;
    while todo != {}
      invariant todo <= b.Keys
      invariant r.None? ==> forall k | k in b && k !in todo :: !Past(rev, prev, k)
      invariant r.Some? ==> r.value in b && Past(rev, prev, r.value)
      invariant r.Some? ==> forall k | k in b && k !in todo && Past(rev, prev, k) && k != r.value ::
        Before(rev, r.value, k)
      decreases todo
    {
      var k :| k in todo;
      todo := todo - {k};
      if Past(rev, prev, k) {
        if r.None? {
          r := Some(k);
        } else {
          BeforeTotal(rev, k, r.value);
          if Before(rev, k, r.value) {
            forall j | Before(rev, r.value, j) ensures Before(rev, k, j) {
              BeforeTransitive(rev, k, r.value, j);
            }
            r := Some(k);
          }
        }
      }
    }
  }

  /** Laid over one another, the first source on top. */
  function Stack(sources: seq<Blob>): Blob {
    if sources == [] then map[] else sources[|sources| - 1] + Stack(sources[..|sources| - 1])
  }

  datatype Outcome = NotFound | Found(key: Key, off: nat) | SkipDeleted(key: Key)

  /** The merge of a step: the candidate that comes first, the fresher source winning ties. */
  method MergeStep(sources: seq<Blob>, rev: bool, prev: Option<Key>) returns (r: Outcome)
    ensures r.NotFound? ==> IsNext(Stack(sources), rev, prev, None)
    ensures !r.NotFound? ==> IsNext(Stack(sources), rev, prev, Some(r.key))
    ensures r.Found? ==> Stack(sources)[r.key] == Entry(r.off, false)
    ensures r.SkipDeleted? ==> Stack(sources)[r.key].del
  {
    var winner: Option<Key> := None;
    var entry := Entry(0, true);
    for n := 0 to |sources|
      invariant IsNext(Stack(sources[..n]), rev, prev, winner)
      invariant winner.Some? ==> Stack(sources[..n])[winner.value] == entry
    {
      var c := NextIn(sources[n], rev, prev);
      assert sources[..n + 1][..n] == sources[..n];
      ghost var top := Stack(sources[..n]);
      if c.Some? {
        if winner.Some? {
          BeforeTotal(rev, winner.value, c.value);
        }
        if winner.None? || Before(rev, c.value, winner.value) {
          BottomWins(sources[n], top, rev, prev, c.value, winner);
          winner, entry := c, sources[n][c.value];
        } else {
          TopWins(sources[n], top, rev, prev, c, winner.value);
        }
      }
    }
    assert sources[..|sources|] == sources;
    r := if winner.None? then NotFound
         else if entry.del then SkipDeleted(winner.value)
         else Found(winner.value, entry.off);
  }

  lemma TopWins(below: Blob, top: Blob, rev: bool, prev: Option<Key>, w: Option<Key>, c: Key)
    requires IsNext(below, rev, prev, w) && IsNext(top, rev, prev, Some(c))
    requires w.Some? ==> w.value == c || Before(rev, c, w.value)
    ensures IsNext(below + top, rev, prev, Some(c))
  {
    forall k | k in below + top && Past(rev, prev, k) && k != c ensures Before(rev, c, k) {
      if k !in top && w.value != c && k != w.value {
        BeforeTransitive(rev, c, w.value, k);
      }
    }
  }

  lemma BottomWins(below: Blob, top: Blob, rev: bool, prev: Option<Key>, w: Key, c: Option<Key>)
    requires IsNext(below, rev, prev, Some(w)) && IsNext(top, rev, prev, c)
    requires c.Some? ==> Before(rev, w, c.value)
    ensures IsNext(below + top, rev, prev, Some(w))
    ensures w !in top
  {
    forall k | k in top && Past(rev, prev, k) ensures Before(rev, w, k) {
      if k != c.value {
        BeforeTransitive(rev, w, c.value, k);
      }
    }
    BeforeTotal(rev, w, w);
  }

  // ---- one shard per step ----

  /** The shard holding the first content key past the cursor. */
  function PickShard(sh: seq<Shard>, rev: bool, prev: Option<Key>): (r: Option<nat>)
    requires Ordered(sh)
    ensures r.Some? ==> r.value < |sh|
  {
    if sh == [] then None
    else if prev.None? then Some(if rev then |sh| - 1 else 0)
    else if rev then
      var n := Predecessors(sh, prev.value);
      if n > 0 && sh[n - 1].min != prev.value then Some(n - 1)
      else if n > 1 then Some(n - 2)
      else None
    else
      var n := Predecessors(sh, prev.value);
      if n > 0 && Less(prev.value, sh[n - 1].max) then Some(n - 1)
      else if n < |sh| then Some(n)
      else None
  }

  /** Every key of every shard lies within its bounds. */
  lemma {:induction false} UnionKey(sh: seq<Shard>, d: Disk, k: Key) returns (i: nat)
    requires ShardsOk(sh, d) && k in Union(sh, d)
    ensures i < |sh| && k in d[sh[i].pos]
  {
    UnionLookup(sh, d, k);
    i := ShardFor(sh, k).value;
  }

  lemma InUnion(sh: seq<Shard>, d: Disk, i: nat, k: Key)
    requires ShardsOk(sh, d) && i < |sh| && k in d[sh[i].pos]
    ensures k in Union(sh, d)
  {
    UnionLookup(sh, d, k);
    ShardForCovers(sh, k, i);
  }

  /** Keys of an earlier shard come before keys of a later one. */
  lemma ShardsApart(sh: seq<Shard>, d: Disk, i: nat, j: nat, a: Key, b: Key)
    requires ShardsOk(sh, d) && i < j < |sh| && a in d[sh[i].pos] && b in d[sh[j].pos]
    ensures Less(a, b)
  {
    LeqLess(a, sh[i].max, sh[j].min);
    LessLeq(a, sh[j].min, b);
  }

  lemma PickForward(sh: seq<Shard>, d: Disk, prev: Option<Key>, j: nat, k: Key)
    requires ShardsOk(sh, d) && j < |sh| && k in d[sh[j].pos] && Past(false, prev, k)
    ensures var i := PickShard(sh, false, prev); i.Some? && i.value <= j
    ensures var i := PickShard(sh, false, prev); exists l :: l in d[sh[i.value].pos] && Past(false, prev, l)
  {
    var i := PickShard(sh, false, prev);
    if prev.None? {
      assert sh[0].min in d[sh[0].pos];
    } else {
      var n := Predecessors(sh, prev.value);
      if n > 0 && Less(prev.value, sh[n - 1].max) {
        assert sh[n - 1].max in d[sh[n - 1].pos];
        if j < n - 1 {
          ShardsApart(sh, d, j, n - 1, k, sh[n - 1].min);
          LessLeq(k, sh[n - 1].min, prev.value);
          NotLeqLess(prev.value, k);
        }
      } else {
        if j < n {
          LessLeq(prev.value, k, sh[j].max);
          if j < n - 1 {
            LessTransitive(prev.value, sh[j].max, sh[n - 1].min);
            NotLeqLess(sh[n - 1].min, prev.value);
          }
        }
        assert n <= j;
        assert sh[n].min in d[sh[n].pos];
      }
    }
  }

  lemma PickReverse(sh: seq<Shard>, d: Disk, prev: Option<Key>, j: nat, k: Key)
    requires ShardsOk(sh, d) && j < |sh| && k in d[sh[j].pos] && Past(true, prev, k)
    ensures var i := PickShard(sh, true, prev); i.Some? && j <= i.value
    ensures var i := PickShard(sh, true, prev); exists l :: l in d[sh[i.value].pos] && Past(true, prev, l)
  {
    if prev.None? {
      assert sh[|sh| - 1].min in d[sh[|sh| - 1].pos];
    } else {
      var n := Predecessors(sh, prev.value);
      LeqLess(sh[j].min, k, prev.value);
      if n <= j {
        NotLeqLess(sh[j].min, prev.value);
      }
      assert j < n;
      if sh[n - 1].min != prev.value {
        assert sh[n - 1].min in d[sh[n - 1].pos];
      } else {
        LessIrreflexive(prev.value);
        assert j < n - 1;
        assert Less(sh[n - 2].min, prev.value) by {
          LeqLess(sh[n - 2].min, sh[n - 2].max, sh[n - 1].min);
        }
        assert sh[n - 2].min in d[sh[n - 2].pos];
      }
    }
  }

  /** Opening the picked shard alone, the step sees the same next key as all shards together. */
  lemma OneShardSuffices(sh: seq<Shard>, d: Disk, rev: bool, prev: Option<Key>, r: Option<Key>)
    requires ShardsOk(sh, d)
    requires var i := PickShard(sh, rev, prev);
             if i.Some? then IsNext(d[sh[i.value].pos], rev, prev, r) else r.None?
    ensures IsNext(Union(sh, d), rev, prev, r)
    ensures r.Some? ==> Union(sh, d)[r.value] == d[sh[PickShard(sh, rev, prev).value].pos][r.value]
  {
    var i := PickShard(sh, rev, prev);
    if r.Some? {
      InUnion(sh, d, i.value, r.value);
      UnionLookup(sh, d, r.value);
      ShardForCovers(sh, r.value, i.value);
    }
    forall k | k in Union(sh, d) && Past(rev, prev, k) ensures r.Some? && (k == r.value || Before(rev, r.value, k)) {
      var j := UnionKey(sh, d, k);
      if rev {
        PickReverse(sh, d, prev, j, k);
        if j < i.value {
          ShardsApart(sh, d, j, i.value, k, r.value);
        }
      } else {
        PickForward(sh, d, prev, j, k);
        if i.value < j {
          ShardsApart(sh, d, i.value, j, r.value, k);
        }
      }
    }
  }

  // ---- one cell ----

  /** What a step sees of a cell: the overlay snapshot and the levels it may open. */
  datatype CellView = CellView(overlay: Blob, levels: Levels, loaded: bool)

  /** The levels' share of a step; a loaded overlay already covers L0. */
  function Walked(v: CellView, d: Disk, rev: bool, prev: Option<Key>): seq<Blob>
    requires LevelsOk(v.levels, d)
  {
    (if v.loaded || v.levels.l0.None? then [] else [d[v.levels.l0.value]])
    + (if IsSharded(v.levels) then
         var i := PickShard(v.levels.shards, rev, prev);
         if i.Some? then [d[v.levels.shards[i.value].pos]] else []
       else if v.levels.l1.Some? then [d[v.levels.l1.value]] else [])
  }

  function Lower(v: CellView, d: Disk): Blob {
    if IsSharded(v.levels) then Union(v.levels.shards, d)
    else if v.levels.l1.Some? && v.levels.l1.value in d then d[v.levels.l1.value] else map[]
  }

  /** Everything the cell holds, fresher entries on top. */
  function Content(v: CellView, d: Disk): Blob {
    Lower(v, d)
    + (if v.loaded || v.levels.l0.None? || v.levels.l0.value !in d then map[] else d[v.levels.l0.value])
    + v.overlay
  }

  /** A part that agrees on the next key may stand for the whole under any overlay. */
  lemma Substitute(part: Blob, whole: Blob, top: Blob, rev: bool, prev: Option<Key>, n: Option<Key>, r: Option<Key>)
    requires IsNext(part, rev, prev, n) && IsNext(whole, rev, prev, n)
    requires forall k | k in part :: k in whole && whole[k] == part[k]
    requires IsNext(part + top, rev, prev, r)
    ensures IsNext(whole + top, rev, prev, r)
    ensures r.Some? ==> (whole + top)[r.value] == (part + top)[r.value]
  {
    forall k | k in whole + top && Past(rev, prev, k) ensures r.Some? && (k == r.value || Before(rev, r.value, k)) {
      if k !in top {
        assert n.value in part + top;
        if k != n.value && n.value != r.value {
          BeforeTransitive(rev, r.value, n.value, k);
        }
      }
    }
  }

  /** The first overlay entry or level entry past the cursor is the first entry of the cell past the cursor. */
  lemma StepSeesCell(v: CellView, d: Disk, rev: bool, prev: Option<Key>, n: Option<Key>, r: Option<Key>)
    requires LevelsOk(v.levels, d)
    requires IsNext(Stack([v.overlay] + Walked(v, d, rev, prev)), rev, prev, r)
    requires IsSharded(v.levels) ==>
      var i := PickShard(v.levels.shards, rev, prev);
      if i.Some? then IsNext(d[v.levels.shards[i.value].pos], rev, prev, n) else n.None?
    ensures IsNext(Content(v, d), rev, prev, r)
    ensures r.Some? ==> Content(v, d)[r.value] == Stack([v.overlay] + Walked(v, d, rev, prev))[r.value]
  {
    var l0 := if v.loaded || v.levels.l0.None? then map[] else d[v.levels.l0.value];
    var top := l0 + v.overlay;
    StackWalked(v, d, rev, prev);
    MapPlus(Lower(v, d), l0, v.overlay);
    if IsSharded(v.levels) {
      var sh := v.levels.shards;
      var i := PickShard(sh, rev, prev);
      OneShardSuffices(sh, d, rev, prev, n);
      if i.Some? {
        ShardWithin(sh, d, i.value);
      }
      Substitute(if i.Some? then d[sh[i.value].pos] else map[], Union(sh, d), top, rev, prev, n, r);
    }
  }

  lemma ShardWithin(sh: seq<Shard>, d: Disk, i: nat)
    requires ShardsOk(sh, d) && i < |sh|
    ensures forall k | k in d[sh[i].pos] :: k in Union(sh, d) && Union(sh, d)[k] == d[sh[i].pos][k]
  {
    forall k | k in d[sh[i].pos] ensures k in Union(sh, d) && Union(sh, d)[k] == d[sh[i].pos][k] {
      UnionLookup(sh, d, k);
      ShardForCovers(sh, k, i);
    }
  }

  lemma StackWalked(v: CellView, d: Disk, rev: bool, prev: Option<Key>)
    requires LevelsOk(v.levels, d)
    ensures var l0 := if v.loaded || v.levels.l0.None? then map[] else d[v.levels.l0.value];
            var low := if IsSharded(v.levels) then
                         var i := PickShard(v.levels.shards, rev, prev);
                         if i.Some? then d[v.levels.shards[i.value].pos] else map[]
                       else if v.levels.l1.Some? then d[v.levels.l1.value] else map[];
            Stack([v.overlay] + Walked(v, d, rev, prev)) == low + (l0 + v.overlay)
  {
    var w := Walked(v, d, rev, prev);
    StackOne(v.overlay);
    if |w| == 1 {
      StackTwo(v.overlay, w[0]);
    } else if |w| == 2 {
      assert w == [w[0], w[1]];
      StackThree(v.overlay, w[0], w[1]);
    }
  }

  lemma StackOne(a: Blob)
    ensures Stack([a]) == a
  {
    assert [a][..0] == [];
    assert Stack([a]) == a + map[];
  }

  lemma StackTwo(a: Blob, b: Blob)
    ensures Stack([a] + [b]) == b + a
  {
    assert ([a] + [b])[..1] == [a];
    StackOne(a);
  }

  lemma StackThree(a: Blob, b: Blob, c: Blob)
    ensures Stack([a] + [b, c]) == c + (b + a)
  {
    assert ([a] + [b, c])[..2] == [a] + [b];
    StackTwo(a, b);
  }

  /** `r` is the first live entry of `b` past `prev`. */
  predicate IsNextLive(b: Blob, rev: bool, prev: Option<Key>, r: Option<(Key, nat)>) {
    match r
    case None => forall k | k in b && Past(rev, prev, k) :: b[k].del
    case Some((n, off)) =>
      && n in b && b[n] == Entry(off, false) && Past(rev, prev, n)
      && forall k | k in b && Past(rev, prev, k) && k != n && !b[k].del :: Before(rev, n, k)
  }

  /** Skipping a tombstone loses no live entry. */
  lemma SkipTombstone(b: Blob, rev: bool, prev: Option<Key>, t: Key, r: Option<(Key, nat)>)
    requires IsNext(b, rev, prev, Some(t)) && b[t].del && IsNextLive(b, rev, Some(t), r)
    ensures IsNextLive(b, rev, prev, r)
  {
    if r.Some? && prev.Some? {
      BeforeTransitive(rev, prev.value, t, r.value.0);
    }
  }

  /** The cells of the next live entry: every step re-picks the shard, tombstones are skipped one by one. */
  method CellNext(v: CellView, d: Disk, rev: bool, from: Option<Key>) returns (r: Option<(Key, nat)>)
    requires LevelsOk(v.levels, d)
    ensures IsNextLive(Content(v, d), rev, from, r)
  {
    var prev := from;
    ghost var c := Content(v, d);
    ghost var left := set k | k in c && Past(rev, prev, k);
    while true
      invariant left == set k | k in c && Past(rev, prev, k)
      invariant forall r' :: IsNextLive(c, rev, prev, r') ==> IsNextLive(c, rev, from, r')
      decreases left
    {
      var o := CellStep(v, d, rev, prev);
      match o {
        case NotFound => return None;
        case Found(k, off) => return Some((k, off));
        case SkipDeleted(k) =>
          forall r' | IsNextLive(c, rev, Some(k), r') ensures IsNextLive(c, rev, from, r') {
            SkipTombstone(c, rev, prev, k, r');
          }
          ghost var after := set j | j in c && Past(rev, Some(k), j);
          Shrinks(c, rev, prev, k);
          assert after < left;
          left := after;
          prev := Some(k);
      }
    }
  }

  lemma Shrinks(c: Blob, rev: bool, prev: Option<Key>, k: Key)
    requires k in c && Past(rev, prev, k)
    ensures (set j | j in c && Past(rev, Some(k), j)) < (set j | j in c && Past(rev, prev, j))
  {
    var a, b := set j | j in c && Past(rev, Some(k), j), set j | j in c && Past(rev, prev, j);
    forall j | j in a ensures j in b {
      if prev.Some? {
        BeforeTransitive(rev, prev.value, k, j);
      }
    }
    BeforeTotal(rev, k, k);
    assert k in b && k !in a;
  }

  /** One merge over the sources picked for this cursor. */
  method CellStep(v: CellView, d: Disk, rev: bool, prev: Option<Key>) returns (o: Outcome)
    requires LevelsOk(v.levels, d)
    ensures o.NotFound? ==> IsNext(Content(v, d), rev, prev, None)
    ensures !o.NotFound? ==> IsNext(Content(v, d), rev, prev, Some(o.key))
    ensures o.Found? ==> Content(v, d)[o.key] == Entry(o.off, false)
    ensures o.SkipDeleted? ==> Content(v, d)[o.key].del
  {
    var sources := [v.overlay] + Walked(v, d, rev, prev);
    o := MergeStep(sources, rev, prev);
    ghost var n: Option<Key> := None;
    if IsSharded(v.levels) && PickShard(v.levels.shards, rev, prev).Some? {
      n := NextExists(d[v.levels.shards[PickShard(v.levels.shards, rev, prev).value].pos], rev, prev);
    }
    StepSeesCell(v, d, rev, prev, n, if o.NotFound? then None else Some(o.key));
  }

  lemma {:induction false} NextExists(b: Blob, rev: bool, prev: Option<Key>) returns (r: Option<Key>)
    ensures IsNext(b, rev, prev, r)
    decreases b.Keys
  {
    if b == map[] {
      r := None;
    } else {
      var k :| k in b;
      var rest := b - {k};
      assert rest.Keys < b.Keys;
      var n := NextExists(rest, rev, prev);
      r := n;
      if Past(rev, prev, k) {
        if n.Some? {
          BeforeTotal(rev, k, n.value);
        }
        if n.None? || Before(rev, k, n.value) {
          r := Some(k);
          forall j | j in b && Past(rev, prev, j) && j != k ensures Before(rev, k, j) {
            if j != n.value {
              BeforeTransitive(rev, k, n.value, j);
            }
          }
        }
      }
    }
  }

  // ---- the whole key space ----

  /** Cells hold disjoint key ranges in cell order. */
  predicate CellsApart(cells: seq<CellView>, d: Disk) {
    forall i, j, a, b | 0 <= i < j < |cells| && a in Content(cells[i], d) && b in Content(cells[j], d) :: Less(a, b)
  }

  predicate Live(v: CellView, d: Disk, k: Key) {
    k in Content(v, d) && !Content(v, d)[k].del
  }

  predicate Later(rev: bool, a: nat, b: nat) {
    if rev then b < a else a < b
  }

  /** Cell `i`'s key `k` is still ahead of the cursor. */
  predicate Ahead(rev: bool, c: nat, prev: Option<Key>, i: nat, k: Key) {
    Later(rev, c, i) || (i == c && Past(rev, prev, k))
  }

  /** Cell `i` is one the walk from `start` may enter: the exclusive end cell and all beyond it are not. */
  predicate Inside(rev: bool, start: nat, end: Option<nat>, i: nat) {
    i == start || (end.Some? ==> Later(rev, i, end.value))
  }

  /** Cell `i` has live key `k` ahead of the cursor. */
  predicate Awaits(cells: seq<CellView>, d: Disk, rev: bool, start: nat, from: Option<Key>, end: Option<nat>, i: nat,
                   k: Key)
  {
    i < |cells| && Live(cells[i], d, k) && Ahead(rev, start, from, i, k) && Inside(rev, start, end, i)
  }

  /** `next_entry`: the first live entry from the cursor on, crossing cells as they run out, up to `end`. */
  method NextEntry(cells: seq<CellView>, d: Disk, rev: bool, start: nat, from: Option<Key>, end: Option<nat>)
    returns (r: Option<(nat, Key, nat)>)
    requires start < |cells| && forall i | 0 <= i < |cells| :: LevelsOk(cells[i].levels, d)
    ensures r.None? ==> forall i: nat, k :: !Awaits(cells, d, rev, start, from, end, i, k)
    ensures r.Some? ==>
      var (c, n, off) := r.value;
      && Awaits(cells, d, rev, start, from, end, c, n) && Content(cells[c], d)[n].off == off
      && forall i: nat, k | Awaits(cells, d, rev, start, from, end, i, k) && (i != c || k != n) ::
           Later(rev, c, i) || (i == c && Before(rev, n, k))
  {
    var c: nat, prev := start, from;
    while true
      invariant c < |cells| && Inside(rev, start, end, c)
      invariant (c == start && prev == from) || (Later(rev, start, c) && prev.None?)
      invariant forall i: nat, k | Awaits(cells, d, rev, start, from, end, i, k) :: Ahead(rev, c, prev, i, k)
      decreases if rev then c else |cells| - c
    {
      var e := CellNext(cells[c], d, rev, prev);
      if e.Some? {
        return Some((c, e.value.0, e.value.1));
      }
      if (if rev then c == 0 else c + 1 == |cells|) {
        return None;
      }
      var next: nat := if rev then c - 1 else c + 1;
      if end.Some? && (if rev then next <= end.value else next >= end.value) {
        return None;
      }
      c, prev := next, None;
    }
  }

  /** Everything not ahead of the cursor has been yielded, and nothing else. */
  ghost predicate Yielded(out: seq<(Key, nat)>, cells: seq<CellView>, d: Disk, rev: bool, c: nat, prev: Option<Key>) {
    && (forall i: nat, k | i < |cells| && Live(cells[i], d, k) && !Ahead(rev, c, prev, i, k) ::
          (k, Content(cells[i], d)[k].off) in out)
    && (forall e | e in out :: exists i: nat :: i < |cells| && Owns(cells, d, i, e) && !Ahead(rev, c, prev, i, e.0))
  }

  predicate Owns(cells: seq<CellView>, d: Disk, i: nat, e: (Key, nat))
    requires i < |cells|
  {
    Live(cells[i], d, e.0) && Content(cells[i], d)[e.0].off == e.1
  }

  predicate Ascends(out: seq<(Key, nat)>, rev: bool) {
    forall i, j | 0 <= i < j < |out| :: Before(rev, out[i].0, out[j].0)
  }

  /** A full scan yields exactly the live entries of every cell, once each, in key order. */
  method Scan(cells: seq<CellView>, d: Disk, rev: bool) returns (out: seq<(Key, nat)>)
    requires CellsApart(cells, d) && forall i | 0 <= i < |cells| :: LevelsOk(cells[i].levels, d)
    ensures Ascends(out, rev)
    ensures forall e :: e in out <==> exists i: nat :: i < |cells| && Owns(cells, d, i, e)
  {
    out := [];
    if cells == [] {
      return;
    }
    var c: nat, prev: Option<Key> := if rev then |cells| - 1 else 0, None;
    ghost var left := AllAhead(cells, d, rev, c, prev);
    while true
      invariant c < |cells| && Ascends(out, rev) && Yielded(out, cells, d, rev, c, prev)
      invariant left == AllAhead(cells, d, rev, c, prev)
      decreases left
    {
      var r := NextEntry(cells, d, rev, c, prev, None);
      if r.None? {
        assert forall i: nat, k | i < |cells| && Live(cells[i], d, k) && Ahead(rev, c, prev, i, k) ::
          Awaits(cells, d, rev, c, prev, None, i, k);
        return;
      }
      assert forall i: nat, k | i < |cells| && Live(cells[i], d, k) && Ahead(rev, c, prev, i, k) ::
        Awaits(cells, d, rev, c, prev, None, i, k);
      var (c', k, off) := r.value;
      YieldNext(out, cells, d, rev, c, prev, c', k, off);
      left := AllAhead(cells, d, rev, c', Some(k));
      out, c, prev := out + [(k, off)], c', Some(k);
    }
  }

  /** The (cell, key) pairs still ahead. */
  ghost function AllAhead(cells: seq<CellView>, d: Disk, rev: bool, c: nat, prev: Option<Key>): set<(nat, Key)> {
    set i: nat, k | i < |cells| && k in Content(cells[i], d) && Ahead(rev, c, prev, i, k) :: (i, k)
  }

  ghost predicate NextAhead(cells: seq<CellView>, d: Disk, rev: bool, c: nat, prev: Option<Key>, c': nat, k: Key,
                            off: nat)
  {
    && c < |cells| && c' < |cells| && Owns(cells, d, c', (k, off)) && Ahead(rev, c, prev, c', k)
    && forall i: nat, j | i < |cells| && Live(cells[i], d, j) && Ahead(rev, c, prev, i, j) && (i != c' || j != k) ::
         Later(rev, c', i) || (i == c' && Before(rev, k, j))
  }

  /** Whatever is ahead of the new cursor was ahead of the old one. */
  lemma AheadShrinks(rev: bool, c: nat, prev: Option<Key>, c': nat, k: Key, i: nat, j: Key)
    requires Ahead(rev, c, prev, c', k) && Ahead(rev, c', Some(k), i, j)
    ensures Ahead(rev, c, prev, i, j)
  {
    if i == c' == c && prev.Some? {
      BeforeTransitive(rev, prev.value, k, j);
    }
  }

  lemma YieldNext(out: seq<(Key, nat)>, cells: seq<CellView>, d: Disk, rev: bool, c: nat, prev: Option<Key>, c': nat,
                  k: Key, off: nat)
    requires CellsApart(cells, d) && Ascends(out, rev) && Yielded(out, cells, d, rev, c, prev)
    requires NextAhead(cells, d, rev, c, prev, c', k, off)
    ensures Ascends(out + [(k, off)], rev) && Yielded(out + [(k, off)], cells, d, rev, c', Some(k))
    ensures AllAhead(cells, d, rev, c', Some(k)) < AllAhead(cells, d, rev, c, prev)
  {
    BeforeTotal(rev, k, k);
    YieldOrder(out, cells, d, rev, c, prev, c', k, off);
    YieldExact(out, cells, d, rev, c, prev, c', k, off);
    var a, b := AllAhead(cells, d, rev, c', Some(k)), AllAhead(cells, d, rev, c, prev);
    forall x | x in a ensures x in b {
      AheadShrinks(rev, c, prev, c', k, x.0, x.1);
    }
    assert (c', k) in b && (c', k) !in a;
  }

  lemma YieldOrder(out: seq<(Key, nat)>, cells: seq<CellView>, d: Disk, rev: bool, c: nat, prev: Option<Key>,
                   c': nat, k: Key, off: nat)
    requires CellsApart(cells, d) && Ascends(out, rev) && Yielded(out, cells, d, rev, c, prev)
    requires NextAhead(cells, d, rev, c, prev, c', k, off)
    ensures Ascends(out + [(k, off)], rev)
  {
    forall e | e in out ensures Before(rev, e.0, k) {
      var i: nat :| i < |cells| && Owns(cells, d, i, e) && !Ahead(rev, c, prev, i, e.0);
      if i == c' {
        BeforeTotal(rev, e.0, prev.value);
        if e.0 != prev.value {
          BeforeTransitive(rev, e.0, prev.value, k);
        }
      }
    }
  }

  lemma YieldExact(out: seq<(Key, nat)>, cells: seq<CellView>, d: Disk, rev: bool, c: nat, prev: Option<Key>,
                   c': nat, k: Key, off: nat)
    requires Yielded(out, cells, d, rev, c, prev) && NextAhead(cells, d, rev, c, prev, c', k, off)
    ensures Yielded(out + [(k, off)], cells, d, rev, c', Some(k))
  {
    var out' := out + [(k, off)];
    BeforeTotal(rev, k, k);
    forall i: nat, j | i < |cells| && Live(cells[i], d, j) && !Ahead(rev, c', Some(k), i, j)
      ensures (j, Content(cells[i], d)[j].off) in out'
    {
      assert !Ahead(rev, c, prev, i, j) || (i == c' && j == k);
    }
    forall e | e in out'
      ensures exists i: nat :: i < |cells| && Owns(cells, d, i, e) && !Ahead(rev, c', Some(k), i, e.0)
    {
      if e in out {
        var i: nat :| i < |cells| && Owns(cells, d, i, e) && !Ahead(rev, c, prev, i, e.0);
        if Ahead(rev, c', Some(k), i, e.0) {
          AheadShrinks(rev, c, prev, c', k, i, e.0);
        }
      } else {
        assert Owns(cells, d, c', e);
      }
    }
  }

  // ---- the geometry behind the cell order ----

  /** Every key of a uniform cell routes to it. */
  predicate UniformRouted(cells: seq<CellView>, d: Disk, n: nat) {
    forall i, k | 0 <= i < |cells| && k in Content(cells[i], d) :: Geometry.UniformCell(k, n) == i
  }

  lemma UniformCellsApart(cells: seq<CellView>, d: Disk, n: nat, size: nat)
    requires Geometry.Even(n, size) && UniformRouted(cells, d, n)
    ensures CellsApart(cells, d)
  {
    forall i, j, a, b | 0 <= i < j < |cells| && a in Content(cells[i], d) && b in Content(cells[j], d)
      ensures Less(a, b)
    {
      Geometry.UniformApart(a, b, n, size);
    }
  }

  /** Every key of a prefix cell routes to it, and the cells are kept in the order of their ids. */
  predicate PrefixRouted(cells: seq<CellView>, d: Disk, ids: seq<Key>, len: nat, w: nat)
    requires len > 0 && Geometry.ClusterWidth(w)
  {
    && |ids| == |cells| && (forall i, j | 0 <= i < j < |ids| :: Less(ids[i], ids[j]))
    && forall i, k | 0 <= i < |cells| && k in Content(cells[i], d) ::
         len <= |k| && Geometry.PrefixCell(k, len, w) == ids[i]
  }

  lemma PrefixCellsApart(cells: seq<CellView>, d: Disk, ids: seq<Key>, len: nat, w: nat)
    requires len > 0 && Geometry.ClusterWidth(w) && PrefixRouted(cells, d, ids, len, w)
    ensures CellsApart(cells, d)
  {
    forall i, j, a, b | 0 <= i < j < |cells| && a in Content(cells[i], d) && b in Content(cells[j], d)
      ensures Less(a, b)
    {
      Geometry.PrefixApart(a, b, len, w);
    }
  }

  /** A scan of a uniform key space, whose cells hold the keys that route to them. */
  method ScanUniform(cells: seq<CellView>, d: Disk, rev: bool, n: nat, ghost size: nat) returns (out: seq<(Key, nat)>)
    requires Geometry.Even(n, size) && UniformRouted(cells, d, n)
    requires forall i | 0 <= i < |cells| :: LevelsOk(cells[i].levels, d)
    ensures Ascends(out, rev)
    ensures forall e :: e in out <==> exists i: nat :: i < |cells| && Owns(cells, d, i, e)
  {
    UniformCellsApart(cells, d, n, size);
    out := Scan(cells, d, rev);
  }

  /** A scan of a prefix-celled key space. */
  method ScanPrefix(cells: seq<CellView>, d: Disk, rev: bool, ghost ids: seq<Key>, len: nat, w: nat)
    returns (out: seq<(Key, nat)>)
    requires len > 0 && Geometry.ClusterWidth(w) && PrefixRouted(cells, d, ids, len, w)
    requires forall i | 0 <= i < |cells| :: LevelsOk(cells[i].levels, d)
    ensures Ascends(out, rev)
    ensures forall e :: e in out <==> exists i: nat :: i < |cells| && Owns(cells, d, i, e)
  {
    PrefixCellsApart(cells, d, ids, len, w);
    out := Scan(cells, d, rev);
  }

  // ---- scans and reads ----

  /** The overlay as an iterator sees it: one entry per key, positions at or above `b` ignored. */
  function OverlayAt(t: Table, b: nat): Blob {
    map k | k in Keys(t.data) + t.flat.Keys && GetAt(t, k, b).Some? :: GetAt(t, k, b).value
  }

  /** A scan yields `k` exactly when a point read of `k` under the same bound finds it, at the same position. */
  lemma ScanAgreesWithRead(c: Cell, lv: Levels, d: Disk, b: nat, k: Key)
    requires LevelsOk(lv, d) && ImageOf(lv, d) == c.image
    ensures var v := CellView(OverlayAt(c.table, b), lv, IsLoaded(c.state));
            Read(c, k, b) == if Live(v, d, k) then Some(Content(v, d)[k].off) else None
  {
    var o := OverlayAt(c.table, b);
    if Latest(c.table.data, k, b).Some? {
      assert At(k, LatestBelow(c.table.data, k, b).value).key in Keys(c.table.data);
    }
    assert Find(o, k) == GetAt(c.table, k, b);
  }
}
