/**
 The index table as the code stores it: per key an ascending vector of positions, searched,
 extended and diffed by cursor, over the compact `flat` array.
*/
module Overlay {
  import opened Bytes
  import opened IndexTable

  datatype Position = Position(off: nat, del: bool)

  datatype WriteOrder = Latest | Stale

  predicate Ascending(ps: seq<Position>) {
    forall i, j | 0 <= i < j < |ps| :: ps[i].off < ps[j].off
  }

  /** `ps` is the ascending vector of `w`'s positions of `k`. */
  ghost predicate Holds(ps: seq<Position>, w: Log, k: Key) {
    && Ascending(ps)
    && (forall i | 0 <= i < |ps| :: At(k, ps[i].off) in w && w[At(k, ps[i].off)] == ps[i].del)
    && (forall p | p in w && p.key == k :: exists i | 0 <= i < |ps| :: ps[i].off == p.off)
  }

  /** How many positions of an ascending vector lie below `b`. */
  method PartitionPoint(ps: seq<Position>, b: nat) returns (n: nat)
    requires Ascending(ps)
    ensures n <= |ps|
    ensures forall i | 0 <= i < n :: ps[i].off < b
    ensures forall i | n <= i < |ps| :: b <= ps[i].off
  {
    n := 0;
    var hi := |ps|;
    while n < hi
      invariant n <= hi <= |ps|
      invariant forall i | 0 <= i < n :: ps[i].off < b
      invariant forall i | hi <= i < |ps| :: b <= ps[i].off
    {
      var mid := n + (hi - n) / 2;
      if ps[mid].off < b {
        n := mid + 1;
      } else {
        hi := mid;
      }
    }
  }

  /** The newest position below `b`: the last of the processed prefix. */
  method LatestProcessed(ps: seq<Position>, ghost w: Log, k: Key, b: nat) returns (e: Option<Entry>)
    requires Holds(ps, w, k)
    ensures e == IndexTable.Latest(w, k, b)
  {
    var n := PartitionPoint(ps, b);
    if n == 0 {
      e := None;
    } else {
      e := Some(Entry(ps[n - 1].off, ps[n - 1].del));
      assert LatestBelow(w, k, b) == Some(ps[n - 1].off);
    }
  }

  /** Ordered insertion; a write behind a newer one goes to its slot instead of the end. */
  method InsertOrdered(ps: seq<Position>, v: Position, ghost w: Log, k: Key)
    returns (r: seq<Position>, order: WriteOrder)
    requires Holds(ps, w, k) && At(k, v.off) !in w
    ensures Holds(r, w[At(k, v.off) := v.del], k) && r != []
    ensures order == Stale <==> exists p | p in w :: p.key == k && v.off < p.off
    ensures order == Latest <==> r[|r| - 1] == v
  {
    var n := PartitionPoint(ps, v.off);
    r := ps[..n] + [v] + ps[n..];
    order := if n == |ps| then Latest else Stale;
    if n < |ps| {
      assert At(k, ps[n].off) in w;
    }
    InsertedAscends(ps, n, v);
    InsertedHolds(ps, n, v, w, k);
  }

  lemma InsertedAscends(ps: seq<Position>, n: nat, v: Position)
    requires Ascending(ps) && n <= |ps|
    requires (forall i | 0 <= i < n :: ps[i].off < v.off) && (forall i | n <= i < |ps| :: v.off < ps[i].off)
    ensures Ascending(ps[..n] + [v] + ps[n..])
  {
  }

  lemma InsertedHolds(ps: seq<Position>, n: nat, v: Position, w: Log, k: Key)
    requires Holds(ps, w, k) && n <= |ps| && At(k, v.off) !in w
    requires Ascending(ps[..n] + [v] + ps[n..])
    ensures Holds(ps[..n] + [v] + ps[n..], w[At(k, v.off) := v.del], k)
  {
    var r, w' := ps[..n] + [v] + ps[n..], w[At(k, v.off) := v.del];
    forall i | 0 <= i < |r| ensures At(k, r[i].off) in w' && w'[At(k, r[i].off)] == r[i].del {
      if i < n {
        assert r[i] == ps[i];
      } else if i > n {
        assert r[i] == ps[i - 1];
      }
    }
    forall p | p in w' && p.key == k ensures exists i | 0 <= i < |r| :: r[i].off == p.off {
      if p.off == v.off {
        assert r[n] == v;
      } else {
        var i :| 0 <= i < |ps| && ps[i].off == p.off;
        assert r[if i < n then i else i + 1] == ps[i];
      }
    }
  }

  predicate Among(v: Position, ps: seq<Position>) {
    exists i | 0 <= i < |ps| :: ps[i].off == v.off
  }

  /** `v` is the newest of `ps` that `live` does not hold. */
  predicate NewestMissing(ps: seq<Position>, live: seq<Position>, left: Option<Position>) {
    && (left.None? ==> forall i | 0 <= i < |ps| :: Among(ps[i], live))
    && (left.Some? ==> left.value in ps && !Among(left.value, live))
    && (left.Some? ==> forall i | 0 <= i < |ps| && left.value.off < ps[i].off :: Among(ps[i], live))
  }

  /** Exactly the positions of `live` missing from `ps`, in order. */
  predicate Filtered(kept: seq<Position>, live: seq<Position>, ps: seq<Position>) {
    && Ascending(kept)
    && (forall v | v in kept :: v in live && !Among(v, ps))
    && (forall v | v in live && !Among(v, ps) :: v in kept)
  }

  lemma KeepNext(kept: seq<Position>, live: seq<Position>, j: nat, ps: seq<Position>)
    requires j < |live| && Ascending(live) && Filtered(kept, live[..j], ps) && !Among(live[j], ps)
    ensures Filtered(kept + [live[j]], live[..j + 1], ps)
  {
    assert live[..j + 1] == live[..j] + [live[j]];
    forall v | v in kept ensures v.off < live[j].off {
      assert v in live[..j];
      var i :| 0 <= i < j && live[i] == v;
    }
  }

  lemma DropNext(kept: seq<Position>, live: seq<Position>, j: nat, ps: seq<Position>)
    requires j < |live| && Filtered(kept, live[..j], ps) && Among(live[j], ps)
    ensures Filtered(kept, live[..j + 1], ps)
  {
    assert live[..j + 1] == live[..j] + [live[j]];
  }

  lemma MissNext(ps: seq<Position>, oi: nat, live: seq<Position>, left: Option<Position>)
    requires oi < |ps| && Ascending(ps) && NewestMissing(ps[..oi], live, left)
    ensures NewestMissing(ps[..oi + 1], live, if Among(ps[oi], live) then left else Some(ps[oi]))
  {
    assert ps[..oi + 1] == ps[..oi] + [ps[oi]];
    if left.Some? {
      var i :| 0 <= i < oi && ps[i] == left.value;
    }
  }

  /** The cursor stands where the two ascending walks meet. */
  predicate Cursor(ps: seq<Position>, oi: nat, live: seq<Position>, j: nat) {
    && oi <= |ps| && j <= |live|
    && (forall o, i | 0 <= o < oi && j <= i < |live| :: ps[o].off < live[i].off)
    && (forall o, i | oi <= o < |ps| && 0 <= i < j :: live[i].off < ps[o].off)
  }

  /** At the cursor, what lies below the other side's next element is missing from it. */
  lemma CursorMisses(ps: seq<Position>, oi: nat, live: seq<Position>, j: nat)
    requires Ascending(ps) && Ascending(live) && Cursor(ps, oi, live, j)
    ensures oi < |ps| && (j == |live| || ps[oi].off < live[j].off) ==> !Among(ps[oi], live)
    ensures j < |live| && (oi == |ps| || live[j].off < ps[oi].off) ==> !Among(live[j], ps)
  {
  }

  /** Moves the cursor past the flushed positions below the next live one; none of them is live any more. */
  method SkipMissing(ps: seq<Position>, start: nat, live: seq<Position>, j: nat, before: Option<Position>)
    returns (oi: nat, left: Option<Position>)
    requires Ascending(ps) && Ascending(live) && Cursor(ps, start, live, j) && j < |live|
    requires NewestMissing(ps[..start], live, before)
    ensures Cursor(ps, oi, live, j) && (oi == |ps| || live[j].off <= ps[oi].off)
    ensures NewestMissing(ps[..oi], live, left)
  {
    oi, left := start, before;
    while oi < |ps| && ps[oi].off < live[j].off
      invariant Cursor(ps, oi, live, j)
      invariant NewestMissing(ps[..oi], live, left)
    {
      CursorMisses(ps, oi, live, j);
      MissNext(ps, oi, live, left);
      left := Some(ps[oi]);
      oi := oi + 1;
    }
  }

  /** The cursor walk of `unmerge_flushed` for one key. */
  method DropFlushed(ps: seq<Position>, live: seq<Position>) returns (kept: seq<Position>, left: Option<Position>)
    requires Ascending(ps) && Ascending(live)
    ensures Filtered(kept, live, ps) && NewestMissing(ps, live, left)
  {
    kept, left := [], None;
    var oi: nat := 0;
    for j := 0 to |live|
      invariant Cursor(ps, oi, live, j)
      invariant Filtered(kept, live[..j], ps)
      invariant NewestMissing(ps[..oi], live, left)
    {
      oi, left := SkipMissing(ps, oi, live, j, left);
      CursorMisses(ps, oi, live, j);
      if oi < |ps| && ps[oi].off == live[j].off {
        DropNext(kept, live, j, ps);
        MissNext(ps, oi, live, left);
        oi := oi + 1;
      } else {
        KeepNext(kept, live, j, ps);
        kept := kept + [live[j]];
      }
    }
    assert live[..|live|] == live && ps[..|ps|] == ps;
    if oi < |ps| {
      left := Some(ps[|ps| - 1]);
      LastMissing(ps, oi, live);
    }
  }

  lemma LastMissing(ps: seq<Position>, oi: nat, live: seq<Position>)
    requires Ascending(ps) && oi < |ps| && Cursor(ps, oi, live, |live|)
    ensures NewestMissing(ps, live, Some(ps[|ps| - 1]))
  {
    assert !Among(ps[|ps| - 1], live);
  }

  /** Against the histories the vectors stand for, the walk removes the flushed writes and finds the newest one gone. */
  lemma DropFlushedMeans(orig: seq<Position>, live: seq<Position>, v: Log, w: Log, k: Key, f: nat, n: nat,
                         kept: seq<Position>, left: Option<Position>)
    requires Holds(orig, v, k) && Holds(live, w, k) && n <= |orig|
    requires (forall i | 0 <= i < n :: orig[i].off < f) && (forall i | n <= i < |orig| :: f <= orig[i].off)
    requires Filtered(kept, live, orig[..n]) && NewestMissing(orig[..n], live, left)
    ensures Holds(kept, map p | p in w && !(p in v && p.off < f) :: w[p], k)
    ensures LatestBelow(map p | p in v && p !in w :: v[p], k, f) == if left.Some? then Some(left.value.off) else None
  {
    KeptHolds(orig, live, v, w, k, f, n, kept);
    LeftIsNewest(orig, live, v, w, k, f, n, left);
  }

  /** Among the processed prefix means: in the flushed history, below the frontier. */
  lemma AmongProcessed(orig: seq<Position>, v: Log, k: Key, f: nat, n: nat, p: Position)
    requires Holds(orig, v, k) && n <= |orig|
    requires (forall i | 0 <= i < n :: orig[i].off < f) && (forall i | n <= i < |orig| :: f <= orig[i].off)
    ensures Among(p, orig[..n]) <==> At(k, p.off) in v && p.off < f
  {
    if At(k, p.off) in v && p.off < f {
      var i :| 0 <= i < |orig| && orig[i].off == p.off;
      assert orig[..n][i].off == p.off;
    }
  }

  lemma AmongHeld(live: seq<Position>, w: Log, k: Key, p: Position)
    requires Holds(live, w, k)
    ensures Among(p, live) <==> At(k, p.off) in w
  {
    if At(k, p.off) in w {
      var i :| 0 <= i < |live| && live[i].off == p.off;
    }
  }

  lemma KeptHolds(orig: seq<Position>, live: seq<Position>, v: Log, w: Log, k: Key, f: nat, n: nat, kept: seq<Position>)
    requires Holds(orig, v, k) && Holds(live, w, k) && n <= |orig|
    requires (forall i | 0 <= i < n :: orig[i].off < f) && (forall i | n <= i < |orig| :: f <= orig[i].off)
    requires Filtered(kept, live, orig[..n])
    ensures Holds(kept, map p | p in w && !(p in v && p.off < f) :: w[p], k)
  {
    var u: Log := map p | p in w && !(p in v && p.off < f) :: w[p];
    forall i | 0 <= i < |kept| ensures At(k, kept[i].off) in u && u[At(k, kept[i].off)] == kept[i].del {
      assert kept[i] in live;
      AmongProcessed(orig, v, k, f, n, kept[i]);
    }
    forall p | p in u && p.key == k ensures exists i | 0 <= i < |kept| :: kept[i].off == p.off {
      var i :| 0 <= i < |live| && live[i].off == p.off;
      AmongProcessed(orig, v, k, f, n, live[i]);
      assert live[i] in kept;
    }
  }

  lemma LeftIsNewest(orig: seq<Position>, live: seq<Position>, v: Log, w: Log, k: Key, f: nat, n: nat,
                     left: Option<Position>)
    requires Holds(orig, v, k) && Holds(live, w, k) && n <= |orig|
    requires (forall i | 0 <= i < n :: orig[i].off < f) && (forall i | n <= i < |orig| :: f <= orig[i].off)
    requires NewestMissing(orig[..n], live, left)
    ensures LatestBelow(map p | p in v && p !in w :: v[p], k, f) == if left.Some? then Some(left.value.off) else None
  {
    var gone: Log := map p | p in v && p !in w :: v[p];
    forall p | p in gone && p.key == k && p.off < f
      ensures left.Some? && p.off <= left.value.off
    {
      GoneBelow(orig, live, v, w, k, f, n, left, p);
    }
    if left.Some? {
      assert left.value in orig[..n];
      AmongHeld(live, w, k, left.value);
    }
  }

  lemma GoneBelow(orig: seq<Position>, live: seq<Position>, v: Log, w: Log, k: Key, f: nat, n: nat,
                  left: Option<Position>, p: At)
    requires Holds(orig, v, k) && Holds(live, w, k) && n <= |orig|
    requires forall i | n <= i < |orig| :: f <= orig[i].off
    requires NewestMissing(orig[..n], live, left)
    requires p in v && p !in w && p.key == k && p.off < f
    ensures left.Some? && p.off <= left.value.off
  {
    var i :| 0 <= i < |orig| && orig[i].off == p.off;
    assert orig[..n][i] == orig[i];
    AmongHeld(live, w, k, orig[i]);
  }

  /** What is left of a history once the flushed writes below the frontier are taken back. */
  ghost function Rest(v: Log, w: Log, f: nat): Log {
    map p | p in w && !(p in v && p.off < f) :: w[p]
  }

  ghost function Gone(v: Log, w: Log): Log {
    map p | p in v && p !in w :: v[p]
  }

  /** One key's share of an unmerge: the vector that stays and the flushed position that already left it. */
  ghost predicate KeyUnmerged(live: seq<Position>, left: map<Key, Position>, v: Log, w: Log, k: Key, f: nat) {
    && Holds(live, Rest(v, w, f), k)
    && LatestBelow(Gone(v, w), k, f) == if k in left then Some(left[k].off) else None
  }

  method UnmergeKey(orig: seq<Position>, live: seq<Position>, ghost v: Log, ghost w: Log, k: Key, f: nat)
    returns (kept: seq<Position>, left: Option<Position>)
    requires Holds(orig, v, k) && Holds(live, w, k)
    ensures Holds(kept, Rest(v, w, f), k)
    ensures LatestBelow(Gone(v, w), k, f) == if left.Some? then Some(left.value.off) else None
  {
    var n := PartitionPoint(orig, f);
    kept, left := DropFlushed(orig[..n], live);
    DropFlushedMeans(orig, live, v, w, k, f, n, kept, left);
  }

  /** Keys the snapshot never held have nothing to take back. */
  lemma AbsentKey(live: seq<Position>, v: Log, w: Log, k: Key, f: nat)
    requires Holds([], v, k) && Holds(live, w, k)
    ensures Holds(live, Rest(v, w, f), k) && LatestBelow(Gone(v, w), k, f) == None
  {
    DropFlushedMeans([], live, v, w, k, f, 0, live, None);
  }

  function Vector(data: map<Key, seq<Position>>, k: Key): seq<Position> {
    if k in data then data[k] else []
  }

  /** `data` stores exactly the history `w`. */
  ghost predicate Stores(data: map<Key, seq<Position>>, w: Log) {
    && (forall k | k in data :: data[k] != [])
    && (forall k :: Holds(Vector(data, k), w, k))
  }

  lemma StoresInsert(data: map<Key, seq<Position>>, w: Log, k: Key, v: Position, ps: seq<Position>)
    requires Stores(data, w) && Holds(ps, w[At(k, v.off) := v.del], k) && ps != []
    ensures Stores(data[k := ps], w[At(k, v.off) := v.del])
  {
    var data' := data[k := ps];
    forall j ensures Holds(Vector(data', j), w[At(k, v.off) := v.del], j) {
      assert Holds(Vector(data, j), w, j);
      if j != k {
        assert Vector(data', j) == Vector(data, j);
      }
    }
  }

  /** The in-memory index of one cell. */
  class DataOverlay {
    var data: map<Key, seq<Position>>
    var flat: Blob
    ghost var view: Table

    ghost predicate Valid()
      reads this
    {
      view.flat == flat && Stores(data, view.data)
    }

    constructor ()
      ensures Valid() && view == EMPTY_TABLE
    {
      data, flat, view := map[], map[], EMPTY_TABLE;
    }

    /** Records a write; a repeated position is a caller error the code panics on. */
    method CheckedInsert(k: Key, v: Position) returns (order: WriteOrder)
      requires Valid() && At(k, v.off) !in view.data
      modifies this
      ensures Valid() && view == old(view).(data := old(view).data[At(k, v.off) := v.del])
      ensures order == Stale <==> exists p | p in old(view).data :: p.key == k && v.off < p.off
    {
      assert Holds(Vector(data, k), view.data, k);
      var ps, o := InsertOrdered(Vector(data, k), v, view.data, k);
      StoresInsert(data, view.data, k, v, ps);
      data, order := data[k := ps], o;
      view := view.(data := view.data[At(k, v.off) := v.del]);
    }

    /** `get_at`; the live read passes `INVALID_OFFSET`. */
    method GetAt(k: Key, b: nat) returns (e: Option<Entry>)
      requires Valid()
      ensures e == IndexTable.GetAt(view, k, b)
    {
      assert Holds(Vector(data, k), view.data, k);
      e := LatestProcessed(Vector(data, k), view.data, k, b);
      if e.None? {
        e := Find(flat, k);
      }
    }

    /** Takes back what a completed flush made durable. */
    method UnmergeFlushed(original: DataOverlay, f: nat)
      requires Valid() && original.Valid() && original != this
      modifies this
      ensures Valid() && view == IndexTable.UnmergeFlushed(old(view), original.view, f)
    {
      var live, left := UnmergeData(original.data, data, original.view.data, view.data, f);
      data := live;
      flat := map k | k in flat
                      && !(k in original.flat && original.flat[k].off == flat[k].off)
                      && !(k in left && left[k].off == flat[k].off)
                   :: flat[k];
      view := Table(Rest(original.view.data, view.data, f), flat);
      ghost var spec := IndexTable.UnmergeFlushed(old(view), original.view, f);
      assert view.data == spec.data;
      forall k ensures k in view.flat <==> k in spec.flat {
        assert KeyUnmerged(Vector(live, k), left, original.view.data, old(view).data, k, f);
        assert LeftBuffer(old(view), original.view, f, k)
            == LatestBelow(Gone(original.view.data, old(view).data), k, f);
      }
    }
  }

  function PutVector(data: map<Key, seq<Position>>, k: Key, ps: seq<Position>): map<Key, seq<Position>> {
    if ps == [] then data - {k} else data[k := ps]
  }

  function PutLeft(left: map<Key, Position>, k: Key, v: Option<Position>): map<Key, Position> {
    if v.Some? then left[k := v.value] else left
  }

  lemma UnmergedOther(live: map<Key, seq<Position>>, left: map<Key, Position>, k: Key, j: Key,
                      kept: seq<Position>, missed: Option<Position>, v: Log, w: Log, f: nat)
    requires j != k && KeyUnmerged(Vector(live, j), left, v, w, j, f)
    ensures KeyUnmerged(Vector(PutVector(live, k, kept), j), PutLeft(left, k, missed), v, w, j, f)
  {
  }

  /** The data half of `unmerge_flushed`: one cursor walk per snapshot key. */
  method UnmergeData(orig: map<Key, seq<Position>>, data: map<Key, seq<Position>>, ghost v: Log, ghost w: Log, f: nat)
    returns (live: map<Key, seq<Position>>, left: map<Key, Position>)
    requires Stores(orig, v) && Stores(data, w)
    ensures Stores(live, Rest(v, w, f))
    ensures forall k :: KeyUnmerged(Vector(live, k), left, v, w, k, f)
  {
    var todo := orig.Keys;
    live, left := data, map[];
    forall k | k !in todo ensures KeyUnmerged(Vector(live, k), left, v, w, k, f) {
      assert Vector(orig, k) == [];
      AbsentKey(Vector(live, k), v, w, k, f);
    }
    while todo != {}
      invariant todo <= orig.Keys && left.Keys !! todo
      invariant forall k | k in live :: live[k] != []
      invariant forall k | k in todo :: Vector(live, k) == Vector(data, k)
      invariant forall k | k !in todo :: KeyUnmerged(Vector(live, k), left, v, w, k, f)
      decreases todo
    {
      var k :| k in todo;
      live, left := UnmergeStep(orig, data, live, left, k, todo, v, w, f);
      todo := todo - {k};
    }
  }

  method UnmergeStep(orig: map<Key, seq<Position>>, ghost data: map<Key, seq<Position>>, live: map<Key, seq<Position>>,
                     left: map<Key, Position>, k: Key, ghost todo: set<Key>, ghost v: Log, ghost w: Log, f: nat)
    returns (live': map<Key, seq<Position>>, left': map<Key, Position>)
    requires Stores(orig, v) && Stores(data, w) && k in todo && todo <= orig.Keys && k !in left
    requires (forall j | j in live :: live[j] != []) && Vector(live, k) == Vector(data, k)
    requires forall j | j !in todo :: KeyUnmerged(Vector(live, j), left, v, w, j, f)
    ensures forall j | j in live' :: live'[j] != []
    ensures forall j | j != k :: Vector(live', j) == Vector(live, j) && (j in left' <==> j in left)
    ensures forall j | j !in todo - {k} :: KeyUnmerged(Vector(live', j), left', v, w, j, f)
  {
    assert Holds(Vector(orig, k), v, k) && Holds(Vector(data, k), w, k);
    var kept, missed := UnmergeKey(orig[k], Vector(live, k), v, w, k, f);
    live', left' := PutVector(live, k, kept), PutLeft(left, k, missed);
    forall j | j !in todo - {k} ensures KeyUnmerged(Vector(live', j), left', v, w, j, f) {
      if j != k {
        UnmergedOther(live, left, k, j, kept, missed, v, w, f);
      }
    }
  }
}
