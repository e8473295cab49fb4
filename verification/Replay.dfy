/**
 WAL replay: writes are buffered per cell in WAL order, cell drops clear the buffers, and at
 the end each buffer is cut at the incomplete batch, sorted, deduplicated and installed.
*/
module Replay {
  import opened Bytes
  import opened IndexTable
  import Recovery

  /** A buffered write. */
  datatype Rec = Rec(key: Key, off: nat, del: bool)

  datatype Op = Put(cell: nat, rec: Rec) | DropCells(from: nat, to: nat, at: nat)

  function Offset(op: Op): nat {
    match op
    case Put(_, r) => r.off
    case DropCells(_, _, at) => at
  }

  // ---- the reference: one operation at a time ----

  /** What a cell holds after `ops`, each applied directly. */
  function Fold(ops: seq<Op>, cell: nat): Blob {
    if ops == [] then map[]
    else
      var before := Fold(ops[..|ops| - 1], cell);
      match ops[|ops| - 1]
      case Put(c, r) => if c == cell then before[r.key := Entry(r.off, r.del)] else before
      case DropCells(from, to, _) => if from <= cell <= to then map[] else before
  }

  /** The operations below the cutoff, which form a prefix of the WAL. */
  function Below(ops: seq<Op>, cutoff: nat): seq<Op> {
    if ops == [] then []
    else
      var rest := Below(ops[..|ops| - 1], cutoff);
      if Offset(ops[|ops| - 1]) < cutoff then rest + [ops[|ops| - 1]] else rest
  }

  /** WAL order; operations of one batch frame share its position, but never a key. */
  predicate WalOrdered(ops: seq<Op>) {
    forall i, j | 0 <= i < j < |ops| ::
      && Offset(ops[i]) <= Offset(ops[j])
      && (ops[i].Put? && ops[j].Put? && ops[i].rec.key == ops[j].rec.key ==> Offset(ops[i]) < Offset(ops[j]))
  }

  // ---- the buffers ----

  /** The newest write per key of a buffer in WAL order. */
  function LastPerKey(es: seq<Rec>): Blob {
    if es == [] then map[]
    else
      var r := es[|es| - 1];
      LastPerKey(es[..|es| - 1])[r.key := Entry(r.off, r.del)]
  }

  predicate Ordered(es: seq<Rec>) {
    forall i, j | 0 <= i < j < |es| :: es[i].off <= es[j].off && (es[i].key == es[j].key ==> es[i].off < es[j].off)
  }

  function Buffered(ops: seq<Op>, cell: nat): seq<Rec> {
    if ops == [] then []
    else
      var before := Buffered(ops[..|ops| - 1], cell);
      match ops[|ops| - 1]
      case Put(c, r) => if c == cell then before + [r] else before
      case DropCells(from, to, _) => if from <= cell <= to then [] else before
  }

  /** Replay-wide accumulator of one key space with dense cell ids. */
  class ReplayBuffer {
    var cells: seq<seq<Rec>>

    constructor (n: nat)
      ensures |cells| == n && forall c | 0 <= c < n :: cells[c] == []
    {
      cells := seq(n, _ => []);
    }

    method Push(cell: nat, r: Rec)
      requires cell < |cells|
      modifies this
      ensures cells == old(cells)[cell := old(cells)[cell] + [r]]
    {
      cells := cells[cell := cells[cell] + [r]];
    }

    method DropCellsInRange(from: nat, to: nat)
      requires from <= to
      modifies this
      ensures |cells| == |old(cells)|
      ensures forall c | 0 <= c < |cells| :: cells[c] == if from <= c <= to then [] else old(cells)[c]
    {
      var c := from;
      while c <= to && c < |cells|
        invariant from <= c && |cells| == |old(cells)|
        invariant forall i | 0 <= i < |cells| :: cells[i] == if from <= i < c && i <= to then [] else old(cells)[i]
        decreases |cells| - c
      {
        cells := cells[c := []];
        c := c + 1;
      }
    }

    /** The replay loop over the WAL. */
    method Collect(ops: seq<Op>)
      requires forall c | 0 <= c < |cells| :: cells[c] == []
      requires forall i | 0 <= i < |ops| ::
        (ops[i].Put? ==> ops[i].cell < |cells|) && (ops[i].DropCells? ==> ops[i].from <= ops[i].to)
      modifies this
      ensures |cells| == |old(cells)| && forall c | 0 <= c < |cells| :: cells[c] == Buffered(ops, c)
    {
      for n := 0 to |ops|
        invariant |cells| == |old(cells)|
        invariant forall c | 0 <= c < |cells| :: cells[c] == Buffered(ops[..n], c)
      {
        assert ops[..n + 1][..n] == ops[..n];
        match ops[n] {
          case Put(c, r) => Push(c, r);
          case DropCells(from, to, _) => DropCellsInRange(from, to);
        }
      }
      assert ops[..|ops|] == ops;
    }
  }

  // ---- settling one buffer ----

  predicate Comes(a: Rec, b: Rec) {
    Less(a.key, b.key) || (a.key == b.key && b.off <= a.off)
  }

  predicate InOrder(es: seq<Rec>) {
    forall i, j | 0 <= i < j < |es| :: Comes(es[i], es[j])
  }

  lemma ComesTransitive(a: Rec, b: Rec, c: Rec)
    requires Comes(a, b) && Comes(b, c)
    ensures Comes(a, c)
  {
    if Less(a.key, b.key) && Less(b.key, c.key) {
      LessTransitive(a.key, b.key, c.key);
    }
  }

  /** Sort by key, newest first within a key. */
  method Sort(es: seq<Rec>) returns (r: seq<Rec>)
    ensures InOrder(r) && multiset(r) == multiset(es)
  {
    r := [];
    for n := 0 to |es|
      invariant InOrder(r) && multiset(r) == multiset(es[..n])
    {
      r := InsertSorted(r, es[n]);
      assert es[..n + 1] == es[..n] + [es[n]];
    }
    assert es[..|es|] == es;
  }

  method InsertSorted(es: seq<Rec>, v: Rec) returns (r: seq<Rec>)
    requires InOrder(es)
    ensures InOrder(r) && multiset(r) == multiset(es) + multiset{v}
  {
    var n := 0;
    while n < |es| && Comes(es[n], v)
      invariant n <= |es| && forall i | 0 <= i < n :: Comes(es[i], v)
    {
      n := n + 1;
    }
    r := es[..n] + [v] + es[n..];
    if n < |es| {
      LessTotal(es[n].key, v.key);
      forall i | n <= i < |es| ensures Comes(v, es[i]) {
        if i > n {
          ComesTransitive(v, es[n], es[i]);
        }
      }
    }
    assert es == es[..n] + es[n..];
    Inserted(es, v, n);
  }

  lemma Inserted(es: seq<Rec>, v: Rec, n: nat)
    requires InOrder(es) && n <= |es|
    requires (forall i | 0 <= i < n :: Comes(es[i], v)) && (forall i | n <= i < |es| :: Comes(v, es[i]))
    ensures InOrder(es[..n] + [v] + es[n..])
  {
    var r := es[..n] + [v] + es[n..];
    forall i, j | 0 <= i < j < |r| ensures Comes(r[i], r[j]) {
      var a, b := if i <= n then i else i - 1, if j <= n then j else j - 1;
      assert r[i] == (if i == n then v else es[a]) && r[j] == (if j == n then v else es[b]);
    }
  }

  predicate KeysAscend(es: seq<Rec>) {
    forall i, j | 0 <= i < j < |es| :: Less(es[i].key, es[j].key)
  }

  /** `v` is the newest write of its key in `es`. */
  predicate Newest(es: seq<Rec>, v: Rec) {
    v in es && forall w | w in es && w.key == v.key :: w.off <= v.off
  }

  /** `r` holds exactly the newest write of each key. */
  predicate Settled(es: seq<Rec>, r: seq<Rec>) {
    && KeysAscend(r)
    && (forall i | 0 <= i < |r| :: Newest(es, r[i]))
    && (forall w | w in es :: HasKey(r, w.key))
  }

  predicate HasKey(r: seq<Rec>, k: Key) {
    exists i | 0 <= i < |r| :: r[i].key == k
  }

  /** Keep the first of each run of equal keys. */
  method Dedup(es: seq<Rec>) returns (r: seq<Rec>)
    requires InOrder(es)
    ensures Settled(es, r)
  {
    r := [];
    for n := 0 to |es|
      invariant KeysAscend(r)
      invariant forall i | 0 <= i < |r| :: Newest(es, r[i])
      invariant forall m | 0 <= m < n :: HasKey(r, es[m].key)
      invariant r != [] ==> n > 0 && r[|r| - 1].key == es[n - 1].key
      invariant r == [] ==> n == 0
    {
      if r == [] || r[|r| - 1].key != es[n].key {
        FirstOfRun(es, n);
        DedupAppends(es, r, n);
        KeysStay(r, es[n]);
        r := r + [es[n]];
      } else {
        assert HasKey(r, es[n].key);
      }
    }
  }

  lemma KeysStay(r: seq<Rec>, v: Rec)
    ensures forall k | HasKey(r, k) :: HasKey(r + [v], k)
    ensures HasKey(r + [v], v.key)
  {
    forall k | HasKey(r, k) ensures HasKey(r + [v], k) {
      var i :| 0 <= i < |r| && r[i].key == k;
      assert (r + [v])[i].key == k;
    }
    assert (r + [v])[|r|].key == v.key;
  }

  lemma FirstOfRun(es: seq<Rec>, n: nat)
    requires InOrder(es) && n < |es| && (n > 0 ==> es[n - 1].key != es[n].key)
    ensures Newest(es, es[n])
    ensures forall m | 0 <= m < n :: Less(es[m].key, es[n].key)
  {
    forall m | 0 <= m < n ensures Less(es[m].key, es[n].key) {
      assert Less(es[n - 1].key, es[n].key);
      if m < n - 1 && es[m].key != es[n - 1].key {
        LessTransitive(es[m].key, es[n - 1].key, es[n].key);
      }
    }
    forall w | w in es && w.key == es[n].key ensures w.off <= es[n].off {
      var m :| 0 <= m < |es| && es[m] == w;
      if m < n {
        LessIrreflexive(w.key);
      } else if m > n {
        LessIrreflexive(w.key);
        assert Comes(es[n], es[m]);
      }
    }
  }

  lemma DedupAppends(es: seq<Rec>, r: seq<Rec>, n: nat)
    requires n < |es| && KeysAscend(r) && (forall i | 0 <= i < |r| :: Newest(es, r[i]))
    requires forall m | 0 <= m < n :: Less(es[m].key, es[n].key)
    requires r != [] ==> n > 0 && r[|r| - 1].key == es[n - 1].key
    ensures KeysAscend(r + [es[n]])
  {
    if r != [] {
      forall i | 0 <= i < |r| ensures Less(r[i].key, es[n].key) {
        if i < |r| - 1 {
          LessTransitive(r[i].key, r[|r| - 1].key, es[n].key);
        }
      }
    }
  }

  function AsBlob(r: seq<Rec>): Blob {
    if r == [] then map[]
    else
      var v := r[|r| - 1];
      AsBlob(r[..|r| - 1])[v.key := Entry(v.off, v.del)]
  }

  lemma LastSnoc(es: seq<Rec>, r: Rec)
    ensures LastPerKey(es + [r]) == LastPerKey(es)[r.key := Entry(r.off, r.del)]
  {
    assert (es + [r])[..|es|] == es;
  }

  /** The newest write of the last write's key is that write; of any other key, it was there before. */
  lemma NewestSnoc(es: seq<Rec>, r: Rec, v: Rec)
    requires Ordered(es + [r]) && Newest(es + [r], v)
    ensures if v.key == r.key then v == r else Newest(es, v)
  {
    var all := es + [r];
    assert all[|es|] == r && r in all;
    var m :| 0 <= m < |all| && all[m] == v;
    if v.key == r.key {
      assert m == |es|;
    } else {
      assert v == es[m];
      assert forall w | w in es :: w in all;
    }
  }

  /** A blob built by appending holds, per key, the last write appended. */
  lemma {:induction false} LastIsNewest(es: seq<Rec>, k: Key)
    requires Ordered(es)
    ensures k in LastPerKey(es) <==> exists v | v in es :: v.key == k
    ensures forall v | Newest(es, v) && v.key == k :: Find(LastPerKey(es), k) == Some(Entry(v.off, v.del))
  {
    if es != [] {
      var n := |es| - 1;
      var rest, last := es[..n], es[n];
      assert es == rest + [last];
      LastIsNewest(rest, k);
      LastSnoc(rest, last);
      forall v | Newest(es, v) && v.key == k ensures Find(LastPerKey(es), k) == Some(Entry(v.off, v.del)) {
        NewestSnoc(rest, last, v);
      }
      assert last in es && forall v | v in rest :: v in es;
    }
  }

  lemma {:induction false} BlobFind(r: seq<Rec>, k: Key)
    requires KeysAscend(r)
    ensures (forall i | 0 <= i < |r| && r[i].key == k :: Find(AsBlob(r), k) == Some(Entry(r[i].off, r[i].del)))
    ensures (forall i | 0 <= i < |r| :: r[i].key != k) ==> k !in AsBlob(r)
  {
    if r != [] {
      var n := |r| - 1;
      BlobFind(r[..n], k);
      if r[n].key == k {
        forall i | 0 <= i < n ensures r[i].key != k {
          LessIrreflexive(k);
        }
      }
    }
  }

  /** Sorting and deduplicating a WAL-ordered buffer gives the fold of its writes. */
  lemma SettledIsFold(es: seq<Rec>, r: seq<Rec>)
    requires Ordered(es) && Settled(es, r)
    ensures AsBlob(r) == LastPerKey(es)
  {
    forall k ensures Find(AsBlob(r), k) == Find(LastPerKey(es), k) {
      SettledFind(es, r, k);
    }
    SameFinds(AsBlob(r), LastPerKey(es));
  }

  lemma SettledFind(es: seq<Rec>, r: seq<Rec>, k: Key)
    requires Ordered(es) && Settled(es, r)
    ensures Find(AsBlob(r), k) == Find(LastPerKey(es), k)
  {
    LastIsNewest(es, k);
    BlobFind(r, k);
    if HasKey(r, k) {
      var i :| 0 <= i < |r| && r[i].key == k;
      assert Newest(es, r[i]);
    }
  }

  lemma SameFinds(a: Blob, b: Blob)
    requires forall k :: Find(a, k) == Find(b, k)
    ensures a == b
  {
    forall k ensures (k in a <==> k in b) && (k in a ==> a[k] == b[k]) {
      assert Find(a, k) == Find(b, k);
    }
  }

  /** The buffered writes below the cutoff. */
  function Cut(es: seq<Rec>, cutoff: nat): seq<Rec> {
    if es == [] then []
    else
      var rest := Cut(es[..|es| - 1], cutoff);
      if es[|es| - 1].off < cutoff then rest + [es[|es| - 1]] else rest
  }

  lemma {:induction false} CutIsPrefix(es: seq<Rec>, cutoff: nat, n: nat)
    requires n <= |es|
    requires (forall i | 0 <= i < n :: es[i].off < cutoff) && (forall i | n <= i < |es| :: cutoff <= es[i].off)
    ensures Cut(es, cutoff) == es[..n]
  {
    if es != [] {
      var m := |es| - 1;
      if n == |es| {
        CutIsPrefix(es[..m], cutoff, m);
        assert es[..n] == es[..m] + [es[m]] && es[..m][..m] == es[..m];
      } else {
        CutIsPrefix(es[..m], cutoff, n);
        assert es[..m][..n] == es[..n];
      }
    }
  }

  /** `partition_point`: how many writes lie below the cutoff. */
  method CutPoint(es: seq<Rec>, cutoff: nat) returns (n: nat)
    requires Ordered(es)
    ensures n <= |es| && (forall i | 0 <= i < n :: es[i].off < cutoff) && (forall i | n <= i < |es| ::
      cutoff <= es[i].off)
  {
    n := 0;
    var hi := |es|;
    while n < hi
      invariant 0 <= n <= hi <= |es|
      invariant forall i | 0 <= i < n :: es[i].off < cutoff
      invariant forall i | hi <= i < |es| :: cutoff <= es[i].off
    {
      var mid := n + (hi - n) / 2;
      if es[mid].off < cutoff {
        n := mid + 1;
      } else {
        hi := mid;
      }
    }
  }

  /**
   Installs one cell's buffer: truncate, sort, deduplicate; a fresh cell is anchored at the first
   surviving offset.
  */
  method Settle(es: seq<Rec>, cutoff: nat) returns (flat: seq<Rec>, anchor: Option<nat>)
    requires Ordered(es)
    ensures KeysAscend(flat) && AsBlob(flat) == LastPerKey(Cut(es, cutoff))
    ensures Anchors(anchor, Cut(es, cutoff))
  {
    var n := CutPoint(es, cutoff);
    CutIsPrefix(es, cutoff, n);
    var kept := es[..n];
    anchor := if kept == [] then None else Some(kept[0].off);
    assert anchor.Some? ==> kept[0] in kept;
    var sorted := Sort(kept);
    flat := Dedup(sorted);
    SameSettled(kept, sorted, flat);
    SettledIsFold(kept, flat);
  }

  lemma SameSettled(es: seq<Rec>, sorted: seq<Rec>, r: seq<Rec>)
    requires multiset(sorted) == multiset(es) && Settled(sorted, r)
    ensures Settled(es, r)
  {
    assert forall v :: v in es <==> v in multiset(es);
    assert forall v :: v in sorted <==> v in multiset(sorted);
    forall i | 0 <= i < |r| ensures Newest(es, r[i]) {
      assert Newest(sorted, r[i]);
    }
  }

  /** A buffer filled in WAL order is in WAL order. */
  lemma {:induction false} BufferOrdered(ops: seq<Op>, cell: nat)
    requires WalOrdered(ops)
    ensures Ordered(Buffered(ops, cell))
    ensures forall v | v in Buffered(ops, cell) :: exists i | 0 <= i < |ops| :: ops[i].Put? && ops[i].rec == v
  {
    if ops != [] {
      var n := |ops| - 1;
      assert WalOrdered(ops[..n]);
      BufferOrdered(ops[..n], cell);
      var before := Buffered(ops[..n], cell);
      forall v | v in before ensures exists i | 0 <= i < n :: ops[i].Put? && ops[i].rec == v {
        var i :| 0 <= i < |ops[..n]| && ops[..n][i].Put? && ops[..n][i].rec == v;
        assert ops[i] == ops[..n][i];
      }
      if ops[n].Put? && ops[n].cell == cell {
        forall m | 0 <= m < |before|
          ensures before[m].off <= ops[n].rec.off && (before[m].key == ops[n].rec.key ==>
            before[m].off < ops[n].rec.off)
        {
          assert before[m] in before;
          var i :| 0 <= i < n && ops[i].Put? && ops[i].rec == before[m];
        }
      }
    }
  }

  predicate NoLateDrop(ops: seq<Op>, cutoff: nat) {
    forall i | 0 <= i < |ops| && ops[i].DropCells? :: ops[i].at < cutoff
  }

  lemma CutSnoc(es: seq<Rec>, r: Rec, cutoff: nat)
    ensures Cut(es + [r], cutoff) == if r.off < cutoff then Cut(es, cutoff) + [r] else Cut(es, cutoff)
  {
    assert (es + [r])[..|es|] == es;
  }

  function BufferedNext(before: seq<Rec>, op: Op, cell: nat): seq<Rec> {
    match op
    case Put(c, r) => if c == cell then before + [r] else before
    case DropCells(from, to, _) => if from <= cell <= to then [] else before
  }

  function FoldNext(before: Blob, op: Op, cell: nat): Blob {
    match op
    case Put(c, r) => if c == cell then before[r.key := Entry(r.off, r.del)] else before
    case DropCells(from, to, _) => if from <= cell <= to then map[] else before
  }

  lemma BufferedSnoc(ops: seq<Op>, op: Op, cell: nat)
    ensures Buffered(ops + [op], cell) == BufferedNext(Buffered(ops, cell), op, cell)
  {
    assert (ops + [op])[..|ops|] == ops;
  }

  lemma BelowSnoc(ops: seq<Op>, op: Op, cell: nat, cutoff: nat)
    ensures Fold(Below(ops + [op], cutoff), cell)
         == if Offset(op) < cutoff then FoldNext(Fold(Below(ops, cutoff), cell), op, cell)
            else Fold(Below(ops, cutoff), cell)
  {
    assert (ops + [op])[..|ops|] == ops;
    if Offset(op) < cutoff {
      FoldSnoc(Below(ops, cutoff), op, cell);
    }
  }

  lemma FoldSnoc(ops: seq<Op>, op: Op, cell: nat)
    ensures Fold(ops + [op], cell) == FoldNext(Fold(ops, cell), op, cell)
  {
    assert (ops + [op])[..|ops|] == ops;
  }

  /** One operation more, on a cell's buffer and on what it folds to. */
  lemma NextAgrees(before: seq<Rec>, op: Op, cell: nat, cutoff: nat)
    requires op.DropCells? ==> op.at < cutoff
    ensures var folded := LastPerKey(Cut(before, cutoff));
            var next := LastPerKey(Cut(BufferedNext(before, op, cell), cutoff));
            next == if Offset(op) < cutoff then FoldNext(folded, op, cell) else folded
  {
    if op.Put? {
      CutSnoc(before, op.rec, cutoff);
      LastSnoc(Cut(before, cutoff), op.rec);
    }
  }

  /** Buffering, cutting, sorting and deduplicating give what applying the surviving operations one by one gives. */
  lemma {:induction false} ReplayIsFold(ops: seq<Op>, cell: nat, cutoff: nat)
    requires NoLateDrop(ops, cutoff)
    ensures LastPerKey(Cut(Buffered(ops, cell), cutoff)) == Fold(Below(ops, cutoff), cell)
  {
    if ops != [] {
      var n := |ops| - 1;
      ReplayIsFold(ops[..n], cell, cutoff);
      BufferedSnoc(ops[..n], ops[n], cell);
      NextAgrees(Buffered(ops[..n], cell), ops[n], cell, cutoff);
      BelowSnoc(ops[..n], ops[n], cell, cutoff);
      assert ops == ops[..n] + [ops[n]];
    }
  }

  /** A fresh cell is anchored at the earliest offset that survives in `es`, if any does. */
  predicate Anchors(anchor: Option<nat>, es: seq<Rec>) {
    && (anchor.None? <==> es == [])
    && (anchor.Some? ==> (forall v | v in es :: anchor.value <= v.off) && exists v | v in es :: v.off == anchor.value)
  }

  /** What replay installs in cell `c`: the sequential fold of its WAL, anchored at its earliest survivor. */
  predicate Replayed(flat: seq<Rec>, anchor: Option<nat>, ops: seq<Op>, c: nat, cutoff: nat) {
    && KeysAscend(flat) && AsBlob(flat) == Fold(Below(ops, cutoff), c)
    && Anchors(anchor, Cut(Buffered(ops, c), cutoff))
  }

  method ReplayCell(es: seq<Rec>, cutoff: nat, ghost ops: seq<Op>, ghost c: nat)
    returns (flat: seq<Rec>, anchor: Option<nat>)
    requires WalOrdered(ops) && NoLateDrop(ops, cutoff) && es == Buffered(ops, c)
    ensures Replayed(flat, anchor, ops, c, cutoff)
  {
    BufferOrdered(ops, c);
    ReplayIsFold(ops, c, cutoff);
    flat, anchor := Settle(es, cutoff);
  }

  /** The whole replay of a key space. */
  method ReplayAll(n: nat, ops: seq<Op>, cutoff: nat) returns (tables: seq<seq<Rec>>, anchors: seq<Option<nat>>)
    requires WalOrdered(ops) && NoLateDrop(ops, cutoff)
    requires forall i | 0 <= i < |ops| ::
      (ops[i].Put? ==> ops[i].cell < n) && (ops[i].DropCells? ==> ops[i].from <= ops[i].to)
    ensures |tables| == n == |anchors|
    ensures forall c: nat | c < n :: Replayed(tables[c], anchors[c], ops, c, cutoff)
  {
    var buffer := new ReplayBuffer(n);
    buffer.Collect(ops);
    var cells := buffer.cells;
    tables, anchors := [], [];
    for c := 0 to n
      invariant |tables| == c == |anchors|
      invariant forall i: nat | i < c :: Replayed(tables[i], anchors[i], ops, i, cutoff)
    {
      var flat, anchor := ReplayCell(cells[c], cutoff, ops, c);
      tables, anchors := tables + [flat], anchors + [anchor];
    }
  }

  // ---- agreement with the restart of the cell protocol ----

  /** `es` lists the writes of `w`. */
  predicate Lists(es: seq<Rec>, w: Log) {
    && (forall i | 0 <= i < |es| :: At(es[i].key, es[i].off) in w && w[At(es[i].key, es[i].off)] == es[i].del)
    && (forall p | p in w :: Rec(p.key, p.off, w[p]) in es)
  }

  /** The table replay installs is the one a restart is specified with. */
  lemma ReplayIsRestart(es: seq<Rec>, w: Log, cut: nat)
    requires Ordered(es) && Lists(es, w) && forall p | p in w :: p.off < cut
    ensures LastPerKey(es) == Recovery.ReplayFlat(w, cut)
  {
    forall k ensures Find(LastPerKey(es), k) == Find(Recovery.ReplayFlat(w, cut), k) {
      ReplayFind(es, w, cut, k);
    }
    SameFinds(LastPerKey(es), Recovery.ReplayFlat(w, cut));
  }

  lemma ReplayFind(es: seq<Rec>, w: Log, cut: nat, k: Key)
    requires Ordered(es) && Lists(es, w) && forall p | p in w :: p.off < cut
    ensures Find(LastPerKey(es), k) == Find(Recovery.ReplayFlat(w, cut), k)
  {
    LastIsNewest(es, k);
    var m := LatestBelow(w, k, cut);
    if m.Some? {
      var p := At(k, m.value);
      assert p.key in Keys(w);
      NewestListed(es, w, cut, k);
    } else {
      forall v | v in es ensures v.key != k {
        assert At(v.key, v.off) in w;
      }
    }
  }

  lemma NewestListed(es: seq<Rec>, w: Log, cut: nat, k: Key)
    requires Lists(es, w) && (forall p | p in w :: p.off < cut) && LatestBelow(w, k, cut).Some?
    ensures var m := LatestBelow(w, k, cut).value; Newest(es, Rec(k, m, w[At(k, m)]))
  {
    forall v | v in es && v.key == k ensures v.off <= LatestBelow(w, k, cut).value {
      assert At(v.key, v.off) in w;
    }
  }
}
