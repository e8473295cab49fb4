/**
 Write batches: the inner layout of a compressed batch and scanning it for a record,
 last-wins deduplication, and grouping the operations by the row lock they need.
*/
module Batch {
  import opened Bytes
  import opened Codec

  // ---- inner layout ----

  /** An entry whose lengths fit their fields. */
  predicate Sound(e: WalEntry) {
    EntryOk(e) && Len(e) <= U32_MAX && (e.Record? ==> |e.key| <= U16_MAX)
  }

  function Item(e: WalEntry): seq<byte> {
    U32(Len(e)) + Encode(e)
  }

  function Flat(xs: seq<seq<byte>>): seq<byte> {
    if xs == [] then [] else Flat(xs[..|xs| - 1]) + xs[|xs| - 1]
  }

  function Each(es: seq<WalEntry>, f: WalEntry -> seq<byte>): seq<seq<byte>> {
    seq(|es|, i requires 0 <= i < |es| => f(es[i]))
  }

  function Body(es: seq<WalEntry>): seq<byte> {
    Flat(Each(es, Item))
  }

  lemma EachParts(es: seq<WalEntry>, f: WalEntry -> seq<byte>, n: nat)
    requires n <= |es|
    ensures Each(es, f)[..n] == Each(es[..n], f) && Each(es, f)[n..] == Each(es[n..], f)
  {
  }

  function Inner(es: seq<WalEntry>): seq<byte> {
    U32(|es|) + Body(es)
  }

  lemma Assoc(a: seq<byte>, b: seq<byte>, c: seq<byte>)
    ensures (a + b) + c == a + (b + c)
  {
  }

  lemma BodySnoc(es: seq<WalEntry>, n: nat)
    requires n < |es|
    ensures Body(es[..n + 1]) == Body(es[..n]) + Item(es[n])
  {
    EachParts(es[..n + 1], Item, n);
    assert es[..n + 1][..n] == es[..n];
  }

  method EncodeInner(es: seq<WalEntry>) returns (buf: seq<byte>)
    ensures buf == Inner(es)
  {
    buf := U32(|es|);
    for n := 0 to |es|
      invariant buf == U32(|es|) + Body(es[..n])
    {
      BodySnoc(es, n);
      Assoc(U32(|es|), Body(es[..n]), Item(es[n]));
      buf := buf + Item(es[n]);
    }
    assert es[..|es|] == es;
  }

  lemma {:induction false} FlatFront(xs: seq<seq<byte>>)
    requires xs != []
    ensures Flat(xs) == xs[0] + Flat(xs[1..])
  {
    var n := |xs| - 1;
    if n == 0 {
      assert xs[..0] == [] == xs[1..];
    } else {
      FlatFront(xs[..n]);
      assert xs[..n][1..] == xs[1..][..n - 1];
      Assoc(xs[0], Flat(xs[1..][..n - 1]), xs[n]);
    }
  }

  lemma BodyFront(es: seq<WalEntry>)
    requires es != []
    ensures Body(es) == Item(es[0]) + Body(es[1..])
  {
    FlatFront(Each(es, Item));
    EachParts(es, Item, 1);
  }

  /** Iterator over the entries of a decompressed batch. */
  class InnerIter {
    const data: seq<byte>
    var offset: nat
    var remaining: nat
    ghost var todo: seq<WalEntry>

    ghost predicate Valid()
      reads this
    {
      && remaining == |todo| && offset <= |data| && data[offset..] == Body(todo)
      && forall i | 0 <= i < |todo| :: Sound(todo[i])
    }

    constructor (decompressed: seq<byte>, ghost es: seq<WalEntry>)
      requires decompressed == Inner(es) && |es| <= U32_MAX && forall i | 0 <= i < |es| :: Sound(es[i])
      ensures Valid() && todo == es && data == decompressed
    {
      data := decompressed;
      offset := 4;
      remaining := Number(decompressed[..4]);
      todo := es;
      InnerHeader(es);
    }

    method Next() returns (e: Option<WalEntry>)
      requires Valid()
      modifies this
      ensures Valid()
      ensures if old(todo) == [] then e == None && todo == [] else e == Some(old(todo)[0]) && todo == old(todo)[1..]
    {
      if remaining == 0 {
        return None;
      }
      BodyFront(todo);
      remaining := remaining - 1;
      e, offset := ReadItem(data, offset, todo[0], Body(todo[1..]));
      todo := todo[1..];
    }
  }

  lemma Halves(a: seq<byte>, b: seq<byte>)
    ensures (a + b)[..|a|] == a && (a + b)[|a|..] == b
  {
  }

  lemma Slices(data: seq<byte>, at: nat, u: seq<byte>, x: seq<byte>, rest: seq<byte>)
    requires at <= |data| && data[at..] == (u + x) + rest
    ensures at + |u| + |x| <= |data|
    ensures data[at..at + |u|] == u && data[at + |u|..at + |u| + |x|] == x && data[at + |u| + |x|..] == rest
  {
    var tail := data[at..];
    Assoc(u, x, rest);
    Halves(u, x + rest);
    Halves(x, rest);
    assert data[at..at + |u|] == tail[..|u|];
    assert data[at + |u|..at + |u| + |x|] == tail[|u|..][..|x|];
    assert data[at + |u| + |x|..] == tail[|u|..][|x|..];
  }

  /** Reads a length prefix and the bytes it announces. */
  method TakeBytes(data: seq<byte>, at: nat, ghost u: seq<byte>, ghost x: seq<byte>, ghost rest: seq<byte>)
    returns (bytes: seq<byte>, end: nat)
    requires at <= |data| && data[at..] == (u + x) + rest && |u| == 4 && Number(u) == |x|
    ensures bytes == x && end <= |data| && data[end..] == rest
  {
    Slices(data, at, u, x, rest);
    end := at + 4 + Number(data[at..at + 4]);
    bytes := data[at + 4..end];
  }

  /** Reads the entry at the cursor and moves behind it. */
  method ReadItem(data: seq<byte>, at: nat, ghost first: WalEntry, ghost rest: seq<byte>)
    returns (e: Option<WalEntry>, end: nat)
    requires at <= |data| && data[at..] == Item(first) + rest && Sound(first)
    ensures e == Some(first) && end <= |data| && data[end..] == rest
  {
    U32Exact(Len(first));
    RoundTrip(first);
    var bytes;
    bytes, end := TakeBytes(data, at, U32(Len(first)), Encode(first), rest);
    e := Decode(bytes);
  }

  lemma InnerHeader(es: seq<WalEntry>)
    requires |es| <= U32_MAX
    ensures |Inner(es)| >= 4 && Number(Inner(es)[..4]) == |es| && Inner(es)[4..] == Body(es)
  {
    U32Exact(|es|);
    HeaderOf(U32(|es|), Body(es), |es|);
  }

  lemma HeaderOf(u: seq<byte>, rest: seq<byte>, n: nat)
    requires |u| == 4 && Number(u) == n
    ensures Number((u + rest)[..4]) == n && (u + rest)[4..] == rest
  {
    Halves(u, rest);
  }

  predicate Hits(e: WalEntry, ks: byte, matches: Key -> bool) {
    e.Record? && e.ks == ks && matches(e.key)
  }

  /** Scans for the first record of `ks` whose key matches. */
  method FindRecordBy(decompressed: seq<byte>, ks: byte, matches: Key -> bool, ghost es: seq<WalEntry>)
    returns (r: Option<(Key, seq<byte>)>)
    requires decompressed == Inner(es) && |es| <= U32_MAX && forall i | 0 <= i < |es| :: Sound(es[i])
    ensures r.None? ==> forall i | 0 <= i < |es| :: !Hits(es[i], ks, matches)
    ensures r.Some? ==> exists i | 0 <= i < |es| ::
      && Hits(es[i], ks, matches) && r.value == (es[i].key, es[i].value)
      && forall j | 0 <= j < i :: !Hits(es[j], ks, matches)
  {
    var iter := new InnerIter(decompressed, es);
    ghost var n := 0;
    while true
      invariant iter.Valid() && n <= |es| && iter.todo == es[n..]
      invariant forall i | 0 <= i < n :: !Hits(es[i], ks, matches)
      decreases |es| - n
    {
      var e := iter.Next();
      if e.None? {
        return None;
      }
      if Hits(e.value, ks, matches) {
        return Some((e.value.key, e.value.value));
      }
      n := n + 1;
    }
  }

  // ---- last-wins deduplication ----

  /** What the index needs of a batch operation: its key space and indexed key. */
  datatype Op = Op(ks: byte, key: Key)

  /** No later operation of the batch has the same key. */
  predicate IsLast(ops: seq<Op>, i: nat)
    requires i < |ops|
  {
    forall j | i < j < |ops| :: ops[j] != ops[i]
  }

  /** The elements of `xs` whose operation is the last of its key, in order. */
  function Keep<T>(xs: seq<T>, ops: seq<Op>, n: nat): seq<T>
    requires |xs| == |ops| && n <= |ops|
  {
    if n == 0 then []
    else Keep(xs, ops, n - 1) + if IsLast(ops, n - 1) then [xs[n - 1]] else []
  }

  /** `last` maps every key of the first `n` operations to its last index below `n`. */
  predicate Indexes(last: map<Op, nat>, ops: seq<Op>, n: nat)
    requires n <= |ops|
  {
    && (forall i | 0 <= i < n :: ops[i] in last)
    && (forall op | op in last :: last[op] < n && ops[last[op]] == op)
    && (forall op, j | op in last && last[op] < j < n :: ops[j] != op)
  }

  predicate NoRepeat(ops: seq<Op>, n: nat)
    requires n <= |ops|
  {
    forall i, j | 0 <= i < j < n :: ops[i] != ops[j]
  }

  /** Where each key occurs last; as many keys as operations means no duplicate. */
  method LastIndices(ops: seq<Op>) returns (last: map<Op, nat>)
    ensures Indexes(last, ops, |ops|)
    ensures |last| == |ops| ==> NoRepeat(ops, |ops|)
  {
    last := map[];
    for n := 0 to |ops|
      invariant Indexes(last, ops, n) && |last| <= n
      invariant |last| == n ==> NoRepeat(ops, n)
    {
      IndexStep(last, ops, n);
      IndexSize(last, ops[n], n);
      last := last[ops[n] := n];
    }
  }

  lemma IndexStep(last: map<Op, nat>, ops: seq<Op>, n: nat)
    requires n < |ops| && Indexes(last, ops, n)
    ensures Indexes(last[ops[n] := n], ops, n + 1)
    ensures ops[n] !in last && NoRepeat(ops, n) ==> NoRepeat(ops, n + 1)
  {
  }

  lemma IndexSize(last: map<Op, nat>, op: Op, n: nat)
    ensures |last[op := n]| == |last| + if op in last then 0 else 1
  {
    if op in last {
      assert last[op := n].Keys == last.Keys;
    } else {
      assert last[op := n].Keys == last.Keys + {op};
    }
  }

  lemma {:induction false} KeepAll<T>(xs: seq<T>, ops: seq<Op>, n: nat)
    requires |xs| == |ops| && n <= |ops| && forall i | 0 <= i < n :: IsLast(ops, i)
    ensures Keep(xs, ops, n) == xs[..n]
  {
    if n > 0 {
      KeepAll(xs, ops, n - 1);
    }
  }

  method Retain<T>(xs: seq<T>, ops: seq<Op>, keep: set<nat>) returns (r: seq<T>)
    requires |xs| == |ops| && forall i | 0 <= i < |ops| :: i in keep <==> IsLast(ops, i)
    ensures r == Keep(xs, ops, |ops|)
  {
    r := [];
    for i := 0 to |xs|
      invariant r == Keep(xs, ops, i)
    {
      if i in keep {
        r := r + [xs[i]];
      }
    }
  }

  /** Collapses a batch to one operation per key, the entries and the operations in lockstep. */
  method DedupLastWins(writes: seq<WalEntry>, ops: seq<Op>) returns (w: seq<WalEntry>, o: seq<Op>)
    requires |writes| == |ops|
    ensures w == Keep(writes, ops, |ops|) && o == Keep(ops, ops, |ops|)
  {
    if |writes| < 2 {
      KeepAll(writes, ops, |ops|);
      KeepAll(ops, ops, |ops|);
      return writes, ops;
    }
    var last := LastIndices(ops);
    if |last| == |ops| {
      assert forall i | 0 <= i < |ops| :: IsLast(ops, i);
      KeepAll(writes, ops, |ops|);
      KeepAll(ops, ops, |ops|);
      return writes, ops;
    }
    var keep := set op | op in last :: last[op];
    forall i | 0 <= i < |ops| ensures i in keep <==> IsLast(ops, i) {
      if IsLast(ops, i) {
        assert ops[i] in last && last[ops[i]] == i;
      }
      if i in keep {
        var op :| op in last && last[op] == i;
      }
    }
    w := Retain(writes, ops, keep);
    o := Retain(ops, ops, keep);
  }

  /** What each key ends up with when the batch is applied in order. */
  function Final<T>(xs: seq<T>, ops: seq<Op>): map<Op, T>
    requires |xs| == |ops|
  {
    if ops == [] then map[]
    else Final(xs[..|xs| - 1], ops[..|ops| - 1])[ops[|ops| - 1] := xs[|xs| - 1]]
  }

  lemma {:induction false} KeepLengths<T>(xs: seq<T>, ops: seq<Op>, n: nat)
    requires |xs| == |ops| && n <= |ops|
    ensures |Keep(xs, ops, n)| == |Keep(ops, ops, n)|
  {
    if n > 0 {
      KeepLengths(xs, ops, n - 1);
    }
  }

  /** The places of the operations that are the last of their key. */
  function LastPlaces(ops: seq<Op>, n: nat): (ps: seq<nat>)
    requires n <= |ops|
    ensures forall i | 0 <= i < |ps| :: ps[i] < n
    ensures forall i, j | 0 <= i < j < |ps| :: ps[i] < ps[j]
    ensures forall m: nat | m < n :: m in ps <==> IsLast(ops, m)
  {
    if n == 0 then [] else LastPlaces(ops, n - 1) + if IsLast(ops, n - 1) then [n - 1] else []
  }

  /** What is kept is what stood at those places, in the same order, whichever list it is taken from. */
  lemma {:induction false} KeepSelects<T>(xs: seq<T>, ops: seq<Op>, n: nat)
    requires |xs| == |ops| && n <= |ops|
    ensures |Keep(xs, ops, n)| == |LastPlaces(ops, n)|
    ensures forall i | 0 <= i < |LastPlaces(ops, n)| :: Keep(xs, ops, n)[i] == xs[LastPlaces(ops, n)[i]]
  {
    if n > 0 {
      KeepSelects(xs, ops, n - 1);
    }
  }

  /** One operation per key is left. */
  lemma {:induction false} KeepUnique(ops: seq<Op>, n: nat)
    requires n <= |ops|
    ensures var k := Keep(ops, ops, n); NoRepeat(k, |k|)
    ensures forall op | op in Keep(ops, ops, n) :: NotAfter(ops, n, op)
  {
    if n > 0 {
      KeepUnique(ops, n - 1);
      var k := Keep(ops, ops, n - 1);
      if IsLast(ops, n - 1) {
        forall i | 0 <= i < |k| ensures k[i] != ops[n - 1] {
          assert k[i] in k;
        }
      }
    }
  }

  predicate NotAfter(ops: seq<Op>, n: nat, op: Op)
    requires n <= |ops|
  {
    forall j | n <= j < |ops| :: ops[j] != op
  }

  /** A key's final element is the one at its last operation. */
  lemma {:induction false} FinalAtLast<T>(xs: seq<T>, ops: seq<Op>, i: nat)
    requires |xs| == |ops| && i < |ops| && IsLast(ops, i)
    ensures ops[i] in Final(xs, ops) && Final(xs, ops)[ops[i]] == xs[i]
  {
    var n := |ops| - 1;
    if i < n {
      assert IsLast(ops[..n], i) by {
        forall j | i < j < n ensures ops[..n][j] != ops[i] {
          assert ops[j] != ops[i];
        }
      }
      FinalAtLast(xs[..n], ops[..n], i);
      assert ops[n] != ops[i];
    }
  }

  lemma {:induction false} LastOccurrence(ops: seq<Op>, op: Op) returns (i: nat)
    requires op in ops
    ensures i < |ops| && ops[i] == op && IsLast(ops, i)
  {
    var n := |ops| - 1;
    if ops[n] == op {
      i := n;
    } else {
      assert op in ops[..n];
      i := LastOccurrence(ops[..n], op);
      forall j | i < j < |ops| ensures ops[j] != ops[i] {
        if j < n {
          assert ops[..n][j] != ops[..n][i];
        }
      }
    }
  }

  lemma {:induction false} FinalKeys<T>(xs: seq<T>, ops: seq<Op>)
    requires |xs| == |ops|
    ensures forall op :: op in Final(xs, ops) <==> op in ops
  {
    if ops != [] {
      var n := |ops| - 1;
      FinalKeys(xs[..n], ops[..n]);
      assert ops == ops[..n] + [ops[n]];
    }
  }

  /** Every kept element is the final one of its key. */
  lemma {:induction false} KeptIsFinal<T>(xs: seq<T>, ops: seq<Op>, n: nat, i: nat)
    requires |xs| == |ops| && n <= |ops| && i < |Keep(ops, ops, n)| == |Keep(xs, ops, n)|
    ensures var op := Keep(ops, ops, n)[i]; op in Final(xs, ops) && Final(xs, ops)[op] == Keep(xs, ops, n)[i]
  {
    KeepLengths(xs, ops, n - 1);
    if i < |Keep(ops, ops, n - 1)| {
      KeptIsFinal(xs, ops, n - 1, i);
    } else {
      FinalAtLast(xs, ops, n - 1);
    }
  }

  lemma {:induction false} LastIsKept(ops: seq<Op>, n: nat, i: nat)
    requires i < n <= |ops| && IsLast(ops, i)
    ensures ops[i] in Keep(ops, ops, n)
  {
    if i < n - 1 {
      LastIsKept(ops, n - 1, i);
    }
  }

  /** The collapsed batch ends with the same map as the whole batch. */
  lemma DedupKeepsFinal<T>(xs: seq<T>, ops: seq<Op>)
    requires |xs| == |ops| && |Keep(xs, ops, |ops|)| == |Keep(ops, ops, |ops|)|
    ensures Final(Keep(xs, ops, |ops|), Keep(ops, ops, |ops|)) == Final(xs, ops)
  {
    var w, o := Keep(xs, ops, |ops|), Keep(ops, ops, |ops|);
    KeepUnique(ops, |ops|);
    FinalKeys(w, o);
    FinalKeys(xs, ops);
    forall op | op in Final(w, o) ensures op in Final(xs, ops) && Final(w, o)[op] == Final(xs, ops)[op] {
      var i :| 0 <= i < |o| && o[i] == op;
      FinalAtLast(w, o, i);
      KeptIsFinal(xs, ops, |ops|, i);
    }
    forall op | op in Final(xs, ops) ensures op in Final(w, o) {
      var i := LastOccurrence(ops, op);
      LastIsKept(ops, |ops|, i);
    }
  }

  /** Each entry belongs to the operation beside it. */
  predicate Lockstep(writes: seq<WalEntry>, ops: seq<Op>, reduce: Key -> Key) {
    && |writes| == |ops|
    && forall i | 0 <= i < |ops| ::
         && (writes[i].Record? || writes[i].Remove?)
         && ops[i] == Op(writes[i].ks, reduce(writes[i].key))
  }

  lemma {:induction false} KeepLockstep(writes: seq<WalEntry>, ops: seq<Op>, reduce: Key -> Key, n: nat)
    requires Lockstep(writes, ops, reduce) && n <= |ops|
    ensures Lockstep(Keep(writes, ops, n), Keep(ops, ops, n), reduce)
  {
    if n > 0 {
      KeepLockstep(writes, ops, reduce, n - 1);
    }
  }

  /** A record the scan of a collapsed batch finds is the last thing the batch wrote to its key. */
  lemma HitIsFinal(writes: seq<WalEntry>, ops: seq<Op>, reduce: Key -> Key, ks: byte, k: Key, i: nat)
    requires Lockstep(writes, ops, reduce) && i < |Keep(writes, ops, |ops|)|
    requires Hits(Keep(writes, ops, |ops|)[i], ks, key => reduce(key) == k)
    ensures Op(ks, k) in Final(writes, ops) && Final(writes, ops)[Op(ks, k)] == Keep(writes, ops, |ops|)[i]
  {
    KeepLockstep(writes, ops, reduce, |ops|);
    KeptIsFinal(writes, ops, |ops|, i);
  }

  /** A key the batch last wrote a record for is found by the scan, with that record. */
  lemma FinalIsHit(writes: seq<WalEntry>, ops: seq<Op>, reduce: Key -> Key, ks: byte, k: Key) returns (j: nat)
    requires Lockstep(writes, ops, reduce)
    requires Op(ks, k) in Final(writes, ops) && Final(writes, ops)[Op(ks, k)].Record?
    ensures j < |Keep(writes, ops, |ops|)| && Keep(writes, ops, |ops|)[j] == Final(writes, ops)[Op(ks, k)]
    ensures Hits(Keep(writes, ops, |ops|)[j], ks, key => reduce(key) == k)
  {
    var o, op := Keep(ops, ops, |ops|), Op(ks, k);
    KeepLockstep(writes, ops, reduce, |ops|);
    FinalKeys(writes, ops);
    var m := LastOccurrence(ops, op);
    LastIsKept(ops, |ops|, m);
    j :| 0 <= j < |o| && o[j] == op;
    KeptIsFinal(writes, ops, |ops|, j);
  }

  /** Collapse, encode and scan: the value found for a key is the one the whole batch leaves for it. */
  method FindAfterDedup(writes: seq<WalEntry>, ops: seq<Op>, reduce: Key -> Key, ks: byte, k: Key)
    returns (r: Option<seq<byte>>)
    requires Lockstep(writes, ops, reduce) && |ops| <= U32_MAX && forall i | 0 <= i < |writes| :: Sound(writes[i])
    ensures r.Some? <==> Op(ks, k) in Final(writes, ops) && Final(writes, ops)[Op(ks, k)].Record?
    ensures r.Some? ==> Final(writes, ops)[Op(ks, k)].value == r.value
  {
    var w, _ := DedupLastWins(writes, ops);
    KeepSound(writes, ops, |ops|);
    var body := EncodeInner(w);
    var found := FindRecordBy(body, ks, key => reduce(key) == k, w);
    if found.Some? {
      ghost var i :| 0 <= i < |w| && Hits(w[i], ks, key => reduce(key) == k) && found.value == (w[i].key, w[i].value);
      HitIsFinal(writes, ops, reduce, ks, k, i);
      return Some(found.value.1);
    }
    if Op(ks, k) in Final(writes, ops) && Final(writes, ops)[Op(ks, k)].Record? {
      ghost var j := FinalIsHit(writes, ops, reduce, ks, k);
    }
    r := None;
  }

  lemma {:induction false} KeepSound(writes: seq<WalEntry>, ops: seq<Op>, n: nat)
    requires |writes| == |ops| && n <= |ops| && forall i | 0 <= i < |writes| :: Sound(writes[i])
    ensures |Keep(writes, ops, n)| <= n && forall i | 0 <= i < |Keep(writes, ops, n)| :: Sound(Keep(writes, ops, n)[i])
  {
    if n > 0 {
      KeepSound(writes, ops, n - 1);
    }
  }

  // ---- grouping by row lock ----

  /** Key space id and mutex index. */
  datatype Lock = Lock(ks: nat, mutex: nat)

  predicate Precedes(a: Lock, b: Lock) {
    a.ks < b.ks || (a.ks == b.ks && a.mutex < b.mutex)
  }

  /** An operation, by its place in the batch, and the lock it needs. */
  datatype Task = Task(lock: Lock, place: nat)

  /** The tasks of one lock, in the order of the sequence. */
  function Of(ts: seq<Task>, l: Lock): seq<Task> {
    if ts == [] then []
    else Of(ts[..|ts| - 1], l) + if ts[|ts| - 1].lock == l then [ts[|ts| - 1]] else []
  }

  predicate ByLock(ts: seq<Task>) {
    forall i, j | 0 <= i < j < |ts| :: !Precedes(ts[j].lock, ts[i].lock)
  }

  lemma {:induction false} OfPlus(a: seq<Task>, b: seq<Task>, l: Lock)
    ensures Of(a + b, l) == Of(a, l) + Of(b, l)
  {
    if b == [] {
      assert a + b == a;
    } else {
      var n := |b| - 1;
      assert (a + b)[..|a + b| - 1] == a + b[..n];
      OfPlus(a, b[..n], l);
    }
  }

  lemma {:induction false} OfNone(ts: seq<Task>, l: Lock)
    requires forall i | 0 <= i < |ts| :: ts[i].lock != l
    ensures Of(ts, l) == []
  {
    if ts != [] {
      OfNone(ts[..|ts| - 1], l);
    }
  }

  lemma {:induction false} OfAll(ts: seq<Task>, l: Lock)
    requires forall i | 0 <= i < |ts| :: ts[i].lock == l
    ensures Of(ts, l) == ts
  {
    if ts != [] {
      OfAll(ts[..|ts| - 1], l);
      assert ts == ts[..|ts| - 1] + [ts[|ts| - 1]];
    }
  }

  /** Stable sort: ordered by lock, each lock's tasks in their original order. */
  method StableSort(ts: seq<Task>) returns (r: seq<Task>)
    ensures ByLock(r) && forall l :: Of(r, l) == Of(ts, l)
  {
    r := [];
    for n := 0 to |ts|
      invariant ByLock(r) && forall l :: Of(r, l) == Of(ts[..n], l)
    {
      var before := r;
      r := InsertStable(before, ts[n]);
      forall l ensures Of(r, l) == Of(ts[..n + 1], l) {
        assert ts[..n + 1] == ts[..n] + [ts[n]];
        OfPlus(before, [ts[n]], l);
        OfPlus(ts[..n], [ts[n]], l);
      }
    }
    assert ts[..|ts|] == ts;
  }

  method InsertStable(ts: seq<Task>, t: Task) returns (r: seq<Task>)
    requires ByLock(ts)
    ensures ByLock(r) && forall l :: Of(r, l) == Of(ts + [t], l)
  {
    var n := |ts|;
    while n > 0 && Precedes(t.lock, ts[n - 1].lock)
      invariant 0 <= n <= |ts| && forall i | n <= i < |ts| :: Precedes(t.lock, ts[i].lock)
    {
      n := n - 1;
    }
    r := ts[..n] + [t] + ts[n..];
    forall l ensures Of(r, l) == Of(ts + [t], l) {
      InsertedOf(ts, t, n, l);
    }
    InsertedByLock(ts, t, n);
  }

  lemma InsertedOf(ts: seq<Task>, t: Task, n: nat, l: Lock)
    requires n <= |ts| && forall i | n <= i < |ts| :: Precedes(t.lock, ts[i].lock)
    ensures Of(ts[..n] + [t] + ts[n..], l) == Of(ts + [t], l)
  {
    var a, b, c := Of(ts[..n], l), Of([t], l), Of(ts[n..], l);
    assert ts == ts[..n] + ts[n..];
    OfPlus(ts[..n] + [t], ts[n..], l);
    OfPlus(ts[..n], [t], l);
    OfPlus(ts, [t], l);
    OfPlus(ts[..n], ts[n..], l);
    if l == t.lock {
      OfNone(ts[n..], l);
      assert (a + b) + [] == (a + []) + b;
    } else {
      OfNone([t], l);
      assert (a + []) + c == (a + c) + [];
    }
  }

  lemma InsertedByLock(ts: seq<Task>, t: Task, n: nat)
    requires ByLock(ts) && n <= |ts|
    requires (forall i | n <= i < |ts| :: Precedes(t.lock, ts[i].lock)) && (n > 0 ==> !Precedes(t.lock, ts[n - 1].lock))
    ensures ByLock(ts[..n] + [t] + ts[n..])
  {
    var r := ts[..n] + [t] + ts[n..];
    forall i | 0 <= i < n ensures !Precedes(t.lock, ts[i].lock) {
      if i < n - 1 {
        assert !Precedes(ts[n - 1].lock, ts[i].lock);
      }
    }
    forall i, j | 0 <= i < j < |r| ensures !Precedes(r[j].lock, r[i].lock) {
      var a, b := if i <= n then i else i - 1, if j <= n then j else j - 1;
      assert r[i] == (if i == n then t else ts[a]) && r[j] == (if j == n then t else ts[b]);
    }
  }

  /** The end of the run of equal locks that begins at `i`. */
  method RunEnd(ts: seq<Task>, i: nat) returns (j: nat)
    requires ByLock(ts) && i < |ts|
    ensures i < j <= |ts|
    ensures forall m | i <= m < j :: ts[m].lock == ts[i].lock
    ensures forall m | j <= m < |ts| :: ts[m].lock != ts[i].lock
  {
    j := i + 1;
    var hi := |ts|;
    while j < hi
      invariant i < j <= hi <= |ts|
      invariant forall m | i <= m < j :: ts[m].lock == ts[i].lock
      invariant forall m | hi <= m < |ts| :: ts[m].lock != ts[i].lock
    {
      var mid := j + (hi - j) / 2;
      if ts[mid].lock == ts[i].lock {
        forall m | j <= m <= mid ensures ts[m].lock == ts[i].lock {
          assert !Precedes(ts[mid].lock, ts[m].lock) && !Precedes(ts[m].lock, ts[i].lock);
        }
        j := mid + 1;
      } else {
        forall m | mid <= m < hi ensures ts[m].lock != ts[i].lock {
          assert !Precedes(ts[m].lock, ts[mid].lock) && !Precedes(ts[mid].lock, ts[i].lock);
        }
        hi := mid;
      }
    }
  }

  /** Range `g` is the whole, ordered share of its lock. */
  predicate WholeGroup(ts: seq<Task>, g: (nat, nat)) {
    g.0 < g.1 <= |ts| && ts[g.0..g.1] == Of(ts, ts[g.0].lock)
  }

  predicate Differ(ts: seq<Task>, g: (nat, nat), h: (nat, nat)) {
    g.0 < |ts| && h.0 < |ts| && ts[g.0].lock != ts[h.0].lock
  }

  /** The ranges found up to `n` are whole groups of different locks and cover everything before `n`. */
  predicate Groups(ts: seq<Task>, gs: seq<(nat, nat)>, n: nat) {
    && n <= |ts|
    && (forall g | 0 <= g < |gs| :: WholeGroup(ts, gs[g]) && gs[g].1 <= n)
    && (forall g, h | 0 <= g < h < |gs| :: Differ(ts, gs[g], gs[h]))
    && (forall m: nat | m < n :: Covered(gs, m))
  }

  /** Splits the sorted tasks into one range per lock. */
  method GroupRanges(ts: seq<Task>) returns (gs: seq<(nat, nat)>)
    requires ByLock(ts)
    ensures Groups(ts, gs, |ts|)
  {
    gs := [];
    var i := 0;
    while i < |ts|
      invariant i <= |ts| && Groups(ts, gs, i)
      invariant i < |ts| ==> forall m | 0 <= m < i :: ts[m].lock != ts[i].lock
    {
      var j := RunEnd(ts, i);
      RunIsGroup(ts, i, j);
      AddGroup(ts, gs, i, j);
      if j < |ts| {
        forall m | 0 <= m < j ensures ts[m].lock != ts[j].lock {
          if m < i {
            assert !Precedes(ts[i].lock, ts[m].lock) && !Precedes(ts[j].lock, ts[i].lock);
          }
        }
      }
      gs := gs + [(i, j)];
      i := j;
    }
  }

  lemma AddGroup(ts: seq<Task>, gs: seq<(nat, nat)>, i: nat, j: nat)
    requires Groups(ts, gs, i) && i < j <= |ts| && WholeGroup(ts, (i, j))
    requires forall m | 0 <= m < i :: ts[m].lock != ts[i].lock
    ensures Groups(ts, gs + [(i, j)], j)
  {
    CoverMore(gs, i, j);
    forall g | 0 <= g < |gs| ensures Differ(ts, gs[g], (i, j)) {
      assert WholeGroup(ts, gs[g]);
    }
  }

  predicate Covered(gs: seq<(nat, nat)>, m: nat) {
    exists g | 0 <= g < |gs| :: gs[g].0 <= m < gs[g].1
  }

  lemma CoverMore(gs: seq<(nat, nat)>, i: nat, j: nat)
    requires forall m: nat | m < i :: Covered(gs, m)
    ensures forall m: nat | m < j :: Covered(gs + [(i, j)], m)
  {
    var out := gs + [(i, j)];
    forall m: nat | m < j ensures Covered(out, m) {
      if m < i {
        assert Covered(gs, m);
        var g :| 0 <= g < |gs| && gs[g].0 <= m < gs[g].1;
        assert out[g] == gs[g];
      } else {
        assert out[|gs|] == (i, j);
      }
    }
  }

  lemma {:induction false} OfLocks(ts: seq<Task>, l: Lock)
    ensures forall i | 0 <= i < |Of(ts, l)| :: Of(ts, l)[i].lock == l
  {
    if ts != [] {
      OfLocks(ts[..|ts| - 1], l);
    }
  }

  lemma GroupLocks(ts: seq<Task>, g: (nat, nat), m: nat)
    requires WholeGroup(ts, g) && g.0 <= m < g.1
    ensures ts[m].lock == ts[g.0].lock
  {
    OfLocks(ts, ts[g.0].lock);
    assert ts[g.0..g.1][m - g.0] == ts[m];
  }

  /** A run that holds every task of its lock is that lock's share. */
  lemma RunIsGroup(ts: seq<Task>, i: nat, j: nat)
    requires i < j <= |ts|
    requires forall m | i <= m < j :: ts[m].lock == ts[i].lock
    requires forall m | 0 <= m < i || j <= m < |ts| :: ts[m].lock != ts[i].lock
    ensures WholeGroup(ts, (i, j))
  {
    var l := ts[i].lock;
    var a, b, c := ts[..i], ts[i..j], ts[j..];
    assert ts == a + b + c;
    OfPlus(a + b, c, l);
    OfPlus(a, b, l);
    OfNone(a, l);
    OfNone(c, l);
    OfAll(b, l);
  }

  /** Each lock is taken once, for all of its operations in WAL order. */
  method GroupBatch(ts: seq<Task>) returns (sorted: seq<Task>, gs: seq<(nat, nat)>)
    ensures forall i | 0 <= i < |gs| ::
      gs[i].0 < gs[i].1 <= |sorted| && sorted[gs[i].0..gs[i].1] == Of(ts, sorted[gs[i].0].lock)
    ensures forall i, j | 0 <= i < j < |gs| :: Differ(sorted, gs[i], gs[j])
    ensures forall t | t in ts :: exists i | 0 <= i < |gs| :: gs[i].0 < |sorted| && sorted[gs[i].0].lock == t.lock
  {
    sorted := StableSort(ts);
    gs := GroupRanges(sorted);
    forall i | 0 <= i < |gs|
      ensures gs[i].0 < gs[i].1 <= |sorted| && sorted[gs[i].0..gs[i].1] == Of(ts, sorted[gs[i].0].lock)
    {
      assert WholeGroup(sorted, gs[i]);
    }
    forall t | t in ts ensures exists i | 0 <= i < |gs| :: gs[i].0 < |sorted| && sorted[gs[i].0].lock == t.lock {
      var m := TaskStays(ts, sorted, t);
      assert Covered(gs, m);
      var i :| 0 <= i < |gs| && gs[i].0 <= m < gs[i].1;
      assert WholeGroup(sorted, gs[i]);
      GroupLocks(sorted, gs[i], m);
    }
  }

  lemma TaskStays(ts: seq<Task>, sorted: seq<Task>, t: Task) returns (m: nat)
    requires t in ts && forall l :: Of(sorted, l) == Of(ts, l)
    ensures m < |sorted| && sorted[m].lock == t.lock
  {
    InOf(ts, t);
    if forall i | 0 <= i < |sorted| :: sorted[i].lock != t.lock {
      OfNone(sorted, t.lock);
    }
    m :| 0 <= m < |sorted| && sorted[m].lock == t.lock;
  }

  lemma {:induction false} InOf(ts: seq<Task>, t: Task)
    requires t in ts
    ensures Of(ts, t.lock) != []
  {
    var n := |ts| - 1;
    if ts[n].lock != t.lock {
      assert t in ts[..n];
      InOf(ts[..n], t);
    }
  }
}
