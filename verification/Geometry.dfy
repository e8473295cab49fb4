/**
 Key geometry: how keys map to cells, and the key range and the 32-bit index prefix range a
 cell covers, for uniform keys and for prefixed keys with cluster bits.
*/
module Geometry {
  import opened Bytes

  // ---- byte strings as numbers ----

  function Pow(n: nat): nat {
    if n == 0 then 1 else 256 * Pow(n - 1)
  }

  function Head(k: Key): nat {
    if k == [] then 0 else k[0] as nat
  }

  function Tail(k: Key): Key {
    if k == [] then [] else k[1..]
  }

  /** The first `n` bytes as a big-endian number, a short key padded with zeroes. */
  function Starting(k: Key, n: nat): (r: nat)
    ensures r < Pow(n)
  {
    if n == 0 then 0
    else
      var rest := Starting(Tail(k), n - 1);
      DigitBound(Head(k), rest, Pow(n - 1));
      Head(k) * Pow(n - 1) + rest
  }

  lemma DigitBound(d: nat, rest: nat, p: nat)
    requires d < 256 && rest < p
    ensures d * p + rest < 256 * p
  {
    MulMonotone(d, 255, p);
  }

  lemma MulMonotone(a: nat, b: nat, p: nat)
    requires a <= b
    ensures a * p <= b * p
  {
  }

  /** `starting_u32`. */
  function StartingU32(k: Key): nat {
    Starting(k, 4)
  }

  const U32_PLUS_ONE: nat := 0x1_0000_0000

  lemma PowFour()
    ensures Pow(4) == U32_PLUS_ONE
  {
    assert Pow(2) == 256 * Pow(1) == 256 * 256;
  }

  /** Prefix numbers follow key order. */
  lemma {:induction false} StartingMonotone(a: Key, b: Key, n: nat)
    requires Leq(a, b)
    ensures Starting(a, n) <= Starting(b, n)
  {
    if n > 0 && a != b && a != [] {
      if a[0] == b[0] {
        StartingMonotone(a[1..], b[1..], n - 1);
      } else {
        MulMonotone(a[0] as nat + 1, b[0] as nat, Pow(n - 1));
        Distribute(a[0] as nat, Pow(n - 1));
      }
    } else if n > 0 && a == [] {
      StartingEmpty(n);
    }
  }

  lemma Distribute(a: nat, p: nat)
    ensures (a + 1) * p == a * p + p
  {
  }

  lemma {:induction false} StartingEmpty(n: nat)
    ensures Starting([], n) == 0
  {
    if n > 0 {
      StartingEmpty(n - 1);
    }
  }

  /** On strings of `n` bytes the number determines the string's order exactly. */
  lemma {:induction false} StartingExact(a: Key, b: Key, n: nat)
    requires |a| == |b| == n
    ensures Less(a, b) <==> Starting(a, n) < Starting(b, n)
    ensures a == b <==> Starting(a, n) == Starting(b, n)
  {
    if n > 0 {
      StartingExact(a[1..], b[1..], n - 1);
      assert a == [a[0]] + a[1..] && b == [b[0]] + b[1..];
      if a[0] < b[0] {
        MulMonotone(a[0] as nat + 1, b[0] as nat, Pow(n - 1));
        Distribute(a[0] as nat, Pow(n - 1));
      } else if b[0] < a[0] {
        MulMonotone(b[0] as nat + 1, a[0] as nat, Pow(n - 1));
        Distribute(b[0] as nat, Pow(n - 1));
      }
    }
  }

  /** Only the first `n` bytes matter. */
  lemma {:induction false} StartingPrefix(p: Key, r: Key, n: nat)
    requires |p| == n
    ensures Starting(p + r, n) == Starting(p, n)
  {
    if n > 0 {
      assert (p + r)[1..] == p[1..] + r;
      StartingPrefix(p[1..], r, n - 1);
    }
  }

  /** `to_be_bytes`. */
  function BigEndian(x: nat, n: nat): (k: Key)
    requires x < Pow(n)
    ensures |k| == n && Starting(k, n) == x
  {
    if n == 0 then []
    else
      var p := Pow(n - 1);
      DivBound(x, p);
      [(x / p) as byte] + BigEndian(x % p, n - 1)
  }

  lemma DivBound(x: nat, p: nat)
    requires x < 256 * p
    ensures p > 0 && x / p < 256 && x % p < p && (x / p) * p + x % p == x
  {
  }

  // ---- comparing padded keys ----

  lemma {:induction false} LexSplit(p: Key, q: Key, r: Key, s: Key)
    requires |p| == |q|
    ensures Less(p + r, q + s) <==> Less(p, q) || (p == q && Less(r, s))
  {
    if p == [] {
      assert p + r == r && q + s == s;
    } else {
      assert (p + r)[1..] == p[1..] + r && (q + s)[1..] == q[1..] + s;
      assert p == [p[0]] + p[1..] && q == [q[0]] + q[1..];
      LexSplit(p[1..], q[1..], r, s);
    }
  }

  lemma LeqSplit(p: Key, q: Key, r: Key, s: Key)
    requires |p| == |q|
    ensures Leq(p + r, q + s) <==> Less(p, q) || (p == q && Leq(r, s))
  {
    LexSplit(p, q, r, s);
    if p + r == q + s {
      assert p == (p + r)[..|p|] && r == (p + r)[|p|..];
      assert q == (q + s)[..|q|] && s == (q + s)[|q|..];
    }
    LessIrreflexive(p);
  }

  function Fill(b: byte, n: nat): (k: Key)
    ensures |k| == n
  {
    if n == 0 then [] else [b] + Fill(b, n - 1)
  }

  /** Zeroes come before, and ones after, every string of their length. */
  lemma {:induction false} FillBounds(k: Key)
    ensures Leq(Fill(0, |k|), k) && Leq(k, Fill(255, |k|))
  {
    if k != [] {
      FillBounds(k[1..]);
      assert k == [k[0]] + k[1..];
      LeqSplit([0], [k[0]], Fill(0, |k| - 1), k[1..]);
      LeqSplit([k[0]], [255], k[1..], Fill(255, |k| - 1));
    }
  }

  // ---- uniform keys ----

  /** `n` equal cells over the 32-bit prefix; power-of-two counts divide it evenly. */
  predicate Even(n: nat, size: nat) {
    n > 0 && size > 0 && n * size == U32_PLUS_ONE
  }

  /** `downscale_u32` of the starting prefix. */
  function UniformCell(k: Key, n: nat): nat {
    StartingU32(k) * n / U32_PLUS_ONE
  }

  /** `index_prefix_range`, end exclusive. */
  function UniformLow(c: nat, n: nat): nat
    requires n > 0
  {
    c * (U32_PLUS_ONE / n)
  }

  lemma CellBySize(k: Key, n: nat, size: nat)
    requires Even(n, size)
    ensures UniformCell(k, n) == StartingU32(k) / size && UniformCell(k, n) < n && U32_PLUS_ONE / n == size
  {
    var u := StartingU32(k);
    PowFour();
    ScaledDiv(u, n, size);
    DivLess(u, n, size);
    ExactDiv(n, size);
  }

  lemma ExactDiv(n: nat, size: nat)
    requires n > 0
    ensures (n * size) / n == size
  {
    Distribute(size, n);
    IntervalDiv(n * size, size, n);
  }

  lemma ScaledDiv(u: nat, n: nat, size: nat)
    requires n > 0 && size > 0
    ensures n * size > 0 && (u * n) / (n * size) == u / size
  {
    var q, r := u / size, u % size;
    assert u == q * size + r;
    assert u * n == q * (n * size) + r * n;
    assert r * n < n * size;
    QuotientIs(u * n, n * size, q, r * n);
  }

  lemma QuotientIs(x: nat, d: nat, q: nat, r: nat)
    requires d > 0 && x == q * d + r && r < d
    ensures x / d == q
  {
    Distribute(q, d);
    IntervalDiv(x, q, d);
  }

  lemma DivLess(u: nat, n: nat, size: nat)
    requires size > 0 && u < n * size
    ensures u / size < n
  {
  }

  /** A cell's numbers are a contiguous interval. */
  lemma IntervalDiv(u: nat, c: nat, size: nat)
    requires size > 0
    ensures u / size == c <==> c * size <= u < (c + 1) * size
  {
    var q, r := u / size, u % size;
    assert u == q * size + r;
    if c * size <= u < (c + 1) * size {
      if q < c {
        MulMonotone(q + 1, c, size);
      } else if c < q {
        MulMonotone(c + 1, q, size);
      }
    }
  }

  /** Cells follow key order. */
  lemma UniformMonotone(a: Key, b: Key, n: nat, size: nat)
    requires Even(n, size) && Leq(a, b)
    ensures UniformCell(a, n) <= UniformCell(b, n)
  {
    CellBySize(a, n, size);
    CellBySize(b, n, size);
    StartingMonotone(a, b, 4);
    DivMonotone(StartingU32(a), StartingU32(b), size);
  }

  lemma DivMonotone(u: nat, v: nat, d: nat)
    requires d > 0 && u <= v
    ensures u / d <= v / d
  {
    var q, p := u / d, v / d;
    assert u == q * d + u % d && v == p * d + v % d;
    Distribute(p, d);
    if p < q {
      MulMonotone(p + 1, q, d);
    }
  }

  /** A key's 32-bit prefix lies in the index prefix range of its cell, and of no other. */
  lemma UniformPrefixRange(k: Key, n: nat, size: nat, c: nat)
    requires Even(n, size)
    ensures UniformCell(k, n) == c <==> UniformLow(c, n) <= StartingU32(k) < UniformLow(c + 1, n)
  {
    CellBySize(k, n, size);
    IntervalDiv(StartingU32(k), c, size);
  }

  /** The first and last key of `len` bytes in cell `c`. */
  function UniformFirst(c: nat, n: nat, size: nat, len: nat): (k: Key)
    requires Even(n, size) && c < n && len >= 4
    ensures |k| == len
  {
    RangeFits(c, n, size);
    BigEndian(c * size, 4) + Fill(0, len - 4)
  }

  function UniformLast(c: nat, n: nat, size: nat, len: nat): (k: Key)
    requires Even(n, size) && c < n && len >= 4
    ensures |k| == len
  {
    RangeFits(c, n, size);
    BigEndian((c + 1) * size - 1, 4) + Fill(255, len - 4)
  }

  lemma RangeFits(c: nat, n: nat, size: nat)
    requires Even(n, size) && c < n
    ensures c * size < (c + 1) * size <= Pow(4)
  {
    PowFour();
    Distribute(c, size);
    MulMonotone(c + 1, n, size);
  }

  /** The keys of cell `c` are exactly those between its first and last key. */
  lemma UniformRange(k: Key, c: nat, n: nat, size: nat, len: nat)
    requires Even(n, size) && c < n && len >= 4 && |k| == len
    ensures UniformCell(k, n) == c
       <==> Leq(UniformFirst(c, n, size, len), k) && Leq(k, UniformLast(c, n, size, len))
  {
    var p, r := k[..4], k[4..];
    assert k == p + r;
    RangeFits(c, n, size);
    var lo, hi := BigEndian(c * size, 4), BigEndian((c + 1) * size - 1, 4);
    CellBySize(k, n, size);
    IntervalDiv(StartingU32(k), c, size);
    StartingPrefix(p, r, 4);
    FillBounds(r);
    LeqSplit(lo, p, Fill(0, len - 4), r);
    LeqSplit(p, hi, r, Fill(255, len - 4));
    StartingExact(lo, p, 4);
    StartingExact(p, hi, 4);
  }

  /** Keys of earlier cells come first. */
  lemma UniformApart(a: Key, b: Key, n: nat, size: nat)
    requires Even(n, size) && UniformCell(a, n) < UniformCell(b, n)
    ensures Less(a, b)
  {
    LessTotal(a, b);
    if Leq(b, a) {
      UniformMonotone(b, a, n, size);
    }
  }

  /** Dropping the cells from the cell of `from` to the cell of `to` drops exactly the keys from `from` to `to`. */
  lemma UniformKeyRange(from: Key, to: Key, k: Key, n: nat, size: nat, len: nat)
    requires Even(n, size) && len >= 4 && |k| == |from| == |to| == len
    requires UniformCell(from, n) < n && from == UniformFirst(UniformCell(from, n), n, size, len)
    requires UniformCell(to, n) < n && to == UniformLast(UniformCell(to, n), n, size, len)
    ensures UniformCell(from, n) <= UniformCell(k, n) <= UniformCell(to, n) <==> Leq(from, k) && Leq(k, to)
  {
    if Leq(from, k) && Leq(k, to) {
      UniformMonotone(from, k, n, size);
      UniformMonotone(k, to, n, size);
    } else if UniformCell(from, n) <= UniformCell(k, n) <= UniformCell(to, n) {
      UniformRange(k, UniformCell(from, n), n, size, len);
      UniformRange(k, UniformCell(to, n), n, size, len);
      if UniformCell(from, n) < UniformCell(k, n) {
        UniformApart(from, k, n, size);
      }
      if UniformCell(k, n) < UniformCell(to, n) {
        UniformApart(k, to, n, size);
      }
    }
  }

  // ---- prefixed keys ----

  /** `1 << cluster_bits` for the admissible bit counts. */
  predicate ClusterWidth(w: nat) {
    w == 1 || w == 2 || w == 4 || w == 8 || w == 16 || w == 32 || w == 64 || w == 128
  }

  /** `cluster_bits`: the low bits of a byte cleared. */
  function Cluster(x: byte, w: nat): (r: byte)
    requires ClusterWidth(w)
    ensures r <= x && (x - r) as nat < w && r as nat % w == 0 && r as nat + (w - 1) < 256
  {
    var v := x as nat;
    ClusterFits(v, w);
    (v - v % w) as byte
  }

  lemma ClusterFits(v: nat, w: nat)
    requires v < 256 && ClusterWidth(w)
    ensures v % w <= v && (v - v % w) % w == 0 && v - v % w + (w - 1) < 256
  {
    var m := if w == 1 then 256 else if w == 2 then 128 else if w == 4 then 64 else if w == 8 then 32
             else if w == 16 then 16 else if w == 32 then 8 else if w == 64 then 4 else 2;
    FloorFits(v, w, m);
  }

  lemma FloorFits(v: nat, w: nat, m: nat)
    requires w > 0 && m * w == 256 && v < 256
    ensures v % w <= v && (v - v % w) % w == 0 && v - v % w + (w - 1) < 256
  {
    var q := v / w;
    assert v == q * w + v % w;
    DivLess(v, m, w);
    MulMonotone(q + 1, m, w);
    Distribute(q, w);
    MultipleMod(q, w);
  }

  lemma MultipleMod(q: nat, w: nat)
    requires w > 0
    ensures (q * w) % w == 0
  {
    Distribute(q, w);
    IntervalDiv(q * w, q, w);
  }

  /** The cell id: the key's prefix, its last byte reduced to the cluster. */
  function PrefixCell(k: Key, len: nat, w: nat): (c: Key)
    requires ClusterWidth(w) && 0 < len <= |k|
    ensures |c| == len
  {
    k[..len - 1] + [Cluster(k[len - 1], w)]
  }

  predicate IsPrefixCell(c: Key, w: nat)
    requires w > 0
  {
    c != [] && c[|c| - 1] as nat % w == 0 && c[|c| - 1] as nat + (w - 1) < 256
  }

  /** Two bytes share a cluster exactly when one lies in the other's range. */
  lemma SameCluster(x: byte, y: byte, w: nat)
    requires ClusterWidth(w) && y as nat % w == 0 && y as nat + (w - 1) < 256
    ensures Cluster(x, w) == y <==> y as nat <= x as nat <= y as nat + (w - 1)
  {
    var v, u := x as nat, y as nat;
    if u <= v <= u + (w - 1) {
      FloorIs(v, u, w);
    }
  }

  lemma FloorIs(v: nat, u: nat, w: nat)
    requires w > 0 && u % w == 0 && u <= v < u + w
    ensures v - v % w == u
  {
    var q := u / w;
    assert u == q * w;
    Distribute(q, w);
    IntervalDiv(v, q, w);
    assert v == (v / w) * w + v % w;
  }

  lemma ClusterMonotone(x: byte, y: byte, w: nat)
    requires ClusterWidth(w) && x <= y
    ensures Cluster(x, w) <= Cluster(y, w)
  {
    var v, u := x as nat, y as nat;
    DivMonotone(v, u, w);
    MulMonotone(v / w, u / w, w);
    assert v == (v / w) * w + v % w && u == (u / w) * w + u % w;
  }

  lemma OneByte(x: byte, y: byte)
    ensures Less([x], [y]) <==> x < y
  {
    assert [x][1..] == [] == [y][1..];
  }

  lemma PrefixMonotone(a: Key, b: Key, len: nat, w: nat)
    requires ClusterWidth(w) && 0 < len <= |a| && len <= |b| && Leq(a, b)
    ensures Leq(PrefixCell(a, len, w), PrefixCell(b, len, w))
  {
    var h, g, x, y := a[..len - 1], b[..len - 1], a[len - 1], b[len - 1];
    assert a == h + ([x] + a[len..]) && b == g + ([y] + b[len..]);
    LeqSplit(h, g, [x] + a[len..], [y] + b[len..]);
    LeqSplit([x], [y], a[len..], b[len..]);
    OneByte(x, y);
    if h == g {
      LessIrreflexive(h);
      ClusterMonotone(x, y, w);
    }
    OneByte(Cluster(x, w), Cluster(y, w));
    LeqSplit(h, g, [Cluster(x, w)], [Cluster(y, w)]);
  }

  function PrefixFirst(c: Key, len: nat): Key
    requires |c| <= len
  {
    c + Fill(0, len - |c|)
  }

  function PrefixLast(c: Key, w: nat, len: nat): Key
    requires w > 0 && IsPrefixCell(c, w) && |c| <= len
  {
    c[..|c| - 1] + [(c[|c| - 1] as nat + (w - 1)) as byte] + Fill(255, len - |c|)
  }

  lemma LowSide(h: Key, g: Key, x: byte, y: byte, t: Key)
    requires |h| == |g|
    ensures Leq(g + ([y] + Fill(0, |t|)), h + ([x] + t)) <==> Less(g, h) || (g == h && y <= x)
  {
    LeqSplit(g, h, [y] + Fill(0, |t|), [x] + t);
    LeqSplit([y], [x], Fill(0, |t|), t);
    FillBounds(t);
    OneByte(y, x);
  }

  lemma HighSide(h: Key, g: Key, x: byte, z: byte, t: Key)
    requires |h| == |g|
    ensures Leq(h + ([x] + t), g + ([z] + Fill(255, |t|))) <==> Less(h, g) || (h == g && x <= z)
  {
    LeqSplit(h, g, [x] + t, [z] + Fill(255, |t|));
    LeqSplit([x], [z], t, Fill(255, |t|));
    FillBounds(t);
    OneByte(x, z);
  }

  lemma NotBoth(g: Key, h: Key)
    ensures !(Less(g, h) && Less(h, g)) && !Less(g, g)
  {
    LessIrreflexive(g);
    if Less(g, h) && Less(h, g) {
      LessTransitive(g, h, g);
    }
  }

  /** The keys of a prefix cell are exactly those between its first and last key. */
  lemma PrefixRange(k: Key, c: Key, len: nat, w: nat)
    requires ClusterWidth(w) && IsPrefixCell(c, w) && |c| <= len == |k|
    ensures PrefixCell(k, |c|, w) == c <==> Leq(PrefixFirst(c, len), k) && Leq(k, PrefixLast(c, w, len))
  {
    var n := |c| - 1;
    var h, g, x, y, t := k[..n], c[..n], k[n], c[n], k[n + 1..];
    var z := (y as nat + (w - 1)) as byte;
    assert k == h + ([x] + t) && c == g + [y];
    assert PrefixFirst(c, len) == g + ([y] + Fill(0, |t|));
    assert PrefixLast(c, w, len) == g + ([z] + Fill(255, |t|));
    LowSide(h, g, x, y, t);
    HighSide(h, g, x, z, t);
    NotBoth(g, h);
    SameCluster(x, y, w);
    CellParts(k, c, n, w);
  }

  lemma CellParts(k: Key, c: Key, n: nat, w: nat)
    requires ClusterWidth(w) && |c| == n + 1 <= |k|
    ensures PrefixCell(k, n + 1, w) == c <==> k[..n] == c[..n] && Cluster(k[n], w) == c[n]
  {
    assert c == c[..n] + [c[n]];
  }

  /** Where the 32-bit index prefix starts: a shared last prefix byte is dropped, a clustered one is kept. */
  function Discarded(len: nat, w: nat): nat
    requires len > 0
  {
    if w == 1 then len else len - 1
  }

  /** A key's index prefix lies in the range of its cell. */
  lemma PrefixIndexRange(k: Key, len: nat, w: nat)
    requires ClusterWidth(w) && 0 < len <= |k|
    ensures var u := StartingU32(k[Discarded(len, w)..]);
            var y := PrefixCell(k, len, w)[len - 1] as nat;
            if w == 1 then u < U32_PLUS_ONE
            else y * 0x100_0000 <= u < (y + (w - 1)) * 0x100_0000 + 0x100_0000
  {
    PowFour();
    if w > 1 {
      var r := k[len - 1..];
      assert Pow(3) == 0x100_0000 by { assert Pow(2) == 256 * Pow(1) == 65536; }
      assert StartingU32(r) == r[0] as nat * Pow(3) + Starting(r[1..], 3);
    }
  }

  lemma PrefixApart(a: Key, b: Key, len: nat, w: nat)
    requires ClusterWidth(w) && 0 < len <= |a| && len <= |b| && Less(PrefixCell(a, len, w), PrefixCell(b, len, w))
    ensures Less(a, b)
  {
    LessTotal(a, b);
    if Leq(b, a) {
      PrefixMonotone(b, a, len, w);
      LessIrreflexive(PrefixCell(a, len, w));
      if PrefixCell(b, len, w) != PrefixCell(a, len, w) {
        LessTransitive(PrefixCell(a, len, w), PrefixCell(b, len, w), PrefixCell(a, len, w));
      }
    }
  }
}
