/** The WAL entry codec, cell ids inside it, and the checksummed frame around it. */
module Codec {
  import opened Bytes
  import opened Geometry

  const U16_MAX: nat := 0xFFFF
  const U32_MAX: nat := 0xFFFF_FFFF

  lemma Powers()
    ensures Pow(2) == 0x1_0000 && Pow(4) == 0x1_0000_0000 && Pow(8) == 0x1_0000_0000_0000_0000
  {
    assert Pow(1) == 256 && Pow(2) == 0x1_0000 && Pow(3) == 0x100_0000 && Pow(4) == 0x1_0000_0000;
    assert Pow(5) == 256 * Pow(4) && Pow(6) == 256 * Pow(5) && Pow(7) == 256 * Pow(6) && Pow(8) == 256 * Pow(7);
  }

  /** A byte string as a big-endian number. */
  function Number(b: seq<byte>): nat {
    Starting(b, |b|)
  }

  /** Big-endian integers of 2, 4 and 8 bytes; a wider value is truncated as a cast would. */
  function U16(x: nat): (b: seq<byte>)
    ensures |b| == 2 && Number(b) == x % 0x1_0000
  {
    Powers();
    BigEndian(x % 0x1_0000, 2)
  }

  function U32(x: nat): (b: seq<byte>)
    ensures |b| == 4 && Number(b) == x % 0x1_0000_0000
  {
    Powers();
    BigEndian(x % 0x1_0000_0000, 4)
  }

  lemma U32Exact(x: nat)
    requires x <= U32_MAX
    ensures Number(U32(x)) == x
  {
  }

  function U64(x: nat): (b: seq<byte>)
    ensures |b| == 8 && Number(b) == x % 0x1_0000_0000_0000_0000
  {
    Powers();
    BigEndian(x % 0x1_0000_0000_0000_0000, 8)
  }

  /** `get_u16`, `get_u32`, `get_u64`: the number at the front of a buffer. */
  function Get(b: seq<byte>, n: nat): Option<nat> {
    if |b| < n then None else Some(Number(b[..n]))
  }

  lemma GetFront(p: seq<byte>, r: seq<byte>, n: nat)
    requires |p| == n
    ensures Get(p + r, n) == Some(Number(p))
  {
    assert (p + r)[..n] == p;
  }

  // ---- cell ids ----

  datatype CellId = Integer(n: nat) | Bytes(bytes: seq<byte>)

  /** A 64-bit number, or bytes the writer's length assertion admits. */
  predicate CellOk(c: CellId) {
    match c
    case Integer(n) => n < 0x1_0000_0000_0000_0000
    case Bytes(b) => |b| <= U16_MAX
  }

  function EncodeCell(c: CellId): seq<byte> {
    match c
    case Integer(n) => [0] + U64(n)
    case Bytes(b) => [1] + U16(|b|) + b
  }

  /** The cell id at the front of a buffer and how far the cursor moves; `None` where the reader panics. */
  function DecodeCell(b: seq<byte>): (r: Option<(CellId, nat)>)
    ensures r.Some? ==> r.value.1 <= |b|
  {
    if b == [] then None
    else if b[0] == 0 then
      var n := Get(b[1..], 8);
      if n.Some? then Some((Integer(n.value), 9)) else None
    else if b[0] == 1 then
      var n := Get(b[1..], 2);
      if n.Some? && 3 + n.value <= |b| then Some((Bytes(b[3..3 + n.value]), 3 + n.value)) else None
    else None
  }

  lemma IntegerCell(n: nat, u: seq<byte>, rest: seq<byte>)
    requires |u| == 8 && Number(u) == n
    ensures DecodeCell([0] + u + rest) == Some((Integer(n), 9))
  {
    assert ([0] + u + rest)[1..] == u + rest;
    GetFront(u, rest, 8);
  }

  lemma BytesCell(b: seq<byte>, u: seq<byte>, rest: seq<byte>)
    requires |u| == 2 && Number(u) == |b|
    ensures DecodeCell([1] + u + b + rest) == Some((Bytes(b), 3 + |b|))
  {
    var e := [1] + u + b + rest;
    assert e[1..] == u + (b + rest);
    GetFront(u, b + rest, 2);
    assert e[3..3 + |b|] == b;
  }

  /** A cell id reads back from any position, leaving the cursor right behind it. */
  lemma CellRoundTrip(c: CellId, rest: seq<byte>)
    requires CellOk(c)
    ensures DecodeCell(EncodeCell(c) + rest) == Some((c, |EncodeCell(c)|))
  {
    match c
    case Integer(n) => IntegerCell(n, U64(n), rest);
    case Bytes(b) => BytesCell(b, U16(|b|), rest);
  }

  // ---- WAL entries ----

  datatype WalEntry =
    | Record(ks: byte, key: Key, value: seq<byte>, relocated: bool)
    | Index(ks: byte, index: seq<byte>)
    | Remove(ks: byte, key: Key)
    | BatchStart(size: nat)
    | DropCells(ks: byte, from: CellId, to: CellId)
    | CompressedBatch(uncompressedLen: nat, body: seq<byte>)

  predicate EntryOk(e: WalEntry) {
    match e
    case BatchStart(n) => n <= U32_MAX
    case CompressedBatch(n, _) => n <= U32_MAX
    case DropCells(_, from, to) => CellOk(from) && CellOk(to)
    case _ => true
  }

  function Len(e: WalEntry): nat {
    match e
    case Record(_, k, v, _) => 4 + |k| + |v|
    case Index(_, i) => 2 + |i|
    case Remove(_, k) => 2 + |k|
    case BatchStart(_) => 5
    case DropCells(_, from, to) => 2 + |EncodeCell(from)| + |EncodeCell(to)|
    case CompressedBatch(_, body) => 6 + |body|
  }

  function Encode(e: WalEntry): (b: seq<byte>)
    ensures |b| == Len(e)
  {
    match e
    case Record(ks, k, v, relocated) => [if relocated then 5 else 1, ks] + U16(|k|) + k + v
    case Index(ks, i) => [2, ks] + i
    case Remove(ks, k) => [3, ks] + k
    case BatchStart(n) => [4] + U32(n)
    case DropCells(ks, from, to) => [6, ks] + EncodeCell(from) + EncodeCell(to)
    case CompressedBatch(n, body) => [7, 1] + U32(n) + body
  }

  /** `None` stands for the panic on a malformed or truncated entry. */
  function Decode(b: seq<byte>): Option<WalEntry> {
    if |b| < 2 then None
    else if b[0] == 1 || b[0] == 5 then
      var n := Get(b[2..], 2);
      if n.Some? && 4 + n.value <= |b| then
        Some(Record(b[1], b[4..4 + n.value], b[4 + n.value..], b[0] == 5))
      else None
    else if b[0] == 2 then Some(Index(b[1], b[2..]))
    else if b[0] == 3 then Some(Remove(b[1], b[2..]))
    else if b[0] == 4 then
      var n := Get(b[1..], 4);
      if n.Some? then Some(BatchStart(n.value)) else None
    else if b[0] == 6 then
      var from := DecodeCell(b[2..]);
      if from.None? then None
      else
        var to := DecodeCell(b[2 + from.value.1..]);
        if to.None? then None else Some(DropCells(b[1], from.value.0, to.value.0))
    else if b[0] == 7 then
      var n := Get(b[2..], 4);
      if n.Some? && b[1] == 1 then Some(CompressedBatch(n.value, b[6..])) else None
    else None
  }

  lemma RecordRoundTrip(ks: byte, k: Key, v: seq<byte>, relocated: bool)
    ensures Decode(Encode(Record(ks, k, v, relocated))) == Some(Record(ks, k, v, relocated)) <==> |k| <= U16_MAX
  {
    var e := Encode(Record(ks, k, v, relocated));
    assert e[2..] == U16(|k|) + (k + v);
    GetFront(U16(|k|), k + v, 2);
    var n := |k| % 0x1_0000;
    if |k| <= U16_MAX {
      assert e[4..4 + |k|] == k && e[4 + |k|..] == v;
    } else {
      assert |e[4..4 + n]| == n;
    }
  }

  /** Two consecutive cell ids. */
  lemma TwoCells(ks: byte, a: seq<byte>, b: seq<byte>, from: CellId, to: CellId)
    requires DecodeCell(a + b) == Some((from, |a|)) && DecodeCell(b) == Some((to, |b|))
    ensures Decode([6, ks] + a + b) == Some(DropCells(ks, from, to))
  {
    var e := [6, ks] + a + b;
    assert e[2..] == a + b && e[2 + |a|..] == b;
  }

  lemma DropCellsRoundTrip(ks: byte, from: CellId, to: CellId)
    requires CellOk(from) && CellOk(to)
    ensures Decode(Encode(DropCells(ks, from, to))) == Some(DropCells(ks, from, to))
  {
    var a, b := EncodeCell(from), EncodeCell(to);
    CellRoundTrip(from, b);
    CellRoundTrip(to, []);
    assert b + [] == b;
    TwoCells(ks, a, b, from, to);
  }

  lemma BatchStartRoundTrip(n: nat, u: seq<byte>)
    requires |u| == 4 && Number(u) == n
    ensures Decode([4] + u) == Some(BatchStart(n))
  {
    assert ([4] + u)[1..] == u + [];
    GetFront(u, [], 4);
  }

  lemma CompressedRoundTrip(n: nat, u: seq<byte>, body: seq<byte>)
    requires |u| == 4 && Number(u) == n
    ensures Decode([7, 1] + u + body) == Some(CompressedBatch(n, body))
  {
    var b := [7, 1] + u + body;
    assert b[2..] == u + body && b[6..] == body;
    GetFront(u, body, 4);
  }

  /** Every entry decodes to itself, except a record whose key length does not fit its two-byte field. */
  lemma RoundTrip(e: WalEntry)
    requires EntryOk(e)
    ensures Decode(Encode(e)) == Some(e) <==> (e.Record? ==> |e.key| <= U16_MAX)
  {
    match e
    case Record(ks, k, v, r) => RecordRoundTrip(ks, k, v, r);
    case DropCells(ks, from, to) => DropCellsRoundTrip(ks, from, to);
    case BatchStart(n) => BatchStartRoundTrip(n, U32(n));
    case CompressedBatch(n, body) => CompressedRoundTrip(n, U32(n), body);
    case Index(ks, i) => assert Encode(e)[2..] == i;
    case Remove(ks, k) => assert Encode(e)[2..] == k;
  }

  /** A number has one byte string of each length. */
  lemma SameNumber(a: seq<byte>, b: seq<byte>)
    requires |a| == |b| && Number(a) == Number(b)
    ensures a == b
  {
    StartingExact(a, b, |a|);
  }

  lemma FieldsAre(u: seq<byte>, a: seq<byte>, c: seq<byte>)
    requires |u| == 2 && |a| == 4 && |c| == 8
    ensures U16(Number(u)) == u && U32(Number(a)) == a && U64(Number(c)) == c
  {
    Powers();
    SameNumber(U16(Number(u)), u);
    SameNumber(U32(Number(a)), a);
    SameNumber(U64(Number(c)), c);
  }

  /** The bytes on disk, kind by kind: tag, key space, big-endian length, then the variable parts in order. */
  lemma WireFormat(ks: byte, k: Key, v: seq<byte>, u: seq<byte>, a: seq<byte>, c: seq<byte>)
    requires |u| == 2 && Number(u) == |k| && |a| == 4 && |c| == 8
    ensures Encode(Record(ks, k, v, false)) == [1, ks] + u + k + v
    ensures Encode(Record(ks, k, v, true)) == [5, ks] + u + k + v
    ensures Encode(Index(ks, v)) == [2, ks] + v && Encode(Remove(ks, k)) == [3, ks] + k
    ensures Encode(BatchStart(Number(a))) == [4] + a
    ensures Encode(CompressedBatch(Number(a), v)) == [7, 1] + a + v
    ensures Encode(DropCells(ks, Bytes(k), Integer(Number(c)))) == [6, ks] + ([1] + u + k) + ([0] + c)
  {
    FieldsAre(u, a, c);
  }

  // ---- checksummed frames ----

  const HEADER: nat := 8

  /** The checksum of an empty payload is fixed; `hash` stands for CRC-32. */
  function Checksum(b: seq<byte>, hash: seq<byte> -> nat): (c: nat)
    ensures c <= U32_MAX
  {
    if b == [] then U32_MAX else hash(b) % 0x1_0000_0000
  }

  function Frame(p: seq<byte>, hash: seq<byte> -> nat): (b: seq<byte>)
    ensures |b| == HEADER + |p|
  {
    U32(|p|) + U32(Checksum(p, hash)) + p
  }

  /** Builds the buffer behind a zeroed header, then patches length and checksum into it. */
  method NewFrame(p: seq<byte>, hash: seq<byte> -> nat) returns (buf: array<byte>)
    ensures fresh(buf) && buf[..] == Frame(p, hash)
  {
    buf := new byte[HEADER + |p|](_ => 0);
    forall i | 0 <= i < |p| {
      buf[HEADER + i] := p[i];
    }
    var len, crc := U32(|p|), U32(Checksum(p, hash));
    forall i | 0 <= i < 4 {
      buf[i] := len[i];
    }
    forall i | 0 <= i < 4 {
      buf[4 + i] := crc[i];
    }
    assert forall i | 0 <= i < buf.Length :: buf[i] == Frame(p, hash)[i];
  }

  datatype ReadResult = Ok(len: nat) | OutOfBoundsHeader | SkipMarker | OutOfBoundsBody(len: nat) | CrcMismatch

  function CheckedRead(b: seq<byte>, pos: nat, hash: seq<byte> -> nat): (r: ReadResult)
    ensures r.Ok? ==> pos + HEADER + r.len <= |b|
  {
    if |b| < pos + HEADER then OutOfBoundsHeader
    else
      var len, crc := Number(b[pos..pos + 4]), Number(b[pos + 4..pos + HEADER]);
      if len == U32_MAX && crc == U32_MAX then SkipMarker
      else if |b| < pos + HEADER + len then OutOfBoundsBody(len)
      else if Checksum(b[pos + HEADER..pos + HEADER + len], hash) != crc then CrcMismatch
      else Ok(len)
  }

  /** The parts of a frame wherever it lies in a buffer. */
  lemma FrameParts(pre: seq<byte>, u: seq<byte>, c: seq<byte>, p: seq<byte>, suf: seq<byte>)
    requires |u| == 4 && |c| == 4
    ensures var b, n := pre + (u + c + p) + suf, |pre|;
            && b[n..n + 4] == u && b[n + 4..n + HEADER] == c && b[n + HEADER..n + HEADER + |p|] == p
  {
  }

  lemma PartsRead(b: seq<byte>, pos: nat, p: seq<byte>, u: seq<byte>, c: seq<byte>, hash: seq<byte> -> nat)
    requires pos + HEADER + |p| <= |b| && |p| < U32_MAX
    requires b[pos..pos + 4] == u && b[pos + 4..pos + HEADER] == c && b[pos + HEADER..pos + HEADER + |p|] == p
    requires Number(u) == |p| && Number(c) == Checksum(p, hash)
    ensures CheckedRead(b, pos, hash) == Ok(|p|)
  {
  }

  /** A frame reads back whole at any offset of any buffer. */
  lemma FrameSurvives(pre: seq<byte>, p: seq<byte>, suf: seq<byte>, hash: seq<byte> -> nat)
    requires |p| < U32_MAX
    ensures var b := pre + Frame(p, hash) + suf;
            && CheckedRead(b, |pre|, hash) == Ok(|p|)
            && b[|pre| + HEADER..|pre| + HEADER + |p|] == p
  {
    var u, c := U32(|p|), U32(Checksum(p, hash));
    U32Exact(|p|);
    U32Exact(Checksum(p, hash));
    FrameParts(pre, u, c, p, suf);
    PartsRead(pre + Frame(p, hash) + suf, |pre|, p, u, c, hash);
  }

  /** An entry written in a frame is read back as itself. */
  lemma EntrySurvives(pre: seq<byte>, e: WalEntry, suf: seq<byte>, hash: seq<byte> -> nat)
    requires EntryOk(e) && (e.Record? ==> |e.key| <= U16_MAX) && Len(e) < U32_MAX
    ensures var b := pre + Frame(Encode(e), hash) + suf;
            var r := CheckedRead(b, |pre|, hash);
            r.Ok? && Decode(b[|pre| + HEADER..|pre| + HEADER + r.len]) == Some(e)
  {
    FrameSurvives(pre, Encode(e), suf, hash);
    RoundTrip(e);
  }

  predicate Marked(b: seq<byte>, pos: nat) {
    pos + HEADER <= |b| && forall i | pos <= i < pos + HEADER :: b[i] == 255
  }

  lemma {:induction false} OnesNumber(u: seq<byte>)
    requires forall i | 0 <= i < |u| :: u[i] == 255
    ensures Number(u) == Pow(|u|) - 1
  {
    if u != [] {
      OnesNumber(u[1..]);
    }
  }

  /** Four bytes hold 32 bits, all of them ones at the top. */
  lemma FourBytes(u: seq<byte>)
    requires |u| == 4
    ensures Number(u) <= U32_MAX && (Number(u) == U32_MAX <==> forall i | 0 <= i < 4 :: u[i] == 255)
  {
    var ones: seq<byte> := seq(|u|, _ => 255);
    Powers();
    OnesNumber(ones);
    if forall i | 0 <= i < 4 :: u[i] == 255 {
      assert u == ones;
    } else if Number(u) == U32_MAX {
      SameNumber(u, ones);
    }
  }

  /** A skip marker is a header of ones and nothing else. */
  lemma MarkerRead(b: seq<byte>, pos: nat, hash: seq<byte> -> nat)
    ensures CheckedRead(b, pos, hash) == SkipMarker <==> Marked(b, pos)
  {
    if pos + HEADER <= |b| {
      var u, c := b[pos..pos + 4], b[pos + 4..pos + HEADER];
      FourBytes(u);
      FourBytes(c);
      if Marked(b, pos) {
        assert forall i | 0 <= i < 4 :: u[i] == b[pos + i] && c[i] == b[pos + 4 + i];
      } else if (forall i | 0 <= i < 4 :: u[i] == 255) && forall i | 0 <= i < 4 :: c[i] == 255 {
        forall i | pos <= i < pos + HEADER ensures b[i] == 255 {
          assert b[i] == if i < pos + 4 then u[i - pos] else c[i - pos - 4];
        }
      }
    }
  }

  lemma HeaderSlices(b: seq<byte>, pos: nat, n: nat)
    requires pos + HEADER + n <= |b|
    ensures var f := b[pos..pos + HEADER + n];
            && f[..4] == b[pos..pos + 4] && f[4..HEADER] == b[pos + 4..pos + HEADER]
            && f[HEADER..] == b[pos + HEADER..pos + HEADER + n]
  {
    var f := b[pos..pos + HEADER + n];
    assert forall i | 0 <= i < 4 :: f[4..HEADER][i] == f[4 + i] == b[pos + 4..pos + HEADER][i];
  }

  /** Length, checksum and payload determine a frame. */
  lemma HeaderIs(f: seq<byte>, p: seq<byte>, hash: seq<byte> -> nat)
    requires |f| == HEADER + |p| && f[HEADER..] == p && |p| <= U32_MAX
    ensures f == Frame(p, hash) <==> Number(f[..4]) == |p| && Number(f[4..HEADER]) == Checksum(p, hash)
  {
    var u, c := U32(|p|), U32(Checksum(p, hash));
    U32Exact(|p|);
    U32Exact(Checksum(p, hash));
    assert f == f[..4] + f[4..HEADER] + p;
    if f == u + c + p {
      assert f[..4] == u && f[4..HEADER] == c;
    } else if Number(f[..4]) == |p| && Number(f[4..HEADER]) == Checksum(p, hash) {
      SameNumber(f[..4], u);
      SameNumber(f[4..HEADER], c);
    }
  }

  /** What reads as a frame is one: the bytes at the position are the frame of the payload behind them. */
  lemma ReadIsFrame(b: seq<byte>, pos: nat, n: nat, hash: seq<byte> -> nat)
    ensures CheckedRead(b, pos, hash) == Ok(n)
       <==> && n <= U32_MAX && pos + HEADER + n <= |b| && !Marked(b, pos)
            && b[pos..pos + HEADER + n] == Frame(b[pos + HEADER..pos + HEADER + n], hash)
  {
    MarkerRead(b, pos, hash);
    if pos + HEADER <= |b| {
      FourBytes(b[pos..pos + 4]);
      if n <= U32_MAX && pos + HEADER + n <= |b| {
        HeaderSlices(b, pos, n);
        HeaderIs(b[pos..pos + HEADER + n], b[pos + HEADER..pos + HEADER + n], hash);
      }
    }
  }

  /** Unwritten space never reads as a frame. */
  lemma ZeroesStop(b: seq<byte>, pos: nat, hash: seq<byte> -> nat)
    requires pos + HEADER <= |b| && forall i | pos <= i < pos + HEADER :: b[i] == 0
    ensures CheckedRead(b, pos, hash) == CrcMismatch
  {
    var u, c := b[pos..pos + 4], b[pos + 4..pos + HEADER];
    ZeroNumber(u);
    ZeroNumber(c);
    assert b[pos + HEADER..pos + HEADER + 0] == [];
  }

  lemma {:induction false} ZeroNumber(u: seq<byte>)
    requires forall i | 0 <= i < |u| :: u[i] == 0
    ensures Number(u) == 0
  {
    if u != [] {
      ZeroNumber(u[1..]);
    }
  }
}
