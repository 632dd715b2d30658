/** The payload of a redo record: a version byte, then page operations, integers in ULEB128. */
module LogCodec {
  import opened Endian

  const CODEC_VERSION: Byte := 1
  const UPDATE_BYTES: Byte := 0x01
  const FILL_BYTES: Byte := 0x02
  const MEMMOVE_BYTES: Byte := 0x03
  const SET_U64_LE: Byte := 0x04

  const U32: nat := 0x1_0000_0000
  const U64: nat := 0x1_0000_0000_0000_0000

  datatype Op =
    | Update(offset: nat, bytes: Bytes)
    | Fill(offset: nat, len: nat, value: Byte)
    | Move(dst: nat, src: nat, len: nat)
    | SetU64(offset: nat, u64: nat)

  /** What the encoder's parameter types admit. */
  predicate Encodable(op: Op) {
    match op
    case Update(off, bytes) => off < U32 && |bytes| < U32
    case Fill(off, len, _) => off < U32 && len < U32
    case Move(dst, src, len) => dst < U32 && src < U32 && len < U32
    case SetU64(off, v) => off < U32 && v < U64
  }

  /* ---- ULEB128 ---- */

  /** PutUVar: seven bits at a time, lowest first, the top bit set on every byte but the last. */
  function PutUVar(v: nat): (b: Bytes)
    ensures |b| > 0
  {
    if v < 0x80 then [v] else [v % 0x80 + 0x80] + PutUVar(v / 0x80)
  }

  datatype Scan<T> = Got(value: T, off: nat) | Bad

  /** Septets from off on: the value before it is cut to 64 bits. At most ten bytes are read. */
  function Septets(buf: Bytes, off: nat, n: nat): (r: Scan<nat>)
    ensures r.Got? ==> off < r.off <= |buf|
    decreases 10 - n
  {
    if off >= |buf| || n >= 10 then Bad
    else if buf[off] < 0x80 then Got(buf[off], off + 1)
    else
      var r := Septets(buf, off + 1, n + 1);
      if r.Got? then Got(buf[off] - 0x80 + 0x80 * r.value, r.off) else Bad
  }

  function GetUVar(buf: Bytes, off: nat): (r: Scan<nat>)
    ensures r.Got? ==> off < r.off <= |buf|
  {
    var r := Septets(buf, off, 0);
    if r.Got? then Got(r.value % U64, r.off) else Bad
  }

  function Pow128(n: nat): nat { if n == 0 then 1 else 0x80 * Pow128(n - 1) }

  lemma {:induction false} SeptetsRoundTrip(v: nat, a: Bytes, c: Bytes, n: nat)
    requires n < 10 && v < Pow128(10 - n)
    ensures Septets(a + PutUVar(v) + c, |a|, n) == Got(v, |a| + |PutUVar(v)|)
    decreases v
  {
    var buf := a + PutUVar(v) + c;
    assert buf[|a|] == PutUVar(v)[0];
    if v >= 0x80 {
      var a' := a + [PutUVar(v)[0]];
      SeptetsRoundTrip(v / 0x80, a', c, n + 1);
      assert buf == a' + PutUVar(v / 0x80) + c;
    }
  }

  /** A 64-bit integer comes back, and the cursor stops right after it. */
  lemma UVarRoundTrip(v: nat, a: Bytes, c: Bytes)
    requires v < U64
    ensures GetUVar(a + PutUVar(v) + c, |a|) == Got(v, |a| + |PutUVar(v)|)
  {
    assert Pow128(10) >= U64 by {
      assert Pow128(2) == 0x4000 && Pow128(4) == 0x1000_0000 && Pow128(6) == 0x400_0000_0000;
      assert Pow128(8) == 0x100_0000_0000_0000;
    }
    SeptetsRoundTrip(v, a, c, 0);
  }

  /** Reading from off on, with v read before it, gives what reading from start on gives. */
  predicate ReadsOn(buf: Bytes, start: nat, off: nat, n: nat, v: nat, unit: nat) {
    var r := Septets(buf, off, n);
    Septets(buf, start, 0) == if r.Got? then Got(v + unit * r.value, r.off) else Bad
  }

  /** GetUVar as the code runs it: one loop with a growing shift and a 64-bit accumulator. */
  method ReadUVar(buf: Bytes, start: nat) returns (r: Scan<nat>)
    ensures r == GetUVar(buf, start)
  {
    hide ReadsOn, Septets;
    var v: nat, unit: nat, off: nat, n: nat := 0, 1, start, 0;
    ReadsAll(buf, start);
    while off < |buf|
      invariant n <= 9 && start <= off && unit > 0 && ReadsOn(buf, start, off, n, v, unit)
      decreases |buf| - off
    {
      var b := buf[off];
      if b < 0x80 {
        LastSeptet(buf, start, off, n, v, unit);
        return Got((v + unit * b) % U64, off + 1);
      }
      NextSeptet(buf, start, off, n, v, unit);
      v := v + unit * (b - 0x80);
      unit := unit * 0x80;
      off, n := off + 1, n + 1;
      if n >= 10 {
        NoSeptet(buf, start, off, n, v, unit);
        return Bad;
      }
    }
    NoSeptet(buf, start, off, n, v, unit);
    r := Bad;
  }

  lemma ReadsAll(buf: Bytes, start: nat)
    ensures ReadsOn(buf, start, start, 0, 0, 1)
  {
  }

  lemma NoSeptet(buf: Bytes, start: nat, off: nat, n: nat, v: nat, unit: nat)
    requires ReadsOn(buf, start, off, n, v, unit) && (off >= |buf| || n >= 10)
    ensures Septets(buf, start, 0) == Bad
  {
  }

  lemma LastSeptet(buf: Bytes, start: nat, off: nat, n: nat, v: nat, unit: nat)
    requires ReadsOn(buf, start, off, n, v, unit) && n < 10 && off < |buf| && buf[off] < 0x80
    ensures Septets(buf, start, 0) == Got(v + unit * buf[off], off + 1)
  {
  }

  lemma NextSeptet(buf: Bytes, start: nat, off: nat, n: nat, v: nat, unit: nat)
    requires ReadsOn(buf, start, off, n, v, unit) && n < 10 && off < |buf| && buf[off] >= 0x80
    ensures ReadsOn(buf, start, off + 1, n + 1, v + unit * (buf[off] - 0x80), unit * 0x80)
  {
    var r := Septets(buf, off + 1, n + 1);
    if r.Got? { Distribute(unit, buf[off] - 0x80, r.value); }
  }

  lemma Distribute(unit: nat, x: nat, y: nat)
    ensures unit * (x + 0x80 * y) == unit * x + unit * 0x80 * y
  {
    assert unit * (0x80 * y) == unit * 0x80 * y;
  }

  /* ---- Operations ---- */

  /** The opcode and the first two integers, which every operation starts with. */
  function Prefix(code: Byte, u: nat, v: nat): (b: Bytes)
    ensures |b| > 0
  {
    [code] + PutUVar(u) + PutUVar(v)
  }

  function EncodeOp(op: Op): (b: Bytes)
    ensures |b| > 0
  {
    match op
    case Update(off, bytes) => Prefix(UPDATE_BYTES, off, |bytes|) + bytes
    case Fill(off, len, v) => Prefix(FILL_BYTES, off, len) + [v]
    case Move(dst, src, len) => Prefix(MEMMOVE_BYTES, dst, src) + PutUVar(len)
    case SetU64(off, v) => Prefix(SET_U64_LE, off, v)
  }

  function EncodeOps(ops: seq<Op>): Bytes {
    if ops == [] then [] else EncodeOp(ops[0]) + EncodeOps(ops[1..])
  }

  /** Encoder: the version byte and one operation after the other. */
  function Encode(ops: seq<Op>): Bytes { [CODEC_VERSION] + EncodeOps(ops) }

  /** Decoder::Next. Offsets and lengths are cut to 32 bits. */
  function DecodeOp(buf: Bytes, off: nat): (r: Scan<Op>)
    requires off < |buf|
    ensures r.Got? ==> off < r.off <= |buf|
  {
    var code := buf[off];
    var x := GetUVar(buf, off + 1);
    if x.Bad? then Bad
    else
      var y := GetUVar(buf, x.off);
      if y.Bad? then Bad
      else if code == UPDATE_BYTES then
        var len := y.value % U32;
        if y.off + len > |buf| then Bad else Got(Update(x.value % U32, buf[y.off..y.off + len]), y.off + len)
      else if code == FILL_BYTES then
        if y.off >= |buf| then Bad else Got(Fill(x.value % U32, y.value % U32, buf[y.off]), y.off + 1)
      else if code == MEMMOVE_BYTES then
        var z := GetUVar(buf, y.off);
        if z.Bad? then Bad else Got(Move(x.value % U32, y.value % U32, z.value % U32), z.off)
      else if code == SET_U64_LE then Got(SetU64(x.value % U32, y.value), y.off)
      else Bad
  }

  /** What a decoder yields until the end of the payload or its first error, and whether it stays good. */
  datatype Decoded = Decoded(ops: seq<Op>, good: bool)

  function DecodeFrom(buf: Bytes, off: nat): Decoded
    decreases |buf| - off
  {
    if off >= |buf| then Decoded([], true)
    else
      var r := DecodeOp(buf, off);
      if r.Bad? then Decoded([], false)
      else
        var rest := DecodeFrom(buf, r.off);
        Decoded([r.value] + rest.ops, rest.good)
  }

  function Decode(buf: Bytes): Decoded {
    if buf == [] || buf[0] != CODEC_VERSION then Decoded([], false) else DecodeFrom(buf, 1)
  }

  lemma PrefixRoundTrip(code: Byte, u: nat, v: nat, a: Bytes, c: Bytes)
    requires u < U64 && v < U64
    ensures var buf := a + Prefix(code, u, v) + c;
            var o := |a| + 1 + |PutUVar(u)|;
            && buf[|a|] == code && GetUVar(buf, |a| + 1) == Got(u, o)
            && GetUVar(buf, o) == Got(v, |a| + |Prefix(code, u, v)|)
  {
    hide PutUVar, GetUVar;
    var a1, a2 := a + [code], a + [code] + PutUVar(u);
    assert a + Prefix(code, u, v) + c == a1 + PutUVar(u) + (PutUVar(v) + c) == a2 + PutUVar(v) + c;
    UVarRoundTrip(u, a1, PutUVar(v) + c);
    UVarRoundTrip(v, a2, c);
  }

  lemma UpdateRoundTrip(off: nat, bytes: Bytes, a: Bytes, c: Bytes)
    requires off < U32 && |bytes| < U32
    ensures var op := Update(off, bytes); DecodeOp(a + EncodeOp(op) + c, |a|) == Got(op, |a| + |EncodeOp(op)|)
  {
    hide PutUVar, GetUVar, Prefix;
    var p := Prefix(UPDATE_BYTES, off, |bytes|);
    PrefixRoundTrip(UPDATE_BYTES, off, |bytes|, a, bytes + c);
    var buf := a + p + (bytes + c);
    assert a + EncodeOp(Update(off, bytes)) + c == buf;
    assert buf[|a| + |p|..|a| + |p| + |bytes|] == bytes;
  }

  lemma FillRoundTrip(off: nat, len: nat, v: Byte, a: Bytes, c: Bytes)
    requires off < U32 && len < U32
    ensures var op := Fill(off, len, v); DecodeOp(a + EncodeOp(op) + c, |a|) == Got(op, |a| + |EncodeOp(op)|)
  {
    hide PutUVar, GetUVar, Prefix;
    var p := Prefix(FILL_BYTES, off, len);
    PrefixRoundTrip(FILL_BYTES, off, len, a, [v] + c);
    assert a + EncodeOp(Fill(off, len, v)) + c == a + p + ([v] + c);
  }

  lemma MoveRoundTrip(dst: nat, src: nat, len: nat, a: Bytes, c: Bytes)
    requires dst < U32 && src < U32 && len < U32
    ensures var op := Move(dst, src, len); DecodeOp(a + EncodeOp(op) + c, |a|) == Got(op, |a| + |EncodeOp(op)|)
  {
    hide PutUVar, GetUVar, Prefix;
    var p := Prefix(MEMMOVE_BYTES, dst, src);
    PrefixRoundTrip(MEMMOVE_BYTES, dst, src, a, PutUVar(len) + c);
    UVarRoundTrip(len, a + p, c);
    assert a + EncodeOp(Move(dst, src, len)) + c == a + p + (PutUVar(len) + c) == (a + p) + PutUVar(len) + c;
  }

  lemma OpRoundTrip(op: Op, a: Bytes, c: Bytes)
    requires Encodable(op)
    ensures DecodeOp(a + EncodeOp(op) + c, |a|) == Got(op, |a| + |EncodeOp(op)|)
  {
    hide PutUVar, GetUVar;
    match op
    case Update(off, bytes) => UpdateRoundTrip(off, bytes, a, c);
    case Fill(off, len, v) => FillRoundTrip(off, len, v, a, c);
    case Move(dst, src, len) => MoveRoundTrip(dst, src, len, a, c);
    case SetU64(off, v) => PrefixRoundTrip(SET_U64_LE, off, v, a, c);
  }

  lemma {:induction false} DecodeFromEncode(ops: seq<Op>, a: Bytes)
    requires forall i :: 0 <= i < |ops| ==> Encodable(ops[i])
    ensures DecodeFrom(a + EncodeOps(ops), |a|) == Decoded(ops, true)
    decreases |ops|
  {
    hide DecodeOp, EncodeOp;
    if ops != [] {
      var buf := a + EncodeOps(ops);
      var a' := a + EncodeOp(ops[0]);
      assert buf == a' + EncodeOps(ops[1..]) == a + EncodeOp(ops[0]) + EncodeOps(ops[1..]);
      OpRoundTrip(ops[0], a, EncodeOps(ops[1..]));
      DecodeFromEncode(ops[1..], a');
      assert ops == [ops[0]] + ops[1..];
    }
  }

  /** Decoding what was encoded gives every operation back, to the last byte. */
  lemma CodecRoundTrip(ops: seq<Op>)
    requires forall i :: 0 <= i < |ops| ==> Encodable(ops[i])
    ensures Decode(Encode(ops)) == Decoded(ops, true)
  {
    DecodeFromEncode(ops, [CODEC_VERSION]);
  }
}
