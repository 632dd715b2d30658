/** The payload of a redo record as bytes: what every buffer decodes to, and what every encoding looks like. */
module LogWire {
  import opened Endian
  import opened LogCodec

  /* ---- Integers ---- */

  /** The n bytes at off are one integer: the top bit is set on every byte but the last. */
  predicate IsGroup(buf: Bytes, off: nat, n: nat) {
    && 0 < n && off + n <= |buf| && buf[off + n - 1] < 128
    && forall i :: off <= i < off + n - 1 ==> buf[i] >= 128
  }

  /** The sum of (b[i] % 128) * 128^i. */
  function GroupSum(b: Bytes): nat {
    if b == [] then 0 else GroupSum(b[..|b| - 1]) + b[|b| - 1] % 128 * Pow128(|b| - 1)
  }

  /** Taking the sum from the front. */
  lemma {:induction false} GroupSumFront(b: Bytes)
    requires b != []
    ensures GroupSum(b) == b[0] % 128 + 128 * GroupSum(b[1..])
    decreases |b|
  {
    if |b| > 1 {
      var last := |b| - 1;
      GroupSumFront(b[..last]);
      assert b[..last][1..] == b[1..][..last - 1] && b[1..][last - 1] == b[last];
      assert b[last] % 128 * (128 * Pow128(last - 1)) == 128 * (b[last] % 128 * Pow128(last - 1));
    }
  }

  /** The septets of one integer, with m bytes read before them. */
  lemma {:induction false} SeptetsAre(buf: Bytes, off: nat, n: nat, m: nat)
    requires IsGroup(buf, off, n)
    ensures Septets(buf, off, m) == if m + n <= 10 then Got(GroupSum(buf[off..off + n]), off + n) else Bad
    decreases n
  {
    hide GroupSum, Septets;
    var b := buf[off..off + n];
    GroupSumFront(b);
    OneSeptet(buf, off, m);
    if n == 1 { NoGroup(b[1..]); }
    else {
      assert b[1..] == buf[off + 1..off + n];
      if m < 10 { SeptetsAre(buf, off + 1, n - 1, m + 1); }
    }
  }

  lemma OneSeptet(buf: Bytes, off: nat, m: nat)
    requires off < |buf|
    ensures m >= 10 ==> Septets(buf, off, m) == Bad
    ensures m < 10 && buf[off] < 128 ==> Septets(buf, off, m) == Got(buf[off], off + 1)
    ensures m < 10 && buf[off] >= 128 ==>
              var r := Septets(buf, off + 1, m + 1);
              Septets(buf, off, m) == if r.Got? then Got(buf[off] % 128 + 128 * r.value, r.off) else Bad
  {}

  lemma NoGroup(b: Bytes)
    requires b == []
    ensures GroupSum(b) == 0
  {}

  /** Whatever is read is one integer. */
  lemma {:induction false} SeptetsGroup(buf: Bytes, off: nat, m: nat)
    requires Septets(buf, off, m).Got?
    ensures var n := Septets(buf, off, m).off - off; IsGroup(buf, off, n) && m + n <= 10
    decreases 10 - m
  {
    if buf[off] >= 128 { SeptetsGroup(buf, off + 1, m + 1); }
  }

  /** An integer of at most ten bytes from off up to next. */
  predicate Operand(buf: Bytes, off: nat, v: nat, next: nat) {
    off < next <= off + 10 && IsGroup(buf, off, next - off) && v == GroupSum(buf[off..next])
  }

  /** GetUVar reads exactly the ULEB128 integers of at most ten bytes, and keeps their low 64 bits. */
  lemma OperandIsRead(buf: Bytes, off: nat, v: nat, next: nat)
    requires Operand(buf, off, v, next)
    ensures GetUVar(buf, off) == Got(v % 0x1_0000_0000_0000_0000, next)
  {
    hide Septets, GroupSum, IsGroup;
    SeptetsAre(buf, off, next - off, 0);
  }

  lemma ReadIsOperand(buf: Bytes, off: nat) returns (v: nat, next: nat)
    requires GetUVar(buf, off).Got?
    ensures Operand(buf, off, v, next) && GetUVar(buf, off) == Got(v % 0x1_0000_0000_0000_0000, next)
  {
    hide Septets, GroupSum;
    SeptetsGroup(buf, off, 0);
    next := GetUVar(buf, off).off;
    v := GroupSum(buf[off..next]);
    OperandIsRead(buf, off, v, next);
  }

  /** PutUVar writes one such integer, in as few bytes as it takes: the last byte is zero only by itself. */
  lemma {:induction false} PutFormat(v: nat)
    ensures var b := PutUVar(v); IsGroup(b, 0, |b|) && GroupSum(b) == v && (|b| > 1 ==> b[|b| - 1] != 0)
    decreases v
  {
    var b := PutUVar(v);
    GroupSumFront(b);
    hide GroupSum;
    if v < 128 { NoGroup(b[1..]); }
    else {
      PutFormat(v / 128);
      assert b[1..] == PutUVar(v / 128);
      assert forall i :: 1 <= i < |b| ==> b[i] == b[1..][i - 1];
    }
  }

  /* ---- Operations ---- */

  /** Operation op from off up to end: an opcode, the integers u up to i and v up to j, and a third, w, or bytes. */
  predicate Laid(buf: Bytes, off: nat, op: Op, end: nat, u: nat, i: nat, v: nat, j: nat, w: nat) {
    && off < |buf| && Operand(buf, off + 1, u, i) && Operand(buf, i, v, j)
    && match op
       case Update(at, bytes) =>
         && buf[off] == 0x01 && at == u % 0x1_0000_0000 && |bytes| == v % 0x1_0000_0000
         && end == j + |bytes| <= |buf| && bytes == buf[j..end]
       case Fill(at, len, x) =>
         && buf[off] == 0x02 && at == u % 0x1_0000_0000 && len == v % 0x1_0000_0000
         && j < |buf| && x == buf[j] && end == j + 1
       case Move(dst, src, len) =>
         && buf[off] == 0x03 && dst == u % 0x1_0000_0000 && src == v % 0x1_0000_0000
         && Operand(buf, j, w, end) && len == w % 0x1_0000_0000
       case SetU64(at, x) =>
         buf[off] == 0x04 && at == u % 0x1_0000_0000 && x == v % 0x1_0000_0000_0000_0000 && end == j
  }

  ghost predicate Wire(buf: Bytes, off: nat, op: Op, end: nat) {
    exists u, i, v, j, w :: Laid(buf, off, op, end, u, i, v, j, w)
  }

  lemma LowBits(v: nat)
    ensures v % 0x1_0000_0000_0000_0000 % 0x1_0000_0000 == v % 0x1_0000_0000
  {
    var q, r := v / 0x1_0000_0000_0000_0000, v % 0x1_0000_0000_0000_0000;
    assert v == 0x1_0000_0000 * (0x1_0000_0000 * q + r / 0x1_0000_0000) + r % 0x1_0000_0000;
  }

  lemma WireDecodes(buf: Bytes, off: nat, op: Op, end: nat)
    requires Wire(buf, off, op, end)
    ensures off < |buf| && DecodeOp(buf, off) == Got(op, end)
  {
    hide Operand, GetUVar;
    var u, i, v, j, w :| Laid(buf, off, op, end, u, i, v, j, w);
    OperandIsRead(buf, off + 1, u, i);
    OperandIsRead(buf, i, v, j);
    LowBits(u);
    LowBits(v);
    LowBits(w);
    if op.Move? { OperandIsRead(buf, j, w, end); }
  }

  lemma DecodedIsWire(buf: Bytes, off: nat)
    requires off < |buf| && DecodeOp(buf, off).Got?
    ensures Wire(buf, off, DecodeOp(buf, off).value, DecodeOp(buf, off).off)
  {
    hide Operand, GetUVar;
    var r := DecodeOp(buf, off);
    var u, i := ReadIsOperand(buf, off + 1);
    var v, j := ReadIsOperand(buf, i);
    var w, end := 0, 0;
    if r.value.Move? { w, end := ReadIsOperand(buf, j); }
    LowBits(u);
    LowBits(v);
    LowBits(w);
    assert Laid(buf, off, r.value, r.off, u, i, v, j, w);
  }

  /** The decoder yields an operation exactly where it stands on the wire. */
  lemma DecodeFormat(buf: Bytes, off: nat, op: Op, end: nat)
    requires off < |buf|
    ensures DecodeOp(buf, off) == Got(op, end) <==> Wire(buf, off, op, end)
  {
    hide Wire, DecodeOp;
    if Wire(buf, off, op, end) { WireDecodes(buf, off, op, end); }
    if DecodeOp(buf, off).Got? { DecodedIsWire(buf, off); }
  }

  /* ---- Payloads ---- */

  /** The operations stand one after the other from off up to end. */
  ghost predicate Wires(buf: Bytes, off: nat, ops: seq<Op>, end: nat)
    decreases |ops|
  {
    if ops == [] then off == end else exists next :: Wire(buf, off, ops[0], next) && Wires(buf, next, ops[1..], end)
  }

  /** No operation stands at off. */
  ghost predicate NoWire(buf: Bytes, off: nat) {
    forall op, end :: !Wire(buf, off, op, end)
  }

  lemma {:induction false} DecodesFrom(buf: Bytes, off: nat) returns (end: nat)
    requires off <= |buf|
    ensures var d := DecodeFrom(buf, off);
            Wires(buf, off, d.ops, end) && end <= |buf| && (d.good <==> end == |buf|) && (!d.good ==> NoWire(buf, end))
    decreases |buf| - off
  {
    hide DecodeOp, Wire;
    end := off;
    if off < |buf| {
      var r := DecodeOp(buf, off);
      if r.Bad? {
        forall op, e ensures !Wire(buf, off, op, e) { DecodeFormat(buf, off, op, e); }
      } else {
        DecodeFormat(buf, off, r.value, r.off);
        end := DecodesFrom(buf, r.off);
        var d := DecodeFrom(buf, off);
        assert d.ops[0] == r.value && d.ops[1..] == DecodeFrom(buf, r.off).ops;
      }
    }
  }

  lemma {:induction false} WiresDecode(buf: Bytes, off: nat, ops: seq<Op>, end: nat)
    requires Wires(buf, off, ops, end) && off <= |buf| && end <= |buf| && (end < |buf| ==> NoWire(buf, end))
    ensures DecodeFrom(buf, off) == Decoded(ops, end == |buf|)
    decreases |ops|
  {
    hide DecodeOp, Wire;
    if ops == [] {
      if off < |buf| && DecodeOp(buf, off).Got? {
        DecodedIsWire(buf, off);
        assert false;
      }
    } else {
      var next :| Wire(buf, off, ops[0], next) && Wires(buf, next, ops[1..], end);
      WireDecodes(buf, off, ops[0], next);
      WiresDecode(buf, next, ops[1..], end);
      assert ops == [ops[0]] + ops[1..];
    }
  }

  /** What a payload says: the version byte 1, then operations up to the end, or up to the first place where none
      stands. */
  ghost predicate Says(payload: Bytes, ops: seq<Op>, good: bool) {
    if payload == [] || payload[0] != 1 then ops == [] && !good
    else exists end :: Wires(payload, 1, ops, end) && Stops(payload, end, good)
  }

  ghost predicate Stops(payload: Bytes, end: nat, good: bool) {
    end <= |payload| && (good <==> end == |payload|) && (!good ==> NoWire(payload, end))
  }

  /** Every payload says one thing, and the decoder yields just that. */
  lemma PayloadFormat(payload: Bytes, ops: seq<Op>, good: bool)
    ensures Decode(payload) == Decoded(ops, good) <==> Says(payload, ops, good)
  {
    hide DecodeFrom, Wires, NoWire;
    if payload != [] && payload[0] == 1 {
      if Decode(payload) == Decoded(ops, good) {
        var end := DecodesFrom(payload, 1);
        assert Stops(payload, end, good);
      }
      if Says(payload, ops, good) {
        var end :| Wires(payload, 1, ops, end) && Stops(payload, end, good);
        WiresDecode(payload, 1, ops, end);
      }
    }
  }

  /** What the encoder writes says its operations. */
  lemma EncodingSays(ops: seq<Op>)
    requires forall i :: 0 <= i < |ops| ==> Encodable(ops[i])
    ensures Says(Encode(ops), ops, true)
  {
    hide Says, Encodable;
    CodecRoundTrip(ops);
    PayloadFormat(Encode(ops), ops, true);
  }
}
