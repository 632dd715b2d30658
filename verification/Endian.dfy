/** Byte strings, and the little-endian integers in them. */
module Endian {
  type Byte = b: int | 0 <= b < 256
  type Bytes = seq<Byte>

  /** b with x written at off. */
  function Splice(b: Bytes, off: nat, x: Bytes): (r: Bytes)
    requires off + |x| <= |b|
    ensures |r| == |b|
    ensures forall i :: 0 <= i < |b| ==> r[i] == if off <= i < off + |x| then x[i - off] else b[i]
  {
    b[..off] + x + b[off + |x|..]
  }

  function Repeat(v: Byte, n: nat): (b: Bytes)
    ensures |b| == n && forall i :: 0 <= i < n ==> b[i] == v
  {
    seq(n, i => v)
  }

  /** memcpy into a buffer. */
  method CopyInto(buf: array<Byte>, off: nat, bytes: Bytes)
    requires off + |bytes| <= buf.Length
    modifies buf
    ensures buf[..] == Splice(old(buf[..]), off, bytes)
  {
    for i := 0 to |bytes|
      invariant forall j :: 0 <= j < buf.Length ==>
                  buf[j] == if off <= j < off + i then bytes[j - off] else old(buf[j])
    {
      buf[off + i] := bytes[i];
    }
  }

  function Pow256(n: nat): (r: nat)
    ensures r >= 1
  {
    if n == 0 then 1 else 256 * Pow256(n - 1)
  }

  /** The n low bytes of v, lowest first. */
  function ToLE(v: nat, n: nat): (b: Bytes)
    ensures |b| == n
  {
    if n == 0 then [] else [v % 256] + ToLE(v / 256, n - 1)
  }

  function FromLE(b: Bytes): (v: nat)
    ensures v < Pow256(|b|)
  {
    if b == [] then 0 else b[0] + 256 * FromLE(b[1..])
  }

  /** Byte i is worth 256^i. */
  lemma {:induction false} LEByte(v: nat, n: nat, i: nat)
    requires i < n
    ensures ToLE(v, n)[i] == v / Pow256(i) % 256
  {
    if i > 0 {
      LEByte(v / 256, n - 1, i - 1);
      DivTwice(v, 256, Pow256(i - 1));
    }
  }

  lemma DivTwice(v: nat, a: nat, b: nat)
    requires a > 0 && b > 0
    ensures a * b > 0 && v / a / b == v / (a * b)
  {
    var q := v / a;
    var x := q / b;
    Composed(v, a, b, q, v % a, x, q % b);
    DivUnique(v, a * b, x, a * (q % b) + v % a);
  }

  lemma Composed(v: nat, a: nat, b: nat, q: nat, r: nat, x: nat, y: nat)
    requires v == a * q + r && q == b * x + y && r < a && y < b
    ensures a * b > 0 && v == (a * b) * x + (a * y + r) && a * y + r < a * b
  {
    assert a * (b * x) == (a * b) * x;
    NextMultiple(y, b, a);
  }

  lemma DivUnique(v: nat, d: nat, q: nat, r: nat)
    requires d > 0 && v == d * q + r && r < d
    ensures v / d == q
  {
    var x, y := v / d, v % d;
    assert v == d * x + y;
    if q < x { NextMultiple(q, x, d); } else if x < q { NextMultiple(x, q, d); }
  }

  lemma NextMultiple(x: nat, x': nat, p: nat)
    requires x < x'
    ensures x * p + p <= x' * p
  {
    var d: nat := x' - x - 1;
    assert x' * p == x * p + p + d * p;
  }

  /** Reading back a value that fits gives it back. */
  lemma {:induction false} LERoundTrip(v: nat, n: nat)
    requires v < Pow256(n)
    ensures FromLE(ToLE(v, n)) == v
  {
    if n > 0 {
      assert ToLE(v, n)[1..] == ToLE(v / 256, n - 1);
      LERoundTrip(v / 256, n - 1);
    }
  }

  /** Writing back what was read gives the same bytes. */
  lemma {:induction false} LEInverse(b: Bytes)
    ensures ToLE(FromLE(b), |b|) == b
  {
    hide Pow256;
    if b != [] {
      var v := FromLE(b[1..]);
      LEInverse(b[1..]);
      assert (b[0] + 256 * v) % 256 == b[0] && (b[0] + 256 * v) / 256 == v;
      assert b == [b[0]] + b[1..];
    }
  }
}
