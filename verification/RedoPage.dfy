/** Page images on a memory node, and what one redo record does to one of them. */
module RedoPage {
  import opened Arrays
  import opened Endian
  import opened LogCodec
  import opened LogWire

  /** kLeafPageSize; every page kind has this size and keeps p_version at the same place. */
  const PAGE_SIZE: nat := 16392
  const VERSION_AT: nat := 16

  type Addr = nat

  datatype Rec = Rec(page: Addr, version: nat, payload: Bytes)

  predicate InPage(op: Op, size: nat) {
    match op
    case Update(off, bytes) => off + |bytes| <= size
    case Fill(off, len, _) => off + len <= size
    case Move(dst, src, len) => dst + len <= size && src + len <= size
    case SetU64(off, _) => off + 8 <= size
  }

  predicate AllInPage(ops: seq<Op>, size: nat) {
    forall i :: 0 <= i < |ops| ==> InPage(ops[i], size)
  }

  function ApplyOp(b: Bytes, op: Op): (r: Bytes)
    requires InPage(op, |b|)
    ensures |r| == |b|
  {
    match op
    case Update(off, bytes) => Splice(b, off, bytes)
    case Fill(off, len, v) => Splice(b, off, Repeat(v, len))
    case Move(dst, src, len) => Splice(b, dst, b[src..src + len])
    case SetU64(off, v) => Splice(b, off, ToLE(v, 8))
  }

  /** What an operation makes of each byte of a page. */
  lemma OpByte(b: Bytes, op: Op, i: nat)
    requires InPage(op, |b|) && i < |b|
    ensures ApplyOp(b, op)[i] ==
            match op
            case Update(off, bytes) => if off <= i < off + |bytes| then bytes[i - off] else b[i]
            case Fill(off, len, v) => if off <= i < off + len then v else b[i]
            case Move(dst, src, len) => if dst <= i < dst + len then b[src + (i - dst)] else b[i]
            case SetU64(off, v) => if off <= i < off + 8 then v / Pow256(i - off) % 256 else b[i]
  {
    hide ToLE, Pow256;
    if op.SetU64? && op.offset <= i < op.offset + 8 { LEByte(op.u64, 8, i - op.offset); }
  }

  function ApplyOps(b: Bytes, ops: seq<Op>): (r: Bytes)
    requires AllInPage(ops, |b|)
    ensures |r| == |b|
    decreases |ops|
  {
    if ops == [] then b else ApplyOps(ApplyOp(b, ops[0]), ops[1..])
  }

  type Image = b: Bytes | |b| == PAGE_SIZE witness Repeat(0, PAGE_SIZE)

  type Store = map<Addr, Image>

  function Version(b: Image): nat {
    FromLE(b[VERSION_AT..VERSION_AT + 8])
  }

  function WithVersion(b: Image, v: nat): (r: Image)
    ensures v < U64 ==> Version(r) == v
  {
    var r := Splice(b, VERSION_AT, ToLE(v, 8));
    assert r[VERSION_AT..VERSION_AT + 8] == ToLE(v, 8);
    assert v < U64 ==> FromLE(ToLE(v, 8)) == v by {
      assert Pow256(2) == 0x1_0000 && Pow256(4) == 0x1_0000_0000 && Pow256(6) == 0x1_0000_0000_0000 && Pow256(8) == U64;
      if v < U64 { LERoundTrip(v, 8); }
    }
    r
  }

  /** A record the decoder accepts, whose operations stay inside the page. */
  predicate Playable(r: Rec) {
    Decode(r.payload).good && AllInPage(Decode(r.payload).ops, PAGE_SIZE) && r.version < U64
  }

  type Redo = r: Rec | Playable(r) witness Rec(0, 0, [1])

  /** ProcessLogRecord, then SetCurrentPageVersion: whatever the payload wrote over the header,
      the page ends up with the version of the record. */
  function Apply(b: Image, r: Redo): (q: Image)
    ensures Version(q) == r.version
  {
    WithVersion(ApplyOps(b, Decode(r.payload).ops), r.version)
  }

  /* ---- In place ---- */

  /** memset inside the page. */
  method FillInto(page: array<Byte>, off: nat, len: nat, v: Byte)
    requires off + len <= page.Length
    modifies page
    ensures page[..] == Splice(old(page[..]), off, Repeat(v, len))
  {
    for i := 0 to len
      invariant forall j :: 0 <= j < page.Length ==> page[j] == if off <= j < off + i then v else old(page[j])
    {
      page[off + i] := v;
    }
  }

  /** memmove inside the page: overlapping ranges are copied in the direction that reads before it writes. */
  method MoveWithin(page: array<Byte>, dst: nat, src: nat, len: nat)
    requires dst + len <= page.Length && src + len <= page.Length
    modifies page
    ensures page[..] == Splice(old(page[..]), dst, old(page[..])[src..src + len])
  {
    ghost var b := page[..];
    if dst <= src { MoveDown(page, src, src + len, src - dst); } else { MoveUp(page, src, src + len, dst - src); }
    ghost var c := page[..];
    SpliceOf(b, c, dst, src, len);
  }

  lemma SpliceOf(b: Bytes, c: Bytes, dst: nat, src: nat, len: nat)
    requires |b| == |c| && dst + len <= |b| && src + len <= |b|
    requires forall j {:trigger c[j]} :: 0 <= j < |b| ==>
             c[j] == if dst <= j < dst + len then b[src + (j - dst)] else b[j]
    ensures c == Splice(b, dst, b[src..src + len])
  {
    var x := b[src..src + len];
    assert |x| == len;
    var d := Splice(b, dst, x);
    forall j | 0 <= j < |b| ensures c[j] == d[j] {
      if dst <= j < dst + len { assert d[j] == x[j - dst] == b[src + (j - dst)]; } else { assert d[j] == b[j]; }
    }
  }

  method RunOp(page: array<Byte>, op: Op)
    requires InPage(op, page.Length)
    modifies page
    ensures page[..] == ApplyOp(old(page[..]), op)
  {
    match op
    case Update(off, bytes) => CopyInto(page, off, bytes);
    case Fill(off, len, v) => FillInto(page, off, len, v);
    case Move(dst, src, len) => MoveWithin(page, dst, src, len);
    case SetU64(off, v) => CopyInto(page, off, ToLE(v, 8));
  }

  /** ProcessLogRecord: decode and run one operation after the other. The operations before an undecodable
      one have been run all the same. */
  method ProcessLogRecord(page: array<Byte>, payload: Bytes) returns (ok: bool)
    requires AllInPage(Decode(payload).ops, page.Length)
    modifies page
    ensures page[..] == ApplyOps(old(page[..]), Decode(payload).ops)
    ensures ok == Decode(payload).good
    ensures forall ops, good :: Says(payload, ops, good) ==>
              ok == good && AllInPage(ops, page.Length) && page[..] == ApplyOps(old(page[..]), ops)
  {
    forall ops, good | Says(payload, ops, good) ensures Decode(payload) == Decoded(ops, good) {
      PayloadFormat(payload, ops, good);
    }
    hide Says;
    if payload == [] || payload[0] != CODEC_VERSION { return false; }
    var off := 1;
    ghost var rest := Decode(payload).ops;
    while off < |payload|
      invariant 1 <= off <= |payload|
      invariant DecodeFrom(payload, off) == Decoded(rest, Decode(payload).good)
      invariant AllInPage(rest, page.Length)
      invariant ApplyOps(page[..], rest) == ApplyOps(old(page[..]), Decode(payload).ops)
      decreases |payload| - off
    {
      var r := DecodeOp(payload, off);
      if r.Bad? { return false; }
      assert rest == [r.value] + DecodeFrom(payload, r.off).ops;
      assert rest[0] == r.value && rest[1..] == DecodeFrom(payload, r.off).ops;
      RunOp(page, r.value);
      rest := rest[1..];
      off := r.off;
    }
    ok := true;
  }

  /** SetCurrentPageVersion. */
  method SetVersion(page: array<Byte>, v: nat)
    requires page.Length == PAGE_SIZE
    modifies page
    ensures page[..] == WithVersion(old(page[..]), v)
  {
    CopyInto(page, VERSION_AT, ToLE(v, 8));
  }
}
