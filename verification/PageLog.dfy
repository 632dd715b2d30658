/** The redo operations that index page changes log, and that replaying them on a replica that represents the page
    before the change gives one that represents the page after it. */
module PageLog {
  import opened Endian
  import opened LogCodec
  import opened RedoPage
  import opened BLinkPage
  import opened PageBytes
  import CompoundKey

  /** The page after the operations of a record and the version stamp. */
  function Played(b: Image, ops: seq<Op>, version: nat): Image
    requires AllInPage(ops, PAGE_SIZE)
  {
    WithVersion(ApplyOps(b, ops), version)
  }

  /* ---- Storing a record ---- */

  /** The operations for the room at position at, for the record, and for the new last index. */
  function RoomOps(at: nat, rs: nat, len: nat): seq<Op> {
    if len > 0 then [Move(at + rs, at, len)] else []
  }

  function RecordOps(at: nat, level: nat, ks: nat, rec: Bytes): seq<Op>
    requires ks <= |rec|
  {
    if level == 0 then [Update(at, rec)] else [Update(at, rec[..ks]), Update(at + ks, rec[ks..])]
  }

  /** What internal_page_store and leaf_page_store log for a record that goes in at slot u of n. */
  function StoreOps(l: Layout, level: nat, n: nat, u: nat, rec: Bytes): seq<Op>
    requires LayoutOk(l) && u <= n < Capacity(level) && |rec| == RecSize(l, level)
  {
    var rs := RecSize(l, level);
    var at := RecBase(l) + Span(rs, u);
    SpanMonotone(rs, u, n);
    RoomOps(at, rs, Span(rs, n) - Span(rs, u)) + RecordOps(at, level, KeySize(l), rec)
    + [Update(LAST_AT, LastIndex(n + 1))]
  }

  /** The same as four writes. */
  function Stored(l: Layout, level: nat, b: Image, n: nat, u: nat, rec: Bytes): (r: Image)
    requires LayoutOk(l) && u <= n < Capacity(level) && |rec| == RecSize(l, level)
  {
    PageFits(l, level, n + 1);
    SpanMonotone(RecSize(l, level), u, n);
    SpanMonotone(RecSize(l, level), n, n + 1);
    KeyInRecord(l, level);
    Splice(WithSlot(b, RecBase(l), RecSize(l, level), n, u, rec), LAST_AT, LastIndex(n + 1))
  }

  lemma SpliceTwice(b: Bytes, at: nat, x: Bytes, y: Bytes)
    requires at + |x| + |y| <= |b|
    ensures Splice(Splice(b, at, x), at + |x|, y) == Splice(b, at, x + y)
  {
  }

  lemma SpliceNone(b: Bytes, at: nat)
    requires at <= |b|
    ensures Splice(b, at, []) == b
  {
  }

  lemma {:induction false} ApplyConcat(b: Bytes, x: seq<Op>, y: seq<Op>)
    requires AllInPage(x, |b|) && AllInPage(y, |b|)
    ensures AllInPage(x + y, |b|) && ApplyOps(b, x + y) == ApplyOps(ApplyOps(b, x), y)
    decreases |x|
  {
    hide ApplyOp;
    if x == [] { assert x + y == y; }
    else {
      ApplyConcat(ApplyOp(b, x[0]), x[1..], y);
      assert (x + y)[1..] == x[1..] + y;
    }
  }

  lemma ApplyOne(b: Bytes, op: Op)
    requires InPage(op, |b|)
    ensures AllInPage([op], |b|) && ApplyOps(b, [op]) == ApplyOp(b, op)
  {
    assert ApplyOps(b, [op]) == ApplyOps(ApplyOp(b, op), [op][1..]);
  }

  lemma RoomOpsAre(b: Bytes, at: nat, rs: nat, len: nat)
    requires at + rs + len <= |b|
    ensures AllInPage(RoomOps(at, rs, len), |b|) &&
            ApplyOps(b, RoomOps(at, rs, len)) == Splice(b, at + rs, b[at..at + len])
  {
    hide ApplyOps, Splice, AllInPage;
    if len > 0 {
      ApplyMove(b, at + rs, at, len);
    } else {
      ApplyNone(b);
      SpliceNone(b, at + rs);
      assert b[at..at + len] == [];
    }
  }

  lemma ApplyNone(b: Bytes)
    ensures AllInPage([], |b|) && ApplyOps(b, []) == b
  {
  }

  lemma ApplyMove(b: Bytes, dst: nat, src: nat, len: nat)
    requires dst + len <= |b| && src + len <= |b|
    ensures AllInPage([Move(dst, src, len)], |b|) &&
            ApplyOps(b, [Move(dst, src, len)]) == Splice(b, dst, b[src..src + len])
  {
    hide Splice;
    ApplyOne(b, Move(dst, src, len));
  }

  lemma ApplyUpdate(b: Bytes, at: nat, x: Bytes)
    requires at + |x| <= |b|
    ensures AllInPage([Update(at, x)], |b|) && ApplyOps(b, [Update(at, x)]) == Splice(b, at, x)
  {
    hide Splice;
    ApplyOne(b, Update(at, x));
  }

  lemma RecordOpsAre(b: Bytes, at: nat, level: nat, ks: nat, rec: Bytes)
    requires at + |rec| <= |b| && ks <= |rec|
    ensures AllInPage(RecordOps(at, level, ks, rec), |b|) &&
            ApplyOps(b, RecordOps(at, level, ks, rec)) == Splice(b, at, rec)
  {
    hide ApplyOps, Splice, AllInPage;
    if level == 0 { ApplyUpdate(b, at, rec); }
    else {
      ApplyUpdates(b, at, rec[..ks], rec[ks..]);
      assert rec[..ks] + rec[ks..] == rec;
    }
  }

  lemma ApplyUpdates(b: Bytes, at: nat, x: Bytes, y: Bytes)
    requires at + |x| + |y| <= |b|
    ensures AllInPage([Update(at, x), Update(at + |x|, y)], |b|)
    ensures ApplyOps(b, [Update(at, x), Update(at + |x|, y)]) == Splice(b, at, x + y)
  {
    hide ApplyOps, AllInPage, Splice;
    ApplyUpdate(b, at, x);
    ApplyUpdate(Splice(b, at, x), at + |x|, y);
    SpliceTwice(b, at, x, y);
    ApplyConcat(b, [Update(at, x)], [Update(at + |x|, y)]);
    assert [Update(at, x)] + [Update(at + |x|, y)] == [Update(at, x), Update(at + |x|, y)];
  }

  lemma ThreeParts(b: Bytes, at: nat, rs: nat, len: nat, level: nat, ks: nat, rec: Bytes, last: Bytes)
    requires at + rs + len <= |b| && at + |rec| <= |b| && ks <= |rec| && LAST_AT + |last| <= |b|
    ensures var ops := RoomOps(at, rs, len) + RecordOps(at, level, ks, rec) + [Update(LAST_AT, last)];
            && AllInPage(ops, |b|)
            && ApplyOps(b, ops) == Splice(Splice(Splice(b, at + rs, b[at..at + len]), at, rec), LAST_AT, last)
  {
    hide RoomOps, RecordOps, ApplyOps, Splice, AllInPage;
    var x, y := RoomOps(at, rs, len), RecordOps(at, level, ks, rec);
    var m := Splice(b, at + rs, b[at..at + len]);
    RoomOpsAre(b, at, rs, len);
    RecordOpsAre(m, at, level, ks, rec);
    ApplyUpdate(Splice(m, at, rec), LAST_AT, last);
    ApplyConcat(b, x, y);
    ApplyConcat(b, x + y, [Update(LAST_AT, last)]);
  }

  lemma StoreOpsAre(l: Layout, level: nat, b: Image, n: nat, u: nat, rec: Bytes)
    requires LayoutOk(l) && u <= n < Capacity(level) && |rec| == RecSize(l, level)
    ensures AllInPage(StoreOps(l, level, n, u, rec), PAGE_SIZE)
    ensures ApplyOps(b, StoreOps(l, level, n, u, rec)) == Stored(l, level, b, n, u, rec)
  {
    hide LayoutOk, RecSize, RecBase, KeySize, LastIndex, RoomOps, RecordOps, ApplyOps, Splice, AllInPage;
    PageFits(l, level, n + 1);
    KeyInRecord(l, level);
    var rs := RecSize(l, level);
    SpanMonotone(rs, u, n);
    SpanMonotone(rs, u, n + 1);
    SpanMonotone(rs, n, n + 1);
    ThreeParts(b, RecBase(l) + Span(rs, u), rs, Span(rs, n) - Span(rs, u), level, KeySize(l), rec, LastIndex(n + 1));
  }

  lemma KeyInRecord(l: Layout, level: nat)
    requires LayoutOk(l)
    ensures KeySize(l) <= RecSize(l, level) && RecBase(l) >= DATA_AT
  {
  }

  /* ---- What the replica represents afterwards ---- */

  lemma RecordsSame(b: Bytes, c: Bytes, base: nat, rs: nat, n: nat)
    requires |b| == |c| && base + Span(rs, n) <= |b| && b[base..] == c[base..]
    ensures Records(b, base, rs, n) == Records(c, base, rs, n)
  {
    var s, t := Records(b, base, rs, n), Records(c, base, rs, n);
    forall i | 0 <= i < n ensures s[i] == t[i] {
      SpanMonotone(rs, i, n);
      assert forall j :: base <= j < |b| ==> b[j] == b[base..][j - base] && c[j] == c[base..][j - base];
      assert Slot(b, base, rs, i) == Slot(c, base, rs, i);
    }
  }

  lemma RecordsWith(l: Layout, level: nat, s: seq<Bytes>, keys: seq<Key>, vals: seq<Val>, u: nat, rec: Bytes,
                    k: Key, v: Val)
    requires LayoutOk(l) && RecordsAre(l, level, s, keys, vals) && u <= |s| && RecordIs(l, level, rec, k, v)
    ensures RecordsAre(l, level, Insert(s, u, rec), Insert(keys, u, k), Insert(vals, u, v))
  {
    hide RecordIs;
    var s', keys', vals' := Insert(s, u, rec), Insert(keys, u, k), Insert(vals, u, v);
    forall i | 0 <= i < |s'| ensures RecordIs(l, level, s'[i], keys'[i], vals'[i]) {
      if i < u { assert RecordIs(l, level, s[i], keys[i], vals[i]); }
      else if i > u { assert RecordIs(l, level, s[i - 1], keys[i - 1], vals[i - 1]); }
    }
  }

  /** A change behind the range keys, the two bytes of the last index, and the version leave the rest of the header. */
  lemma HeaderAfter(b: Image, c: Image, last: Bytes, version: nat, p: Page, q: Page)
    requires HeaderIs(b, p) && c[..DATA_AT] == b[..DATA_AT] && |last| == 2 && version < U64
    requires q.leftmost == p.leftmost && q.sibling == p.sibling && q.level == p.level && q.version == version
    requires last == LastIndex(|q.keys|)
    ensures HeaderIs(WithVersion(Splice(c, LAST_AT, last), version), q)
  {
    hide Splice, FromLE, ToLE, LastIndex, Version;
    var d := Splice(c, LAST_AT, last);
    var e := WithVersion(d, version);
    HeaderSlices(c, b);
    Outside(c, LAST_AT, last, LEFTMOST_AT, LEFTMOST_AT + 8);
    Outside(c, LAST_AT, last, SIBLING_AT, SIBLING_AT + 8);
    Outside(c, LAST_AT, last, LEVEL_AT, LEVEL_AT + 1);
    Inside(c, LAST_AT, last);
    VersionOutside(d, version, LEFTMOST_AT, LEFTMOST_AT + 8);
    VersionOutside(d, version, SIBLING_AT, SIBLING_AT + 8);
    VersionOutside(d, version, LAST_AT, LAST_AT + 2);
    VersionOutside(d, version, LEVEL_AT, LEVEL_AT + 1);
    assert e[LEVEL_AT] == e[LEVEL_AT..LEVEL_AT + 1][0] == d[LEVEL_AT..LEVEL_AT + 1][0] ==
           c[LEVEL_AT..LEVEL_AT + 1][0] == c[LEVEL_AT];
  }

  lemma HeaderSlices(b: Image, c: Image)
    requires b[..DATA_AT] == c[..DATA_AT]
    ensures b[LEFTMOST_AT..LEFTMOST_AT + 8] == c[LEFTMOST_AT..LEFTMOST_AT + 8]
    ensures b[SIBLING_AT..SIBLING_AT + 8] == c[SIBLING_AT..SIBLING_AT + 8]
    ensures b[LAST_AT..LAST_AT + 2] == c[LAST_AT..LAST_AT + 2] && b[LEVEL_AT] == c[LEVEL_AT]
  {
    assert forall i :: 0 <= i < DATA_AT ==> b[i] == b[..DATA_AT][i] && c[i] == c[..DATA_AT][i];
  }

  lemma VersionOutside(b: Image, v: nat, i: nat, j: nat)
    requires i <= j <= PAGE_SIZE && (j <= VERSION_AT || VERSION_AT + 8 <= i)
    ensures WithVersion(b, v)[i..j] == b[i..j]
  {
    hide ToLE;
    Outside(b, VERSION_AT, ToLE(v, 8), i, j);
  }

  /** An image with the same range keys and records. */
  lemma SameBody(l: Layout, b: Image, c: Image, p: Page)
    requires LayoutOk(l) && b[DATA_AT..] == c[DATA_AT..] && RangeIs(l, b, p)
    ensures RangeIs(l, c, p)
  {
    hide CompoundKey.Rank;
    var ks := KeySize(l);
    assert forall j :: DATA_AT <= j < PAGE_SIZE ==>
           b[j] == b[DATA_AT..][j - DATA_AT] && c[j] == c[DATA_AT..][j - DATA_AT];
    assert b[DATA_AT..DATA_AT + ks] == c[DATA_AT..DATA_AT + ks];
    assert b[DATA_AT + ks..RecBase(l)] == c[DATA_AT + ks..RecBase(l)];
  }

  /** A change that reaches from the records on leaves the header and the range keys alone. */
  lemma SpliceBehind(b: Bytes, base: nat, off: nat, x: Bytes)
    requires base <= off && off + |x| <= |b|
    ensures Splice(b, off, x)[..base] == b[..base]
  {
  }

  lemma SpliceBefore(b: Bytes, base: nat, off: nat, x: Bytes)
    requires off + |x| <= base <= |b|
    ensures Splice(b, off, x)[base..] == b[base..]
  {
  }

  /** Replaying a logged store: the replica then has the record in its place. */
  lemma StoreReplayed(l: Layout, b: Image, p: Page, k: Key, v: Val, rec: Bytes)
    requires LayoutOk(l) && Represents(l, b, p) && |p.keys| < Capacity(p.level) && p.version + 1 < U64
    requires RecordIs(l, p.level, rec, k, v)
    ensures var ops := StoreOps(l, p.level, |p.keys|, Upper(p.keys, k), rec);
            && AllInPage(ops, PAGE_SIZE)
            && Represents(l, Played(b, ops, p.version + 1), WithRecord(p, k, v))
  {
    hide LayoutOk, RecSize, RecBase, KeySize, LastIndex, Splice, Span, HeaderIs, RangeIs, RecordIs, RecordsAre,
         ApplyOps, Upper, Version, StoreOps, AllInPage, Slot, ToLE, Capacity, WithSlot, WithVersion;
    ShapeOf(l, b, p, k, v, rec);
    var n, u, rs, base := |p.keys|, Upper(p.keys, k), RecSize(l, p.level), RecBase(l);
    StoreOpsAre(l, p.level, b, n, u, rec);
    PageFits(l, p.level, n + 1);
    KeyInRecord(l, p.level);
    SpanMonotone(rs, u, n);
    SpanMonotone(rs, n, n + 1);
    SpanMonotone(rs, u, n + 1);
    var c := WithSlot(b, base, rs, n, u, rec);
    var e := WithVersion(Splice(c, LAST_AT, LastIndex(n + 1)), p.version + 1);
    var q := WithRecord(p, k, v);
    FrontKept(b, base, rs, n, u, rec);
    BackKept(c, LastIndex(n + 1), p.version + 1);
    HeaderAfter(b, c, LastIndex(n + 1), p.version + 1, p, q);
    RangeKept(l, b, c, e, p);
    RangeOf(l, e, p, q);
    RecordInserted(b, base, rs, n, u, rec);
    TailOf(c, e, base);
    RecordsSame(c, e, base, rs, n + 1);
    RecordsWith(l, p.level, Records(b, base, rs, n), p.keys, p.vals, u, rec, k, v);
  }

  lemma ShapeOf(l: Layout, b: Image, p: Page, k: Key, v: Val, rec: Bytes)
    requires LayoutOk(l) && Represents(l, b, p) && RecordIs(l, p.level, rec, k, v)
    ensures |p.keys| == |p.vals| && |rec| == RecSize(l, p.level)
  {
    hide CompoundKey.Rank, HeaderIs, RangeIs;
  }

  lemma FrontKept(b: Bytes, base: nat, rs: nat, n: nat, u: nat, rec: Bytes)
    requires u <= n && |rec| == rs && Span(rs, u) <= Span(rs, n) && base + Span(rs, n) + rs <= |b| && DATA_AT <= base
    ensures var c := WithSlot(b, base, rs, n, u, rec); c[..base] == b[..base] && c[..DATA_AT] == b[..DATA_AT]
  {
    hide Splice, Span;
    var at := base + Span(rs, u);
    var x := b[at..base + Span(rs, n)];
    SpliceBehind(b, base, at + rs, x);
    SpliceBehind(Splice(b, at + rs, x), base, at, rec);
    var c := WithSlot(b, base, rs, n, u, rec);
    hide WithSlot;
    assert c[0..base] == b[0..base];
    SubSlices(b, c, 0, base, 0, DATA_AT);
    assert c[..DATA_AT] == c[0..DATA_AT] && b[..DATA_AT] == b[0..DATA_AT];
  }

  lemma BackKept(c: Image, last: Bytes, version: nat)
    requires |last| == 2
    ensures WithVersion(Splice(c, LAST_AT, last), version)[DATA_AT..] == c[DATA_AT..]
  {
    hide ToLE;
    SpliceBefore(c, DATA_AT, LAST_AT, last);
    SpliceBefore(Splice(c, LAST_AT, last), DATA_AT, VERSION_AT, ToLE(version, 8));
  }

  lemma RangeKept(l: Layout, b: Image, c: Image, e: Image, p: Page)
    requires RecBase(l) <= PAGE_SIZE && c[..RecBase(l)] == b[..RecBase(l)] && e[DATA_AT..] == c[DATA_AT..]
    requires LayoutOk(l) && RangeIs(l, b, p)
    ensures RangeIs(l, e, p)
  {
    hide CompoundKey.Rank;
    SameBody(l, c, e, p) by {
      var ks := KeySize(l);
      assert forall j :: 0 <= j < RecBase(l) ==> b[j] == b[..RecBase(l)][j] && c[j] == c[..RecBase(l)][j];
      assert b[DATA_AT..DATA_AT + ks] == c[DATA_AT..DATA_AT + ks];
      assert b[DATA_AT + ks..RecBase(l)] == c[DATA_AT + ks..RecBase(l)];
    }
  }

  lemma RangeOf(l: Layout, b: Image, p: Page, q: Page)
    requires LayoutOk(l) && RangeIs(l, b, p) && p.lowest == q.lowest && p.highest == q.highest
    ensures RangeIs(l, b, q)
  {
  }

  lemma TailOf(c: Bytes, e: Bytes, base: nat)
    requires |c| == |e| && DATA_AT <= base <= |c| && c[DATA_AT..] == e[DATA_AT..]
    ensures c[base..] == e[base..]
  {
    assert c[base..] == c[DATA_AT..][base - DATA_AT..] && e[base..] == e[DATA_AT..][base - DATA_AT..];
  }

  /* ---- Splitting a page, and new pages ---- */

  /** What a split logs for the old page, read from its image after the split. */
  function SplitOps(l: Layout, c: Image): seq<Op>
    requires LayoutOk(l)
  {
    [Update(LAST_AT, c[LAST_AT..LAST_AT + 2]), Update(SIBLING_AT, c[SIBLING_AT..SIBLING_AT + 8]),
     Update(DATA_AT, c[DATA_AT..DATA_AT + KeySize(l)])]
  }

  /** What a split logs for the new sibling, and root growth for the new root. */
  function NewPageOps(l: Layout, level: nat, n: nat, c: Image): seq<Op>
    requires LayoutOk(l) && n <= Capacity(level)
  {
    PageFits(l, level, n);
    [Update(HEADER_AT, c[HEADER_AT..DATA_AT]), Update(DATA_AT + KeySize(l), c[DATA_AT + KeySize(l)..RecBase(l)]),
     Update(DATA_AT, c[DATA_AT..DATA_AT + KeySize(l)])]
    + if n > 0 then [Update(RecBase(l), c[RecBase(l)..RecBase(l) + Span(RecSize(l, level), n)])] else []
  }

  lemma ApplyThree(b: Bytes, i: nat, x: Bytes, j: nat, y: Bytes, k: nat, z: Bytes)
    requires i + |x| <= |b| && j + |y| <= |b| && k + |z| <= |b|
    ensures AllInPage([Update(i, x), Update(j, y), Update(k, z)], |b|)
    ensures ApplyOps(b, [Update(i, x), Update(j, y), Update(k, z)]) == Splice(Splice(Splice(b, i, x), j, y), k, z)
  {
    hide Splice, ApplyOps, AllInPage;
    var b1 := Splice(b, i, x);
    var b2 := Splice(b1, j, y);
    ApplyUpdate(b, i, x);
    ApplyUpdate(b1, j, y);
    ApplyUpdate(b2, k, z);
    ApplyConcat(b, [Update(i, x)], [Update(j, y)]);
    ApplyConcat(b, [Update(i, x)] + [Update(j, y)], [Update(k, z)]);
    assert [Update(i, x)] + [Update(j, y)] + [Update(k, z)] == [Update(i, x), Update(j, y), Update(k, z)];
  }

  /** A page represented by c is represented by any image that agrees with c on the live bytes. */
  lemma AgreeRepresents(l: Layout, c: Image, e: Image, q: Page)
    requires LayoutOk(l) && Represents(l, c, q) && Version(e) == q.version
    requires e[LEFTMOST_AT..LAST_AT + 2] == c[LEFTMOST_AT..LAST_AT + 2] && e[LEVEL_AT] == c[LEVEL_AT]
    requires e[DATA_AT..RecBase(l) + Span(RecSize(l, q.level), |q.keys|)]
          == c[DATA_AT..RecBase(l) + Span(RecSize(l, q.level), |q.keys|)]
    ensures Represents(l, e, q)
  {
    hide LayoutOk, FromLE, ToLE, Version, RecSize, Span, Splice, RecordsAre, CompoundKey.Rank, KeySize;
    KeyInRecord(l, q.level);
    var base, rs, n := RecBase(l), RecSize(l, q.level), |q.keys|;
    var end := base + Span(rs, n);
    SubSlices(c, e, LEFTMOST_AT, LAST_AT + 2, LEFTMOST_AT, LEFTMOST_AT + 8);
    SubSlices(c, e, LEFTMOST_AT, LAST_AT + 2, SIBLING_AT, SIBLING_AT + 8);
    SubSlices(c, e, LEFTMOST_AT, LAST_AT + 2, LAST_AT, LAST_AT + 2);
    SubSlices(c, e, DATA_AT, end, DATA_AT, DATA_AT + KeySize(l));
    SubSlices(c, e, DATA_AT, end, DATA_AT + KeySize(l), base);
    SubSlices(c, e, DATA_AT, end, base, end);
    RecordsAgree(c, e, base, rs, n);
  }

  lemma SubSlices(b: Bytes, c: Bytes, i: nat, j: nat, x: nat, y: nat)
    requires |b| == |c| && i <= x <= y <= j <= |b| && b[i..j] == c[i..j]
    ensures b[x..y] == c[x..y]
  {
    forall t | x <= t < y ensures b[t] == c[t] { assert b[t] == b[i..j][t - i] && c[t] == c[i..j][t - i]; }
  }

  lemma RecordsAgree(b: Bytes, c: Bytes, base: nat, rs: nat, n: nat)
    requires |b| == |c| && base + Span(rs, n) <= |b| && b[base..base + Span(rs, n)] == c[base..base + Span(rs, n)]
    ensures Records(b, base, rs, n) == Records(c, base, rs, n)
  {
    var s, t := Records(b, base, rs, n), Records(c, base, rs, n);
    forall i | 0 <= i < n ensures s[i] == t[i] {
      SpanMonotone(rs, i, n);
      SubSlices(b, c, base, base + Span(rs, n), base + Span(rs, i), base + Span(rs, i) + rs);
    }
  }

  /** Replaying the record of a new page, over whatever the replica held there. */
  lemma NewPageReplayed(l: Layout, b: Image, c: Image, q: Page)
    requires LayoutOk(l) && Represents(l, c, q) && q.version == 1
    ensures var ops := NewPageOps(l, q.level, |q.keys|, c);
            AllInPage(ops, PAGE_SIZE) && Represents(l, Played(b, ops, 1), q) && Played(b, ops, 1)[8..16] == c[8..16]
  {
    hide LayoutOk, RecSize, Span, HeaderIs, RangeIs, RecordsAre, ApplyOps, AllInPage, Slot, ToLE, Capacity, KeySize;
    var base, ks, n := RecBase(l), KeySize(l), |q.keys|;
    KeyInRecord(l, q.level);
    PageFits(l, q.level, n);
    var end := base + Span(RecSize(l, q.level), n);
    var x, y, z, w := c[HEADER_AT..DATA_AT], c[DATA_AT + ks..base], c[DATA_AT..DATA_AT + ks], c[base..end];
    ApplyThree(b, HEADER_AT, x, DATA_AT + ks, y, DATA_AT, z);
    var m := Splice(Splice(Splice(b, HEADER_AT, x), DATA_AT + ks, y), DATA_AT, z);
    var d := Splice(m, base, w);
    assert ApplyOps(b, NewPageOps(l, q.level, n, c)) == d && AllInPage(NewPageOps(l, q.level, n, c), PAGE_SIZE) by {
      var first := [Update(HEADER_AT, x), Update(DATA_AT + ks, y), Update(DATA_AT, z)];
      if n > 0 { ApplyUpdate(m, base, w); ApplyConcat(b, first, [Update(base, w)]); }
      else { SpanNone(RecSize(l, q.level)); SpliceNone(m, base); assert first + [] == first; }
    }
    FourWrites(b, c, ks, base, end);
    var e := WithVersion(d, 1);
    hide Splice, Version;
    VersionOutside(d, 1, 8, 16);
    VersionOutside(d, 1, LEFTMOST_AT, LAST_AT + 2);
    VersionOutside(d, 1, LEVEL_AT, LEVEL_AT + 1);
    VersionOutside(d, 1, DATA_AT, end);
    SubSlices(d, c, HEADER_AT, end, 8, 16);
    SubSlices(d, c, HEADER_AT, end, LEFTMOST_AT, LAST_AT + 2);
    SubSlices(d, c, HEADER_AT, end, LEVEL_AT, LEVEL_AT + 1);
    SubSlices(d, c, HEADER_AT, end, DATA_AT, end);
    assert e[LEVEL_AT] == e[LEVEL_AT..LEVEL_AT + 1][0] && c[LEVEL_AT] == c[LEVEL_AT..LEVEL_AT + 1][0];
    AgreeRepresents(l, c, e, q);
  }

  /** The four writes of a new page cover all its live bytes. */
  lemma FourWrites(b: Bytes, c: Bytes, ks: nat, base: nat, end: nat)
    requires |b| == |c| && base == DATA_AT + 2 * ks && base <= end <= |b|
    ensures var x, y, z, w := c[HEADER_AT..DATA_AT], c[DATA_AT + ks..base], c[DATA_AT..DATA_AT + ks], c[base..end];
            var d := Splice(Splice(Splice(Splice(b, HEADER_AT, x), DATA_AT + ks, y), DATA_AT, z), base, w);
            d[HEADER_AT..end] == c[HEADER_AT..end]
  {
    var x, y, z, w := c[HEADER_AT..DATA_AT], c[DATA_AT + ks..base], c[DATA_AT..DATA_AT + ks], c[base..end];
    var d1 := Splice(b, HEADER_AT, x);
    var d2 := Splice(d1, DATA_AT + ks, y);
    var d3 := Splice(d2, DATA_AT, z);
    var d := Splice(d3, base, w);
    forall t | HEADER_AT <= t < end ensures d[t] == c[t] {}
  }

  lemma SpanNone(rs: nat)
    ensures Span(rs, 0) == 0
  {
  }

  /** The first m records of n. */
  lemma RecordsPrefix(b: Bytes, base: nat, rs: nat, n: nat, m: nat)
    requires base + Span(rs, n) <= |b| && m <= n
    ensures base + Span(rs, m) <= |b| && Records(b, base, rs, m) == Records(b, base, rs, n)[..m]
  {
    SpanMonotone(rs, m, n);
  }

  /** The three writes of a split to the old page: last index, sibling, highest key. */
  lemma ThreeWrites(b: Image, x: Bytes, y: Bytes, z: Bytes, version: nat)
    requires |x| == 2 && |y| == 8 && DATA_AT + |z| <= PAGE_SIZE && version < U64
    ensures var e := WithVersion(Splice(Splice(Splice(b, LAST_AT, x), SIBLING_AT, y), DATA_AT, z), version);
            && e[LEFTMOST_AT..LEFTMOST_AT + 8] == b[LEFTMOST_AT..LEFTMOST_AT + 8] && e[LEVEL_AT] == b[LEVEL_AT]
            && e[SIBLING_AT..SIBLING_AT + 8] == y && e[LAST_AT..LAST_AT + 2] == x
            && e[DATA_AT..DATA_AT + |z|] == z && e[DATA_AT + |z|..] == b[DATA_AT + |z|..] && Version(e) == version
  {
    hide ToLE, Version;
    var d1 := Splice(b, LAST_AT, x);
    var d2 := Splice(d1, SIBLING_AT, y);
    var d := Splice(d2, DATA_AT, z);
    var e := WithVersion(d, version);
    forall t | 0 <= t < 8 ensures e[SIBLING_AT + t] == y[t] && e[LEFTMOST_AT + t] == b[LEFTMOST_AT + t] {}
    forall t | 0 <= t < 2 ensures e[LAST_AT + t] == x[t] {}
    forall t | 0 <= t < |z| ensures e[DATA_AT + t] == z[t] {}
    forall t | DATA_AT + |z| <= t < PAGE_SIZE ensures e[t] == b[t] {}
  }

  /** The old page with the three writes: its first m records stay live. */
  lemma SplitWritten(l: Layout, b: Image, p: Page, q: Page, x: Bytes, y: Bytes, z: Bytes)
    requires LayoutOk(l) && Represents(l, b, p) && |p.keys| == |p.vals| && |q.keys| <= |p.keys| && p.version + 1 < U64
    requires q == p.(keys := p.keys[..|q.keys|], vals := p.vals[..|q.keys|], highest := q.highest, sibling := q.sibling,
                     version := p.version + 1)
    requires x == LastIndex(|q.keys|) && |y| == 8 && FromLE(y) == q.sibling && |z| == KeySize(l) &&
             KeyOf(l, z) == q.highest
    requires DATA_AT + |z| <= PAGE_SIZE
    ensures var c := Splice(Splice(Splice(b, LAST_AT, x), SIBLING_AT, y), DATA_AT, z);
            Represents(l, WithVersion(c, p.version + 1), q)
  {
    hide LayoutOk, RecSize, RecBase, Span, Slot, KeySize, Splice, Version, HeaderIs, RangeIs, RecordsAre, Capacity,
         CompoundKey.Rank, LastIndex, FromLE, WithVersion;
    var base, rs, ks, n, m := RecBase(l), RecSize(l, p.level), KeySize(l), |p.keys|, |q.keys|;
    KeyInRecord(l, p.level);
    BaseIs(l);
    ThreeWrites(b, x, y, z, p.version + 1);
    var e := WithVersion(Splice(Splice(Splice(b, LAST_AT, x), SIBLING_AT, y), DATA_AT, z), p.version + 1);
    HeaderOfSplit(b, e, p, q);
    RangeOfSplit(l, b, e, p, q);
    assert e[DATA_AT + ks..PAGE_SIZE] == e[DATA_AT + ks..] && b[DATA_AT + ks..PAGE_SIZE] == b[DATA_AT + ks..];
    SubSlices(e, b, DATA_AT + ks, PAGE_SIZE, base, PAGE_SIZE);
    assert e[base..PAGE_SIZE] == e[base..] && b[base..PAGE_SIZE] == b[base..];
    RecordsPrefix(e, base, rs, n, m);
    RecordsSame(b, e, base, rs, n);
    PrefixAre(l, p.level, Records(b, base, rs, n), p.keys, p.vals, m);
  }

  /** Replaying the record of a split on the old page: the records that went to the sibling are no longer live. */
  lemma SplitReplayed(l: Layout, b: Image, p: Page, c: Image, sib: Addr)
    requires LayoutOk(l) && Represents(l, b, p) && p.keys != [] && |p.keys| == |p.vals| && p.version + 1 < U64
    requires Heads(l, c, SplitLeft(p, sib))
    ensures AllInPage(SplitOps(l, c), PAGE_SIZE)
    ensures Represents(l, Played(b, SplitOps(l, c), p.version + 1), SplitLeft(p, sib))
  {
    SplitSources(l, c, SplitLeft(p, sib));
    hide LayoutOk, RecSize, RecBase, Represents, Span, ApplyOps, AllInPage, KeySize, Splice, Version, LastIndex,
         FromLE, CompoundKey.Rank, WithVersion;
    var x, y, z := c[LAST_AT..LAST_AT + 2], c[SIBLING_AT..SIBLING_AT + 8], c[DATA_AT..DATA_AT + KeySize(l)];
    ApplyThree(b, LAST_AT, x, SIBLING_AT, y, DATA_AT, z);
    SplitWritten(l, b, p, SplitLeft(p, sib), x, y, z);
  }

  lemma SplitSources(l: Layout, c: Image, q: Page)
    requires LayoutOk(l) && Heads(l, c, q)
    ensures DATA_AT + KeySize(l) <= PAGE_SIZE && c[LAST_AT..LAST_AT + 2] == LastIndex(|q.keys|)
    ensures FromLE(c[SIBLING_AT..SIBLING_AT + 8]) == q.sibling &&
            KeyOf(l, c[DATA_AT..DATA_AT + KeySize(l)]) == q.highest
  {
    hide LastIndex, FromLE, CompoundKey.Rank;
  }

  lemma BaseIs(l: Layout)
    ensures RecBase(l) == DATA_AT + 2 * KeySize(l)
  {
  }

  lemma HeaderOfSplit(b: Image, e: Image, p: Page, q: Page)
    requires HeaderIs(b, p) && Version(e) == q.version && q.leftmost == p.leftmost && q.level == p.level
    requires e[LEFTMOST_AT..LEFTMOST_AT + 8] == b[LEFTMOST_AT..LEFTMOST_AT + 8] && e[LEVEL_AT] == b[LEVEL_AT]
    requires FromLE(e[SIBLING_AT..SIBLING_AT + 8]) == q.sibling && e[LAST_AT..LAST_AT + 2] == LastIndex(|q.keys|)
    ensures HeaderIs(e, q)
  {
    hide FromLE, Version, LastIndex;
  }

  lemma RangeOfSplit(l: Layout, b: Image, e: Image, p: Page, q: Page)
    requires LayoutOk(l) && RecBase(l) <= PAGE_SIZE && RangeIs(l, b, p) && q.lowest == p.lowest
    requires KeyOf(l, e[DATA_AT..DATA_AT + KeySize(l)]) == q.highest
    requires e[DATA_AT + KeySize(l)..] == b[DATA_AT + KeySize(l)..]
    ensures RangeIs(l, e, q)
  {
    hide CompoundKey.Rank, LayoutOk;
    var ks := KeySize(l);
    assert e[DATA_AT + ks..PAGE_SIZE] == e[DATA_AT + ks..] && b[DATA_AT + ks..PAGE_SIZE] == b[DATA_AT + ks..];
    SubSlices(e, b, DATA_AT + ks, PAGE_SIZE, DATA_AT + ks, RecBase(l));
  }

  lemma PrefixAre(l: Layout, level: nat, s: seq<Bytes>, keys: seq<Key>, vals: seq<Val>, m: nat)
    requires LayoutOk(l) && RecordsAre(l, level, s, keys, vals) && m <= |s|
    ensures RecordsAre(l, level, s[..m], keys[..m], vals[..m])
  {
    hide RecordIs;
  }
}
