/** The bytes of an index page, and when an image represents a page. */
module PageBytes {
  import opened Endian
  import opened RedoPage
  import opened BLinkPage
  import CompoundKey

  /** Where the header keeps its fields; the whole header ends where the data begins. */
  const HEADER_AT: nat := 8
  const LEFTMOST_AT: nat := 32
  const SIBLING_AT: nat := 40
  const LAST_AT: nat := 48
  const LEVEL_AT: nat := 60
  const DATA_AT: nat := 64

  /** The key columns of an index and the size of its rows. */
  datatype Layout = Layout(cols: seq<CompoundKey.Column>, rowSize: nat)

  function KeySize(l: Layout): nat { CompoundKey.KeyLength(l.cols) }

  /** A leaf record is the row, which begins with its key; an internal one is a key and a child address. */
  function RecSize(l: Layout, level: nat): nat {
    if level == 0 then l.rowSize else KeySize(l) + 8
  }

  /** The records follow the highest and the lowest key. */
  function RecBase(l: Layout): nat { DATA_AT + 2 * KeySize(l) }

  function Capacity(level: nat): nat {
    if level == 0 then LEAF_CARDINALITY else INTERNAL_CARDINALITY
  }

  predicate LayoutOk(l: Layout) {
    && CompoundKey.AllOk(l.cols) && 0 < KeySize(l) <= l.rowSize
    && LEAF_CARDINALITY < 0x8000 && INTERNAL_CARDINALITY < 0x8000
    && RecBase(l) + LEAF_CARDINALITY * l.rowSize <= PAGE_SIZE
    && RecBase(l) + INTERNAL_CARDINALITY * (KeySize(l) + 8) <= PAGE_SIZE
  }

  /** The rank of the key in the given bytes. */
  function KeyOf(l: Layout, b: Bytes): Key
    requires LayoutOk(l) && |b| == KeySize(l)
  {
    CompoundKey.Rank(l.cols, b)
  }

  /** The length of n records of size rs. */
  function Span(rs: nat, n: nat): nat {
    if n == 0 then 0 else Span(rs, n - 1) + rs
  }

  lemma {:induction false} SpanIsProduct(rs: nat, n: nat)
    ensures Span(rs, n) == n * rs
  {
    if n > 0 { SpanIsProduct(rs, n - 1); }
  }

  lemma {:induction false} SpanMonotone(rs: nat, i: nat, n: nat)
    requires i <= n
    ensures Span(rs, i) <= Span(rs, n)
    ensures i < n ==> Span(rs, i) + rs == Span(rs, i + 1) <= Span(rs, n)
    decreases n
  {
    if i < n - 1 { SpanMonotone(rs, i, n - 1); }
  }

  /** Record i of those from position base on. */
  function Slot(b: Bytes, base: nat, rs: nat, i: nat): (r: Bytes)
    requires base + Span(rs, i) + rs <= |b|
    ensures |r| == rs
  {
    b[base + Span(rs, i)..base + Span(rs, i) + rs]
  }

  function Records(b: Bytes, base: nat, rs: nat, n: nat): (s: seq<Bytes>)
    requires base + Span(rs, n) <= |b|
    ensures |s| == n
  {
    seq(n, i requires 0 <= i < n =>
      SpanMonotone(rs, i, n);
      Slot(b, base, rs, i))
  }

  predicate RecordIs(l: Layout, level: nat, r: Bytes, k: Key, v: Val)
    requires LayoutOk(l)
  {
    && |r| == RecSize(l, level) && KeyOf(l, r[..KeySize(l)]) == k
    && if level == 0 then v == Row(r) else v.Child? && FromLE(r[KeySize(l)..]) == v.addr
  }

  predicate RecordsAre(l: Layout, level: nat, s: seq<Bytes>, keys: seq<Key>, vals: seq<Val>)
    requires LayoutOk(l)
  {
    |s| == |keys| == |vals| && forall i :: 0 <= i < |s| ==> RecordIs(l, level, s[i], keys[i], vals[i])
  }

  /** last_index, a signed 16-bit number; -1 in an empty page. */
  function LastIndex(n: nat): (b: Bytes)
    ensures |b| == 2
  {
    ToLE((n + 0xFFFF) % 0x1_0000, 2)
  }

  predicate HeaderIs(b: Image, p: Page) {
    && FromLE(b[LEFTMOST_AT..LEFTMOST_AT + 8]) == p.leftmost && FromLE(b[SIBLING_AT..SIBLING_AT + 8]) == p.sibling
    && b[LAST_AT..LAST_AT + 2] == LastIndex(|p.keys|) && b[LEVEL_AT] == p.level && Version(b) == p.version
  }

  predicate RangeIs(l: Layout, b: Image, p: Page)
    requires LayoutOk(l)
  {
    && KeyOf(l, b[DATA_AT..DATA_AT + KeySize(l)]) == p.highest
    && KeyOf(l, b[DATA_AT + KeySize(l)..RecBase(l)]) == p.lowest
  }

  lemma PageFits(l: Layout, level: nat, n: nat)
    requires LayoutOk(l) && n <= Capacity(level)
    ensures RecBase(l) + Span(RecSize(l, level), n) <= PAGE_SIZE
  {
    SpanIsProduct(RecSize(l, level), Capacity(level));
    SpanMonotone(RecSize(l, level), n, Capacity(level));
  }

  /** An image represents a page when the live bytes say what the page says; the rest may be anything. */
  predicate Represents(l: Layout, b: Image, p: Page)
    requires LayoutOk(l)
  {
    && |p.keys| <= Capacity(p.level) && HeaderIs(b, p) && RangeIs(l, b, p)
    && RecBase(l) + Span(RecSize(l, p.level), |p.keys|) <= PAGE_SIZE
    && RecordsAre(l, p.level, Records(b, RecBase(l), RecSize(l, p.level), |p.keys|), p.keys, p.vals)
  }

  /** The header byte by byte: the version at 16, the leftmost child at 32, the sibling at 40, the last index at 48 and
      the level at 60; then the highest key at 64 and the lowest behind it. */
  lemma HeaderFormat(l: Layout, b: Image, p: Page)
    requires LayoutOk(l) && |p.keys| < 0x8000 && 64 + 2 * KeySize(l) <= |b|
    ensures |b| == 16392 && RecBase(l) == 64 + 2 * KeySize(l)
    ensures HeaderIs(b, p) <==>
            && FromLE(b[16..24]) == p.version && FromLE(b[32..40]) == p.leftmost && FromLE(b[40..48]) == p.sibling
            && b[48..50] == (if |p.keys| == 0 then [0xFF, 0xFF] else ToLE(|p.keys| - 1, 2)) && b[60] == p.level
    ensures RangeIs(l, b, p) <==>
            && KeyOf(l, b[64..64 + KeySize(l)]) == p.highest
            && KeyOf(l, b[64 + KeySize(l)..64 + 2 * KeySize(l)]) == p.lowest
  {
    hide KeyOf, LastIndex, FromLE, LayoutOk, ToLE;
    LastIndexIs(|p.keys|);
  }

  /** And record i stands i record sizes behind the two keys. */
  lemma RecordsFormat(l: Layout, b: Image, p: Page)
    requires LayoutOk(l) && |p.keys| == |p.vals| <= Capacity(p.level)
    ensures RecBase(l) + Span(RecSize(l, p.level), |p.keys|) <= |b|
    ensures RecordsAre(l, p.level, Records(b, RecBase(l), RecSize(l, p.level), |p.keys|), p.keys, p.vals) <==>
            forall i :: 0 <= i < |p.keys| ==> InPlace(l, b, p, i)
  {
    PageFits(l, p.level, |p.keys|);
    hide RecordIs, RecSize, Capacity, LayoutOk, Span, KeySize, Records, InPlace;
    forall i | 0 <= i < |p.keys| { RecordFormat(l, b, p, i); }
  }

  lemma RecordFormat(l: Layout, b: Image, p: Page, i: nat)
    requires LayoutOk(l) && i < |p.keys| == |p.vals|
    requires RecBase(l) + Span(RecSize(l, p.level), |p.keys|) <= |b|
    ensures var rs := RecSize(l, p.level);
            RecordIs(l, p.level, Records(b, RecBase(l), rs, |p.keys|)[i], p.keys[i], p.vals[i]) <==>
            InPlace(l, b, p, i)
  {
    hide RecordIs, RecSize, LayoutOk, KeySize;
    var rs := RecSize(l, p.level);
    SpanMonotone(rs, i, |p.keys|);
    SpanIsProduct(rs, i);
  }

  /** A record of key k and value v stands in the image at off. */
  predicate RecordAt(l: Layout, b: Image, off: nat, level: nat, k: Key, v: Val)
    requires LayoutOk(l)
  {
    off + RecSize(l, level) <= |b| && RecordIs(l, level, b[off..off + RecSize(l, level)], k, v)
  }

  predicate InPlace(l: Layout, b: Image, p: Page, i: nat)
    requires LayoutOk(l) && i < |p.keys| == |p.vals|
  {
    RecordAt(l, b, 64 + 2 * KeySize(l) + i * RecSize(l, p.level), p.level, p.keys[i], p.vals[i])
  }

  lemma LastIndexIs(n: nat)
    requires n < 0x8000
    ensures LastIndex(n) == if n == 0 then [0xFF, 0xFF] else ToLE(n - 1, 2)
  {}

  /** The part of an image that says what a page is, without its records. */
  predicate Heads(l: Layout, b: Image, p: Page)
    requires LayoutOk(l)
  {
    HeaderIs(b, p) && RecBase(l) <= PAGE_SIZE && RangeIs(l, b, p)
  }

  lemma RepresentsHeads(l: Layout, b: Image, p: Page)
    requires LayoutOk(l) && Represents(l, b, p)
    ensures Heads(l, b, p)
  {
    hide HeaderIs, RangeIs, RecordsAre, RecBase, LayoutOk;
  }

  /* ---- Splices and records ---- */

  lemma Outside(b: Bytes, off: nat, x: Bytes, i: nat, j: nat)
    requires off + |x| <= |b| && i <= j <= |b| && (j <= off || off + |x| <= i)
    ensures Splice(b, off, x)[i..j] == b[i..j]
  {
  }

  lemma Inside(b: Bytes, off: nat, x: Bytes)
    requires off + |x| <= |b|
    ensures Splice(b, off, x)[off..off + |x|] == x
  {
  }

  /** What was moved is found rs bytes further on. */
  lemma Moved(b: Bytes, at: nat, end: nat, rs: nat, pos: nat)
    requires at <= end && end + rs <= |b| && at + rs <= pos <= end
    ensures Splice(b, at + rs, b[at..end])[pos..pos + rs] == b[pos - rs..pos]
  {
    var m := Splice(b, at + rs, b[at..end]);
    var x, y := m[pos..pos + rs], b[pos - rs..pos];
    forall t | 0 <= t < rs ensures x[t] == y[t] { assert x[t] == m[pos + t] == b[at..end][pos + t - (at + rs)]; }
  }

  /** Room made by a move, and one record written into it. */
  function WithSlot(b: Bytes, base: nat, rs: nat, n: nat, u: nat, r: Bytes): (c: Bytes)
    requires u <= n && |r| == rs && Span(rs, u) <= Span(rs, n) && base + Span(rs, n) + rs <= |b|
    ensures |c| == |b|
  {
    var at := base + Span(rs, u);
    Splice(Splice(b, at + rs, b[at..base + Span(rs, n)]), at, r)
  }

  lemma SlotBelow(b: Bytes, base: nat, rs: nat, n: nat, u: nat, r: Bytes, i: nat)
    requires i < u <= n && |r| == rs && Span(rs, u) <= Span(rs, n) && base + Span(rs, n) + rs <= |b|
    requires base + Span(rs, i) + rs <= |b|
    ensures Slot(WithSlot(b, base, rs, n, u, r), base, rs, i) == Slot(b, base, rs, i)
  {
    hide Splice, Span;
    var at, pos := base + Span(rs, u), base + Span(rs, i);
    var x := b[at..base + Span(rs, n)];
    SpanMonotone(rs, i, u);
    Outside(Splice(b, at + rs, x), at, r, pos, pos + rs);
    Outside(b, at + rs, x, pos, pos + rs);
  }

  lemma SlotAt(b: Bytes, base: nat, rs: nat, n: nat, u: nat, r: Bytes)
    requires u <= n && |r| == rs && Span(rs, u) <= Span(rs, n) && base + Span(rs, n) + rs <= |b|
    ensures Slot(WithSlot(b, base, rs, n, u, r), base, rs, u) == r
  {
    hide Splice, Span;
    var at := base + Span(rs, u);
    Inside(Splice(b, at + rs, b[at..base + Span(rs, n)]), at, r);
  }

  lemma SlotAbove(b: Bytes, base: nat, rs: nat, n: nat, u: nat, r: Bytes, i: nat)
    requires u < i <= n && |r| == rs && Span(rs, u) <= Span(rs, n) && base + Span(rs, n) + rs <= |b|
    requires base + Span(rs, i) + rs <= |b|
    ensures base + Span(rs, i - 1) + rs <= |b|
    ensures Slot(WithSlot(b, base, rs, n, u, r), base, rs, i) == Slot(b, base, rs, i - 1)
  {
    hide Splice, Span;
    var at, pos := base + Span(rs, u), base + Span(rs, i);
    SpanMonotone(rs, u, i);
    SpanMonotone(rs, i - 1, n);
    Outside(Splice(b, at + rs, b[at..base + Span(rs, n)]), at, r, pos, pos + rs);
    Moved(b, at, base + Span(rs, n), rs, pos);
  }

  /** Making room by a move and writing one record inserts it among the records. */
  lemma RecordInserted(b: Bytes, base: nat, rs: nat, n: nat, u: nat, r: Bytes)
    requires base + Span(rs, n + 1) <= |b| && u <= n && |r| == rs && Span(rs, u) <= Span(rs, n)
    ensures Span(rs, n + 1) == Span(rs, n) + rs
    ensures Records(WithSlot(b, base, rs, n, u, r), base, rs, n + 1) == Insert(Records(b, base, rs, n), u, r)
  {
    hide WithSlot, Span, Slot;
    SpanMonotone(rs, n, n + 1);
    var c := WithSlot(b, base, rs, n, u, r);
    var s, t := Records(b, base, rs, n), Records(c, base, rs, n + 1);
    forall i | 0 <= i < n + 1 ensures t[i] == Insert(s, u, r)[i] {
      SpanMonotone(rs, i, n + 1);
      if i < u { SlotBelow(b, base, rs, n, u, r, i); }
      else if i == u { SlotAt(b, base, rs, n, u, r); }
      else { SlotAbove(b, base, rs, n, u, r, i); }
    }
  }
}
