/** Index pages in memory: searches, stores and splits on the bytes of a page, as the code performs them. */
module PageBuffer {
  import opened Options
  import opened Endian
  import opened LogCodec
  import opened RedoPage
  import opened BLinkPage
  import opened PageBytes
  import opened PageLog
  import CompoundKey

  lemma SlotOfRecords(b: Bytes, base: nat, rs: nat, n: nat, i: nat)
    requires base + Span(rs, n) <= |b| && i < n
    ensures 0 <= base + i * rs && base + i * rs + rs <= base + Span(rs, n)
    ensures Records(b, base, rs, n)[i] == b[base + i * rs..base + i * rs + rs]
  {
    SpanIsProduct(rs, i);
    SpanMonotone(rs, i, n);
  }

  class Buffer {
    const l: Layout
    const a: array<Byte>
    /** The page that the bytes represent. */
    ghost var p: Page

    ghost predicate Valid()
      reads this, a
    {
      LayoutOk(l) && a.Length == PAGE_SIZE && Represents(l, a[..], p) && Sorted(p.keys) && |p.keys| == |p.vals|
    }

    /** hdr.last_index + 1. */
    method Count() returns (n: nat)
      requires Valid()
      ensures n == |p.keys|
    {
      hide LayoutOk, RangeIs, RecordsAre, Sorted;
      n := (FromLE(a[LAST_AT..LAST_AT + 2]) + 1) % 0x1_0000;
      CountOf(l, a[..], p);
      assert a[..][LAST_AT..LAST_AT + 2] == a[LAST_AT..LAST_AT + 2];
    }

    method Level() returns (v: nat)
      requires Valid()
      ensures v == p.level
    {
      v := a[LEVEL_AT];
    }

    /** The bytes of record i. */
    method RecordAt(level: nat, i: nat) returns (r: Bytes)
      requires Valid() && level == p.level && i < |p.keys|
      ensures RecordIs(l, level, r, p.keys[i], p.vals[i]) && |r| == RecSize(l, level)
    {
      var rs := RecSize(l, level);
      SlotOfRecords(a[..], RecBase(l), rs, |p.keys|, i);
      r := a[RecBase(l) + i * rs..RecBase(l) + i * rs + rs];
      assert r == a[..][RecBase(l) + i * rs..RecBase(l) + i * rs + rs];
    }

    /** The sign of key kb against the key of record i. */
    method CompareAt(level: nat, kb: Bytes, i: nat) returns (s: int)
      requires Valid() && level == p.level && i < |p.keys| && |kb| == KeySize(l)
      ensures s == CompoundKey.Sign(KeyOf(l, kb) - p.keys[i])
    {
      hide Represents, Sorted, CompoundKey.Rank;
      var r := RecordAt(level, i);
      s := CompoundKey.CompareKeys(l.cols, kb, r[..KeySize(l)]);
    }

    /** The binary search of the page operations over records 0 to n - 1; record 0 is never looked at. It ends on an
        equal record, or on the last one that is not above k, if that is not the first. */
    method Probe(level: nat, kb: Bytes, n: nat) returns (left: nat, hit: bool)
      requires Valid() && level == p.level && |kb| == KeySize(l) && n == |p.keys| > 0
      ensures left < n && (hit ==> p.keys[left] == KeyOf(l, kb))
      ensures !hit ==> (left > 0 ==> p.keys[left] < KeyOf(l, kb)) && (left + 1 < n ==> KeyOf(l, kb) < p.keys[left + 1])
    {
      hide Represents, CompoundKey.Rank, LayoutOk;
      var right := n - 1;
      left, hit := 0, false;
      while left < right
        invariant left <= right < n && (left > 0 ==> p.keys[left] < KeyOf(l, kb))
        invariant right + 1 < n ==> KeyOf(l, kb) < p.keys[right + 1]
        decreases right - left
      {
        var mid := (left + right + 1) / 2;
        var s := CompareAt(level, kb, mid);
        if s > 0 { left := mid; }
        else if s < 0 { right := mid - 1; }
        else { return mid, true; }
      }
    }

    /** InternalPage::internal_page_search. */
    method SearchInternal(kb: Bytes) returns (c: Addr)
      requires Valid() && InternalShape(p) && p.keys != [] && |kb| == KeySize(l)
      ensures c == Route(p, KeyOf(l, kb))
    {
      hide LayoutOk, RangeIs, RecordsAre, CompoundKey.Rank, Upper;
      ghost var k := KeyOf(l, kb);
      var n := Count();
      var level := Level();
      var s := CompareAt(level, kb, 0);
      if s < 0 {
        UpperUnique(p.keys, k, 0);
        assert a[..][LEFTMOST_AT..LEFTMOST_AT + 8] == a[LEFTMOST_AT..LEFTMOST_AT + 8];
        return FromLE(a[LEFTMOST_AT..LEFTMOST_AT + 8]);
      }
      var left, hit := Probe(level, kb, n);
      UpperUnique(p.keys, k, left + 1);
      var r := RecordAt(level, left);
      c := FromLE(r[KeySize(l)..]);
    }

    /** LeafPage::leaf_page_search; the code takes for granted that the leaf is not empty. */
    method SearchLeaf(kb: Bytes) returns (r: Option<Bytes>)
      requires Valid() && LeafShape(p) && p.keys != [] && |kb| == KeySize(l)
      ensures r == Get(p, KeyOf(l, kb))
    {
      hide Represents, LayoutOk, CompoundKey.Rank, Upper;
      ghost var k := KeyOf(l, kb);
      var n := Count();
      var left, hit := Probe(0, kb, n);
      if hit {
        FindAt(p.keys, k, left);
        var row := RecordAt(0, left);
        return Some(row);
      }
      var s := CompareAt(0, kb, left);
      if s == 0 {
        FindAt(p.keys, k, left);
        var row := RecordAt(0, left);
        return Some(row);
      }
      UpperUnique(p.keys, k, if s > 0 then left + 1 else 0);
      return None;
    }

    /** The shift loop of internal_page_store: record by record, from the last one down. */
    method ShiftRecords(rs: nat, u: nat, n: nat)
      requires a.Length == PAGE_SIZE && u <= n && RecBase(l) + Span(rs, n) + rs <= PAGE_SIZE &&
               Span(rs, u) <= Span(rs, n)
      modifies a
      ensures var at := RecBase(l) + Span(rs, u);
              a[..] == Splice(old(a[..]), at + rs, old(a[..])[at..RecBase(l) + Span(rs, n)])
    {
      hide Splice;
      ghost var b, base := a[..], RecBase(l);
      SpanIsProduct(rs, n);
      var i, to := n, RecBase(l) + n * rs;
      NothingMoved(b, to, rs);
      while i > u
        invariant u <= i <= n && to == base + Span(rs, i) && Span(rs, i) <= Span(rs, n)
        invariant a[..] == Splice(b, to + rs, b[to..base + Span(rs, n)])
      {
        SpanMonotone(rs, i - 1, n);
        OneMoved(b, to, base + Span(rs, n), rs);
        CopyInto(a, to, a[..][to - rs..to]);
        i, to := i - 1, to - rs;
      }
    }

    /** The record goes into the room made for it; then the last index and the version follow. */
    method PutRecord(level: nat, n: nat, u: nat, rec: Bytes, version: nat, ghost k: Key, ghost v: Val, ghost b: Image)
      requires LayoutOk(l) && a.Length == PAGE_SIZE && Represents(l, b, p) && Sorted(p.keys) && |p.keys| == |p.vals|
      requires level == p.level && n == |p.keys| < Capacity(level) && u == Upper(p.keys, k) && k !in p.keys
      requires RecordIs(l, level, rec, k, v) && |rec| == RecSize(l, level) && version == p.version + 1 < U64
      requires RecBase(l) + Span(RecSize(l, level), n + 1) <= PAGE_SIZE &&
               Span(RecSize(l, level), u) <= Span(RecSize(l, level), n)
      requires var at := RecBase(l) + Span(RecSize(l, level), u);
               a[..] == Splice(b, at + RecSize(l, level), b[at..RecBase(l) + Span(RecSize(l, level), n)])
      modifies this, a
      ensures Valid() && p == WithRecord(old(p), k, v)
    {
      hide LayoutOk, RecSize, RecBase, Represents, RecordIs, LastIndex, Splice, Span, Upper, Capacity, WithVersion;
      var rs := RecSize(l, level);
      StoreReplayed(l, b, p, k, v, rec);
      StoreOpsAre(l, level, b, n, u, rec);
      WithRecordSorted(p, k, v);
      SpanIsProduct(rs, u);
      KeyInRecord(l, level);
      SpanMonotone(rs, u, n + 1);
      SpanMonotone(rs, u, n);
      CopyInto(a, RecBase(l) + u * rs, rec);
      CopyInto(a, LAST_AT, LastIndex(n + 1));
      SetVersion(a, version);
      p := WithRecord(p, k, v);
    }

    method ReadVersion() returns (v: nat)
      requires Valid()
      ensures v == p.version
    {
      hide LayoutOk, RangeIs, RecordsAre, Sorted;
      assert a[..][VERSION_AT..VERSION_AT + 8] == a[VERSION_AT..VERSION_AT + 8];
      v := FromLE(a[VERSION_AT..VERSION_AT + 8]);
    }

    /** InternalPage::internal_page_store: the record goes in behind the separators below it. A separator that is there
        already makes the code throw. The operations are those to log. */
    method StoreInternal(kb: Bytes, child: Addr) returns (ops: seq<Op>)
      requires Valid() && InternalShape(p) && 0 < |p.keys| < Capacity(p.level) && |kb| == KeySize(l) && child < U64
      requires KeyOf(l, kb) !in p.keys && p.version + 1 < U64
      modifies this, a
      ensures Valid() && p == InternalPut(old(p), KeyOf(l, kb), child)
      ensures var q, k := old(p), KeyOf(l, kb);
              ops == StoreOps(l, q.level, |q.keys|, Upper(q.keys, k), kb + ToLE(child, 8))
    {
      hide Represents, LayoutOk, CompoundKey.Rank, Upper, RecBase, Splice, Span, ToLE, Sorted;
      ghost var k := KeyOf(l, kb);
      var n := Count();
      var level := Level();
      var version := ReadVersion();
      var s := CompareAt(level, kb, 0);
      var u := 0;
      if s >= 0 {
        var left, hit := Probe(level, kb, n);
        u := left + 1;
      }
      UpperUnique(p.keys, k, u);
      var rec := kb + ToLE(child, 8);
      ChildRecord(l, level, kb, child);
      PageFits(l, level, n + 1);
      SpanMonotone(RecSize(l, level), u, n);
      SpanMonotone(RecSize(l, level), n, n + 1);
      ops := StoreOps(l, level, n, u, rec);
      ghost var b := a[..];
      ShiftRecords(RecSize(l, level), u, n);
      PutRecord(level, n, u, rec, version + 1, k, Child(child), b);
    }

    /** The slot of an equal key, or the slot where a new one belongs. */
    method LeafSlot(kb: Bytes, n: nat) returns (u: nat, equal: bool)
      requires Valid() && LeafShape(p) && |kb| == KeySize(l) && n == |p.keys|
      ensures equal ==> u < n && p.keys[u] == KeyOf(l, kb)
      ensures !equal ==> u == Upper(p.keys, KeyOf(l, kb)) && KeyOf(l, kb) !in p.keys && Find(p.keys, KeyOf(l, kb)).None?
    {
      hide Represents, LayoutOk, CompoundKey.Rank, Upper;
      ghost var k := KeyOf(l, kb);
      u, equal := 0, false;
      if n > 0 {
        var left, hit := Probe(0, kb, n);
        var s := CompareAt(0, kb, left);
        if s == 0 { return left, true; }
        if s > 0 { u := left + 1; }
      }
      UpperUnique(p.keys, k, u);
      if k in p.keys { FindComplete(p.keys, k); }
    }

    /** LeafPage::leaf_page_store: an equal key is overwritten where it is, and nothing is logged then; otherwise the
        row goes in behind the keys below it, and the operations are those to log. */
    method StoreLeaf(kb: Bytes, row: Bytes) returns (ops: Option<seq<Op>>)
      requires Valid() && LeafShape(p) && |p.keys| < Capacity(0) && |kb| == KeySize(l)
      requires |row| == l.rowSize && row[..KeySize(l)] == kb && p.version + 1 < U64
      modifies this, a
      ensures Valid() && p == LeafPut(old(p), KeyOf(l, kb), row)
      ensures var q, k := old(p), KeyOf(l, kb);
              ops == if Find(q.keys, k).Some? then None else Some(StoreOps(l, 0, |q.keys|, Upper(q.keys, k), row))
    {
      hide Represents, LayoutOk, CompoundKey.Rank, Upper, RecBase, Splice, Span, Sorted, StoreOps, LeafShape, Capacity;
      ghost var k := KeyOf(l, kb);
      var n := Count();
      var version := ReadVersion();
      var u, equal := LeafSlot(kb, n);
      if equal {
        Overwrite(u, kb, row);
        return None;
      }
      LevelOf(p);
      RowRecord(l, row, k);
      PageFits(l, 0, n + 1);
      SpanMonotone(l.rowSize, u, n);
      SpanMonotone(l.rowSize, n, n + 1);
      ops := Some(StoreOps(l, 0, n, u, row));
      ghost var b := a[..];
      MakeRoom(u, n);
      PutRecord(0, n, u, row, version + 1, k, Row(row), b);
    }

    /** The memmove of leaf_page_store. */
    method MakeRoom(u: nat, n: nat)
      requires a.Length == PAGE_SIZE && u <= n && RecBase(l) + Span(l.rowSize, n) + l.rowSize <= PAGE_SIZE
      requires Span(l.rowSize, u) <= Span(l.rowSize, n)
      modifies a
      ensures var at := RecBase(l) + Span(l.rowSize, u);
              a[..] == Splice(old(a[..]), at + l.rowSize, old(a[..])[at..RecBase(l) + Span(l.rowSize, n)])
    {
      hide Splice;
      SpanIsProduct(l.rowSize, u);
      SpanIsProduct(l.rowSize, n);
      var at := RecBase(l) + u * l.rowSize;
      if u < n { MoveWithin(a, at + l.rowSize, at, n * l.rowSize - u * l.rowSize); }
      else { NothingMoved(a[..], at, l.rowSize); }
    }

    method Overwrite(i: nat, kb: Bytes, row: Bytes)
      requires Valid() && LeafShape(p) && i < |p.keys| && |kb| == KeySize(l) && p.keys[i] == KeyOf(l, kb)
      requires |row| == l.rowSize && row[..KeySize(l)] == kb
      modifies this, a
      ensures Valid() && p == LeafPut(old(p), KeyOf(l, kb), row) && Find(old(p).keys, KeyOf(l, kb)).Some?
    {
      hide Splice, CompoundKey.Rank, Upper, LayoutOk, Represents, RecBase, Span, Records;
      RecordsFit(l, a[..], p);
      FindAt(p.keys, KeyOf(l, kb), i);
      SlotOfRecords(a[..], RecBase(l), l.rowSize, |p.keys|, i);
      RowReplaced(l, a[..], p, i, row);
      CopyInto(a, RecBase(l) + i * l.rowSize, row);
      p := p.(vals := p.vals[i := Row(row)]);
    }

    /** A page that its constructor has just set up for the given level. */
    ghost predicate IsNew(level: nat)
      reads this, a
    {
      LayoutOk(l) && a.Length == PAGE_SIZE && a[LEVEL_AT] == level && Version(a[..]) == 1
    }

    /** The copy loop of a leaf split: the same bytes, once for every record that moves. */
    method CopyTimes(recs: Bytes, times: nat)
      requires a.Length == PAGE_SIZE && RecBase(l) + |recs| <= PAGE_SIZE && times > 0
      modifies a
      ensures a[..] == Splice(old(a[..]), RecBase(l), recs)
    {
      hide Splice;
      ghost var b := a[..];
      for i := 0 to times
        invariant a[..] == if i == 0 then b else Splice(b, RecBase(l), recs)
      {
        CopyInto(a, RecBase(l), recs);
        SpliceAgain(b, RecBase(l), recs);
      }
    }

    /** The copy loop of an internal split: record by record. */
    method CopyEach(src: array<Byte>, rs: nat, from: nat, n: nat)
      requires a.Length == src.Length == PAGE_SIZE && src != a && from <= n && RecBase(l) + Span(rs, n) <= PAGE_SIZE
      requires Span(rs, from) <= Span(rs, n)
      modifies a
      ensures a[..] == Splice(old(a[..]), RecBase(l), src[..][RecBase(l) + Span(rs, from)..RecBase(l) + Span(rs, n)])
    {
      hide Splice, RecBase, Span;
      ghost var b, c, base, first := a[..], src[..], RecBase(l), RecBase(l) + Span(rs, from);
      var at, to := RecBase(l) + from * rs, RecBase(l);
      SpanIsProduct(rs, from);
      SpliceNone(b, base);
      for i := from to n
        invariant first <= at == base + Span(rs, i) <= base + Span(rs, n) && to == base + (at - first)
        invariant a[..] == Splice(b, base, c[first..at])
      {
        SpanMonotone(rs, i, n);
        CopyInto(a, to, src[..][at..at + rs]);
        OneMoreCopied(b, c, base, first, at, rs);
        at, to := at + rs, to + rs;
      }
    }

    /** The sibling of a split: records from slot from on, and the middle key as its lowest. */
    method FillFrom(from_: Buffer, level: nat, n: nat, from: nat, mid: Bytes, left: Bytes, ghost q: Page)
      requires IsNew(level) && from_.Valid() && from_.l == l && from_.a != a && level == from_.p.level &&
               n == |from_.p.keys|
      requires from <= n && (level == 0 ==> from < n) && |mid| == KeySize(l) && |left| == 8
      requires q == Page(level, KeyOf(l, mid), from_.p.highest, FromLE(left), from_.p.sibling, from_.p.keys[from..],
                         from_.p.vals[from..], 1)
      modifies this, a
      ensures Valid() && p == q
    {
      hide LayoutOk, RecSize, RecBase, KeySize, Represents, Splice, Span, Sorted, LastIndex, CompoundKey.Rank,
           Version, FromLE;
      ghost var b, c := a[..], from_.a[..];
      var rs, ks, base := RecSize(l, level), KeySize(l), RecBase(l);
      SuffixSorted(from_.p.keys, from);
      RecordsFit(l, c, from_.p);
      BaseIs(l);
      SpanIsProduct(rs, from);
      SpanIsProduct(rs, n);
      SpanMonotone(rs, from, n);
      var recs := from_.a[..][base + from * rs..base + n * rs];
      SiblingWritten(l, b, c, from_.p, q, from, mid, left, recs);
      if level == 0 { CopyTimes(recs, n - from); } else { CopyEach(from_.a, rs, from, n); }
      CopyInto(a, LAST_AT, LastIndex(n - from));
      CopyInto(a, LEFTMOST_AT, left);
      CopyInto(a, DATA_AT + ks, mid);
      CopyInto(a, DATA_AT, from_.a[..][DATA_AT..DATA_AT + ks]);
      CopyInto(a, SIBLING_AT, from_.a[..][SIBLING_AT..SIBLING_AT + 8]);
      p := q;
    }

    /** The writes of a split to the old page; the version goes up as the split is logged. */
    method Shrink(m: nat, mid: Bytes, sib: Addr, version: nat)
      requires Valid() && m < |p.keys| && |mid| == KeySize(l) && sib < U64 && version == p.version + 1 < U64
      modifies this, a
      ensures Valid()
      ensures p == old(p).(keys := old(p).keys[..m], vals := old(p).vals[..m], highest := KeyOf(l, mid), sibling := sib,
                           version := version)
    {
      hide LayoutOk, RecBase, KeySize, Represents, Heads, Splice, Sorted, LastIndex, CompoundKey.Rank, ToLE, FromLE,
           WithVersion, Version;
      ghost var b := a[..];
      ghost var q := p.(keys := p.keys[..m], vals := p.vals[..m], highest := KeyOf(l, mid), sibling := sib,
                         version := version);
      SuffixSorted(p.keys, m);
      RepresentsHeads(l, b, p);
      SplitSources(l, b, p);
      AddressBytes(sib);
      SplitWritten(l, b, p, q, LastIndex(m), ToLE(sib, 8), mid);
      CopyInto(a, LAST_AT, LastIndex(m));
      CopyInto(a, SIBLING_AT, ToLE(sib, 8));
      CopyInto(a, DATA_AT, mid);
      SetVersion(a, version);
      p := q;
    }

    /** The split of a full leaf in Btr::leaf_page_store. */
    method SplitLeaf(right: Buffer, sib: Addr)
      requires Valid() && LeafShape(p) && |p.keys| >= 2 && sib < U64 && p.version + 1 < U64
      requires right.IsNew(0) && right.l == l && right.a != a && right != this
      modifies this, a, right, right.a
      ensures Valid() && right.Valid() && p == SplitLeft(old(p), sib) && right.p == SplitRight(old(p))
    {
      hide LayoutOk, Represents, Sorted, CompoundKey.Rank, ToLE, FromLE, Version, KeySize, RecSize;
      LevelOf(p);
      var n := Count();
      var version := ReadVersion();
      var m := n / 2;
      var rec := RecordAt(0, m);
      KeyInRecord(l, 0);
      RecordKey(l, 0, rec, p.keys[m], p.vals[m]);
      AddressBytes(0);
      var mid := rec[..KeySize(l)];
      right.FillFrom(this, 0, n, m, mid, ToLE(0, 8), SplitRight(p));
      Shrink(m, mid, sib, version + 1);
    }

    /** The split of a full internal page in Btr::internal_page_store: the middle key leaves the level. */
    method SplitInternal(right: Buffer, sib: Addr)
      requires Valid() && InternalShape(p) && |p.keys| >= 2 && sib < U64 && p.version + 1 < U64
      requires right.IsNew(p.level) && right.l == l && right.a != a && right != this
      modifies this, a, right, right.a
      ensures Valid() && right.Valid() && p == SplitLeft(old(p), sib) && right.p == SplitRight(old(p))
    {
      hide LayoutOk, Represents, Sorted, CompoundKey.Rank, ToLE, FromLE, Version, KeySize, RecSize;
      var n := Count();
      var level := Level();
      var version := ReadVersion();
      var m := n / 2;
      var rec := RecordAt(level, m);
      KeyInRecord(l, level);
      RecordKey(l, level, rec, p.keys[m], p.vals[m]);
      var mid := rec[..KeySize(l)];
      right.FillFrom(this, level, n, m + 1, mid, rec[KeySize(l)..], SplitRight(p));
      Shrink(m, mid, sib, version + 1);
    }

    /** The page that update_new_root builds over an old root and its new sibling. */
    method MakeRoot(level: nat, low: Bytes, high: Bytes, left: Addr, kb: Bytes, right: Addr)
      requires IsNew(level) && level > 0 && |low| == |high| == |kb| == KeySize(l) && left < U64 && right < U64
      requires KeyOf(l, low) == MIN_KEY && KeyOf(l, high) == MAX_KEY
      modifies this, a
      ensures Valid() && p == NewRoot(left, KeyOf(l, kb), right, level)
    {
      hide LayoutOk, RecSize, RecBase, KeySize, Represents, Splice, Span, LastIndex, CompoundKey.Rank, Version,
           FromLE, ToLE;
      var rec := kb + ToLE(right, 8);
      BaseIs(l);
      RootFits(l, level, kb, right);
      RootWritten(l, a[..], level, low, high, left, kb, right);
      CopyInto(a, RecBase(l), rec);
      CopyInto(a, LAST_AT, LastIndex(1));
      CopyInto(a, LEFTMOST_AT, ToLE(left, 8));
      CopyInto(a, DATA_AT + KeySize(l), low);
      CopyInto(a, DATA_AT, high);
      CopyInto(a, SIBLING_AT, ToLE(NULL, 8));
      p := NewRoot(left, KeyOf(l, kb), right, level);
    }
  }

  lemma RootFits(l: Layout, level: nat, kb: Bytes, right: Addr)
    requires LayoutOk(l) && level > 0 && |kb| == KeySize(l)
    ensures |kb + ToLE(right, 8)| == RecSize(l, level) == Span(RecSize(l, level), 1)
    ensures RecBase(l) + RecSize(l, level) <= PAGE_SIZE
  {
    hide ToLE;
    PageFits(l, level, 1);
    hide LayoutOk;
    assert Span(RecSize(l, level), 0) == 0;
  }

  lemma RootWritten(l: Layout, b: Image, level: nat, low: Bytes, high: Bytes, left: Addr, kb: Bytes, right: Addr)
    requires LayoutOk(l) && level > 0 && |low| == |high| == |kb| == KeySize(l) && left < U64 && right < U64
    requires b[LEVEL_AT] == level && Version(b) == 1 && KeyOf(l, low) == MIN_KEY && KeyOf(l, high) == MAX_KEY
    requires DATA_AT + 2 * |low| + |kb| + 8 <= PAGE_SIZE
    ensures Represents(l, Filled(b, kb + ToLE(right, 8), LastIndex(1), ToLE(left, 8), low, high, ToLE(NULL, 8)),
                       NewRoot(left, KeyOf(l, kb), right, level))
  {
    hide LayoutOk, RecSize, RecBase, KeySize, Span, LastIndex, CompoundKey.Rank, Version, FromLE, ToLE, Filled,
         RecordIs;
    var rec, q, rs, base := kb + ToLE(right, 8), NewRoot(left, KeyOf(l, kb), right, level), RecSize(l, level),
      RecBase(l);
    BaseIs(l);
    RootFits(l, level, kb, right);
    ChildRecord(l, level, kb, right);
    AddressBytes(left);
    AddressBytes(NULL);
    FilledIs(b, rec, LastIndex(1), ToLE(left, 8), low, high, ToLE(NULL, 8));
    var e := Filled(b, rec, LastIndex(1), ToLE(left, 8), low, high, ToLE(NULL, 8));
    VersionSlice(b, e);
    RangeSet(l, e, q);
    FirstSlot(e, base, rs);
  }

  lemma VersionSlice(b: Image, e: Image)
    requires e[VERSION_AT..VERSION_AT + 8] == b[VERSION_AT..VERSION_AT + 8]
    ensures Version(e) == Version(b)
  {
  }

  lemma FirstSlot(e: Bytes, base: nat, rs: nat)
    requires base + Span(rs, 1) <= |e| && Span(rs, 1) == rs
    ensures Records(e, base, rs, 1) == [e[base..base + rs]]
  {
    assert Span(rs, 0) == 0;
  }

  lemma AddressBytes(a: Addr)
    requires a < U64
    ensures |ToLE(a, 8)| == 8 && FromLE(ToLE(a, 8)) == a
  {
    assert Pow256(2) == 0x1_0000 && Pow256(4) == U32 && Pow256(6) == 0x1_0000_0000_0000 && Pow256(8) == U64;
    LERoundTrip(a, 8);
  }

  lemma RecordKey(l: Layout, level: nat, r: Bytes, k: Key, v: Val)
    requires LayoutOk(l) && KeySize(l) <= |r| && RecordIs(l, level, r, k, v)
    ensures KeyOf(l, r[..KeySize(l)]) == k
    ensures level > 0 ==> |r[KeySize(l)..]| == 8 && v.Child? && FromLE(r[KeySize(l)..]) == v.addr
  {
    hide CompoundKey.Rank, FromLE;
  }

  lemma SpliceAgain(b: Bytes, at: nat, x: Bytes)
    requires at + |x| <= |b|
    ensures Splice(Splice(b, at, x), at, x) == Splice(b, at, x)
  {
  }

  lemma OneMoreCopied(b: Bytes, c: Bytes, base: nat, first: nat, at: nat, rs: nat)
    requires first <= at && at + rs <= |c| && base + (at - first) + rs <= |b|
    ensures Splice(Splice(b, base, c[first..at]), base + (at - first), c[at..at + rs]) ==
            Splice(b, base, c[first..at + rs])
  {
    SpliceTwice(b, base, c[first..at], c[at..at + rs]);
    assert c[first..at] + c[at..at + rs] == c[first..at + rs];
  }

  lemma SuffixSorted(keys: seq<Key>, m: nat)
    requires Sorted(keys) && m <= |keys|
    ensures Sorted(keys[m..]) && Sorted(keys[..m])
  {
  }

  lemma {:induction false} SpanAdd(rs: nat, i: nat, j: nat)
    ensures Span(rs, i + j) == Span(rs, i) + Span(rs, j)
  {
    if j > 0 { SpanAdd(rs, i, j - 1); }
  }

  lemma ShiftedSlices(b: Bytes, c: Bytes, x: nat, y: nat, n: nat, s: nat, r: nat)
    requires x + n <= |b| && y + n <= |c| && c[y..y + n] == b[x..x + n] && s + r <= n
    ensures c[y + s..y + s + r] == b[x + s..x + s + r]
  {
    var u, v := c[y + s..y + s + r], b[x + s..x + s + r];
    forall t | 0 <= t < r ensures u[t] == v[t] { assert u[t] == c[y..y + n][s + t] && v[t] == b[x..x + n][s + t]; }
  }

  /** The records of a page from slot m on, copied to the front of another page. */
  lemma RecordsSuffix(b: Bytes, c: Bytes, base: nat, rs: nat, n: nat, m: nat)
    requires |b| == |c| && m <= n && base + Span(rs, n) <= |b| && Span(rs, m) <= Span(rs, n)
    requires c[base..base + (Span(rs, n) - Span(rs, m))] == b[base + Span(rs, m)..base + Span(rs, n)]
    ensures base + Span(rs, n - m) <= |c| && Records(c, base, rs, n - m) == Records(b, base, rs, n)[m..]
  {
    hide Span, Slot;
    SpanAdd(rs, m, n - m);
    var s, t := Records(b, base, rs, n), Records(c, base, rs, n - m);
    forall i | 0 <= i < n - m ensures t[i] == s[m..][i] {
      SpanMonotone(rs, i, n - m);
      SpanMonotone(rs, m + i, n);
      SlotSuffix(b, c, base, rs, n, m, i);
    }
  }

  lemma SlotSuffix(b: Bytes, c: Bytes, base: nat, rs: nat, n: nat, m: nat, i: nat)
    requires |b| == |c| && m + i < n && base + Span(rs, n) <= |b| && Span(rs, m) <= Span(rs, n)
    requires c[base..base + (Span(rs, n) - Span(rs, m))] == b[base + Span(rs, m)..base + Span(rs, n)]
    requires base + Span(rs, i) + rs <= |c| && base + Span(rs, m + i) + rs <= |b|
    ensures Slot(c, base, rs, i) == Slot(b, base, rs, m + i)
  {
    hide Span;
    SpanAdd(rs, m, i);
    SpanMonotone(rs, m + i, n);
    ShiftedSlices(b, c, base + Span(rs, m), base, Span(rs, n) - Span(rs, m), Span(rs, i), rs);
  }

  lemma SuffixAre(l: Layout, level: nat, s: seq<Bytes>, keys: seq<Key>, vals: seq<Val>, m: nat)
    requires LayoutOk(l) && RecordsAre(l, level, s, keys, vals) && m <= |s|
    ensures RecordsAre(l, level, s[m..], keys[m..], vals[m..])
  {
    hide RecordIs;
    forall i | 0 <= i < |s| - m ensures RecordIs(l, level, s[m..][i], keys[m..][i], vals[m..][i]) {
      assert RecordIs(l, level, s[m + i], keys[m + i], vals[m + i]);
    }
  }

  /** The six writes that fill a sibling: records, last index, leftmost child, range keys, right link. */
  function Filled(b: Image, recs: Bytes, last: Bytes, left: Bytes, low: Bytes, high: Bytes, sib: Bytes): Image
    requires |last| == 2 && |left| == 8 && |sib| == 8 && |low| == |high| && DATA_AT + 2 * |low| + |recs| <= PAGE_SIZE
  {
    var ks := |low|;
    Splice(Splice(Splice(Splice(Splice(Splice(b, DATA_AT + 2 * ks, recs), LAST_AT, last), LEFTMOST_AT, left),
                         DATA_AT + ks, low), DATA_AT, high), SIBLING_AT, sib)
  }

  lemma FilledIs(b: Image, recs: Bytes, last: Bytes, left: Bytes, low: Bytes, high: Bytes, sib: Bytes)
    requires |last| == 2 && |left| == 8 && |sib| == 8 && |low| == |high| && DATA_AT + 2 * |low| + |recs| <= PAGE_SIZE
    ensures var ks, base, e := |low|, DATA_AT + 2 * |low|, Filled(b, recs, last, left, low, high, sib);
            && e[base..base + |recs|] == recs && e[LAST_AT..LAST_AT + 2] == last
            && e[LEFTMOST_AT..LEFTMOST_AT + 8] == left
            && e[DATA_AT + ks..base] == low && e[DATA_AT..DATA_AT + ks] == high && e[SIBLING_AT..SIBLING_AT + 8] == sib
            && e[LEVEL_AT] == b[LEVEL_AT] && e[VERSION_AT..VERSION_AT + 8] == b[VERSION_AT..VERSION_AT + 8]
  {
    hide Splice;
    var ks, base := |low|, DATA_AT + 2 * |low|;
    var e3 := Splice(Splice(Splice(b, base, recs), LAST_AT, last), LEFTMOST_AT, left);
    var e4 := Splice(e3, DATA_AT + ks, low);
    var e5 := Splice(e4, DATA_AT, high);
    RecordsOfFilled(b, recs, last, left, low, high, sib);
    HeadOfFilled(b, recs, last, left, low, high, sib);
    Inside(e3, DATA_AT + ks, low);
    Outside(e4, DATA_AT, high, DATA_AT + ks, base);
    Outside(e5, SIBLING_AT, sib, DATA_AT + ks, base);
    Inside(e4, DATA_AT, high);
    Outside(e5, SIBLING_AT, sib, DATA_AT, DATA_AT + ks);
    Inside(e5, SIBLING_AT, sib);
  }

  lemma RecordsOfFilled(b: Image, recs: Bytes, last: Bytes, left: Bytes, low: Bytes, high: Bytes, sib: Bytes)
    requires |last| == 2 && |left| == 8 && |sib| == 8 && |low| == |high| && DATA_AT + 2 * |low| + |recs| <= PAGE_SIZE
    ensures var base := DATA_AT + 2 * |low|; Filled(b, recs, last, left, low, high, sib)[base..base + |recs|] == recs
  {
    hide Splice;
    var ks, base := |low|, DATA_AT + 2 * |low|;
    var e1 := Splice(b, base, recs);
    var e2 := Splice(e1, LAST_AT, last);
    var e3 := Splice(e2, LEFTMOST_AT, left);
    var e4 := Splice(e3, DATA_AT + ks, low);
    var e5 := Splice(e4, DATA_AT, high);
    Inside(b, base, recs);
    Outside(e1, LAST_AT, last, base, base + |recs|);
    Outside(e2, LEFTMOST_AT, left, base, base + |recs|);
    Outside(e3, DATA_AT + ks, low, base, base + |recs|);
    Outside(e4, DATA_AT, high, base, base + |recs|);
    Outside(e5, SIBLING_AT, sib, base, base + |recs|);
  }

  lemma HeadOfFilled(b: Image, recs: Bytes, last: Bytes, left: Bytes, low: Bytes, high: Bytes, sib: Bytes)
    requires |last| == 2 && |left| == 8 && |sib| == 8 && |low| == |high| && DATA_AT + 2 * |low| + |recs| <= PAGE_SIZE
    ensures var e := Filled(b, recs, last, left, low, high, sib);
            && e[LAST_AT..LAST_AT + 2] == last && e[LEFTMOST_AT..LEFTMOST_AT + 8] == left
            && e[LEVEL_AT] == b[LEVEL_AT] && e[VERSION_AT..VERSION_AT + 8] == b[VERSION_AT..VERSION_AT + 8]
  {
    var e := Filled(b, recs, last, left, low, high, sib);
    forall t | 0 <= t < 2 ensures e[LAST_AT + t] == last[t] {}
    forall t | 0 <= t < 8 ensures e[LEFTMOST_AT + t] == left[t] && e[VERSION_AT + t] == b[VERSION_AT + t] {}
  }

  /** The bytes of a filled sibling represent it. */
  lemma SiblingWritten(l: Layout, b: Image, c: Image, p: Page, q: Page, from: nat, mid: Bytes, left: Bytes, recs: Bytes)
    requires LayoutOk(l) && Represents(l, c, p) && |p.keys| == |p.vals| && from <= |p.keys| && |mid| == KeySize(l) &&
             |left| == 8
    requires b[LEVEL_AT] == p.level && Version(b) == 1
    requires q == Page(p.level, KeyOf(l, mid), p.highest, FromLE(left), p.sibling, p.keys[from..], p.vals[from..], 1)
    requires var rs, base, n := RecSize(l, p.level), RecBase(l), |p.keys|;
             && base + Span(rs, n) <= PAGE_SIZE && Span(rs, from) <= Span(rs, n) && base == DATA_AT + 2 * |mid|
             && recs == c[base + Span(rs, from)..base + Span(rs, n)]
    ensures Represents(l, Filled(b, recs, LastIndex(|p.keys| - from), left, mid, c[DATA_AT..DATA_AT + |mid|],
                                 c[SIBLING_AT..SIBLING_AT + 8]), q)
  {
    hide LayoutOk, RecSize, RecBase, Span, Slot, KeySize, RecordsAre, CompoundKey.Rank, LastIndex, FromLE, Version,
         HeaderIs, RangeIs, Capacity, Filled, Heads;
    var rs, ks, base, n := RecSize(l, p.level), |mid|, RecBase(l), |p.keys|;
    RepresentsHeads(l, c, p);
    SplitSources(l, c, p);
    var high, sib := c[DATA_AT..DATA_AT + ks], c[SIBLING_AT..SIBLING_AT + 8];
    FilledIs(b, recs, LastIndex(n - from), left, mid, high, sib);
    var e := Filled(b, recs, LastIndex(n - from), left, mid, high, sib);
    RecordsSuffix(c, e, base, rs, n, from);
    SuffixAre(l, p.level, Records(c, base, rs, n), p.keys, p.vals, from);
    SiblingHeader(e, b, c, p, q);
    RangeSet(l, e, q);
  }

  lemma SiblingHeader(e: Image, b: Image, c: Image, p: Page, q: Page)
    requires HeaderIs(c, p) && q.level == p.level && q.sibling == p.sibling && q.version == 1 && Version(b) == 1
    requires FromLE(e[LEFTMOST_AT..LEFTMOST_AT + 8]) == q.leftmost && e[LAST_AT..LAST_AT + 2] == LastIndex(|q.keys|)
    requires e[SIBLING_AT..SIBLING_AT + 8] == c[SIBLING_AT..SIBLING_AT + 8] && e[LEVEL_AT] == p.level
    requires e[VERSION_AT..VERSION_AT + 8] == b[VERSION_AT..VERSION_AT + 8]
    ensures HeaderIs(e, q)
  {
    hide FromLE, LastIndex;
  }

  lemma RangeSet(l: Layout, e: Image, q: Page)
    requires LayoutOk(l) && RecBase(l) <= PAGE_SIZE
    requires KeyOf(l, e[DATA_AT..DATA_AT + KeySize(l)]) == q.highest &&
             KeyOf(l, e[DATA_AT + KeySize(l)..RecBase(l)]) == q.lowest
    ensures RangeIs(l, e, q)
  {
  }

  lemma ChildRecord(l: Layout, level: nat, kb: Bytes, child: Addr)
    requires LayoutOk(l) && level > 0 && |kb| == KeySize(l) && child < U64
    ensures var rec := kb + ToLE(child, 8);
            |rec| == RecSize(l, level) && RecordIs(l, level, rec, KeyOf(l, kb), Child(child))
  {
    hide CompoundKey.Rank, LayoutOk;
    assert Pow256(2) == 0x1_0000 && Pow256(4) == U32 && Pow256(6) == 0x1_0000_0000_0000 && Pow256(8) == U64;
    LERoundTrip(child, 8);
    hide ToLE, FromLE;
    var rec := kb + ToLE(child, 8);
    assert rec[..KeySize(l)] == kb && rec[KeySize(l)..] == ToLE(child, 8);
  }

  /** Writing over one row leaves the rest as it was. */
  lemma RowReplaced(l: Layout, b: Image, p: Page, i: nat, row: Bytes)
    requires LayoutOk(l) && Represents(l, b, p) && p.level == 0 && i < |p.keys| == |p.vals|
    requires |row| == l.rowSize && KeyOf(l, row[..KeySize(l)]) == p.keys[i]
    requires RecBase(l) + i * l.rowSize + l.rowSize <= RecBase(l) + Span(l.rowSize, |p.keys|) && i * l.rowSize >= 0
    ensures Represents(l, Splice(b, RecBase(l) + i * l.rowSize, row), p.(vals := p.vals[i := Row(row)]))
  {
    hide LayoutOk, CompoundKey.Rank, FromLE, Version, LastIndex, RecordIs, KeySize;
    var base, rs, n := RecBase(l), l.rowSize, |p.keys|;
    SpanIsProduct(rs, i);
    KeyInRecord(l, 0);
    BaseIs(l);
    var at := base + Span(rs, i);
    var c, q := Splice(b, at, row), p.(vals := p.vals[i := Row(row)]);
    assert c[..base] == b[..base];
    HeaderFront(b, c, base, p, q);
    RangeFront(l, b, c, p, q);
    var s, t := Records(b, base, rs, n), Records(c, base, rs, n);
    forall j | 0 <= j < n ensures RecordIs(l, 0, t[j], q.keys[j], q.vals[j]) {
      SpanMonotone(rs, j, n);
      if j < i { SpanMonotone(rs, j, i); } else if j > i { SpanMonotone(rs, i, j); }
      assert t[j] == if j == i then row else s[j];
      assert RecordIs(l, 0, s[j], p.keys[j], p.vals[j]);
      RowRecord(l, row, p.keys[i]);
    }
  }

  lemma RecordsFit(l: Layout, b: Image, p: Page)
    requires LayoutOk(l) && Represents(l, b, p)
    ensures RecBase(l) + Span(RecSize(l, p.level), |p.keys|) <= PAGE_SIZE
  {
    hide LayoutOk, HeaderIs, RangeIs, RecordsAre;
  }

  lemma LevelOf(p: Page)
    requires LeafShape(p)
    ensures p.level == 0
  {
  }

  lemma RowRecord(l: Layout, row: Bytes, k: Key)
    requires LayoutOk(l) && |row| == l.rowSize && KeyOf(l, row[..KeySize(l)]) == k
    ensures RecordIs(l, 0, row, k, Row(row))
  {
    hide CompoundKey.Rank;
  }

  lemma HeaderFront(b: Image, c: Image, base: nat, p: Page, q: Page)
    requires DATA_AT <= base <= PAGE_SIZE && c[..base] == b[..base] && HeaderIs(b, p)
    requires q.leftmost == p.leftmost && q.sibling == p.sibling && q.level == p.level && q.version == p.version
    requires |q.keys| == |p.keys|
    ensures HeaderIs(c, q)
  {
    hide FromLE, LastIndex;
    assert b[0..base] == c[0..base];
    SubSlices(b, c, 0, base, LEFTMOST_AT, LEFTMOST_AT + 8);
    SubSlices(b, c, 0, base, SIBLING_AT, SIBLING_AT + 8);
    SubSlices(b, c, 0, base, LAST_AT, LAST_AT + 2);
    SubSlices(b, c, 0, base, VERSION_AT, VERSION_AT + 8);
    SubSlices(b, c, 0, base, LEVEL_AT, LEVEL_AT + 1);
    assert b[LEVEL_AT] == b[LEVEL_AT..LEVEL_AT + 1][0] && c[LEVEL_AT] == c[LEVEL_AT..LEVEL_AT + 1][0];
  }

  lemma RangeFront(l: Layout, b: Image, c: Image, p: Page, q: Page)
    requires RecBase(l) <= PAGE_SIZE && c[..RecBase(l)] == b[..RecBase(l)]
    requires LayoutOk(l) && RangeIs(l, b, p) && q.lowest == p.lowest && q.highest == p.highest
    ensures RangeIs(l, c, q)
  {
    hide CompoundKey.Rank, LayoutOk;
    var ks := KeySize(l);
    assert c[0..RecBase(l)] == b[0..RecBase(l)];
    SubSlices(b, c, 0, RecBase(l), DATA_AT, DATA_AT + ks);
    SubSlices(b, c, 0, RecBase(l), DATA_AT + ks, RecBase(l));
  }

  lemma NothingMoved(b: Bytes, to: nat, rs: nat)
    requires to + rs <= |b|
    ensures b == Splice(b, to + rs, b[to..to])
  {
  }

  /** One more record moved up. */
  lemma OneMoved(b: Bytes, to: nat, end: nat, rs: nat)
    requires rs <= to <= end && end + rs <= |b|
    ensures var c := Splice(b, to + rs, b[to..end]); Splice(c, to, c[to - rs..to]) == Splice(b, to, b[to - rs..end])
  {
    var c := Splice(b, to + rs, b[to..end]);
    assert c[to - rs..to] == b[to - rs..to];
    var d, e := Splice(c, to, c[to - rs..to]), Splice(b, to, b[to - rs..end]);
    forall j | 0 <= j < |b| ensures d[j] == e[j] {}
  }

  lemma CountOf(l: Layout, b: Image, p: Page)
    requires LayoutOk(l) && Represents(l, b, p)
    ensures (FromLE(b[LAST_AT..LAST_AT + 2]) + 1) % 0x1_0000 == |p.keys|
  {
    hide RangeIs, RecordsAre, LastIndex, FromLE, Version;
    CountBound(l, p);
    LastIndexValue(|p.keys|);
  }

  lemma CountBound(l: Layout, p: Page)
    requires LayoutOk(l) && |p.keys| <= Capacity(p.level)
    ensures |p.keys| < 0x8000
  {
  }

  lemma LastIndexValue(n: nat)
    requires n < 0x8000
    ensures (FromLE(LastIndex(n)) + 1) % 0x1_0000 == n
  {
    assert Pow256(2) == 0x1_0000;
    LERoundTrip((n + 0xFFFF) % 0x1_0000, 2);
    hide FromLE, ToLE;
  }
}
