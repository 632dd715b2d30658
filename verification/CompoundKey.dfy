/** Typed compound keys: their order, its minimum and maximum, and the cached sentinel keys. Floating-point columns are
    not part of this model. */
module CompoundKey {
  import opened Endian

  datatype ValueType = INT | INT8 | INT16 | INT32 | INT64 | UINT64 | FIXCHAR | META

  /** A primary-key column: its type and its size in bytes. */
  datatype Column = Column(ty: ValueType, size: nat)

  predicate ColumnOk(c: Column) {
    match c.ty
    case INT => c.size == 4
    case INT8 => c.size == 1
    case INT16 => c.size == 2
    case INT32 => c.size == 4
    case INT64 => c.size == 8
    case UINT64 => c.size == 8
    case FIXCHAR => c.size > 0
    case META => c.size > 0
  }

  predicate AllOk(cols: seq<Column>) {
    forall i :: 0 <= i < |cols| ==> ColumnOk(cols[i])
  }

  function KeyLength(cols: seq<Column>): nat {
    if cols == [] then 0 else cols[0].size + KeyLength(cols[1..])
  }

  /* ---- Fields ---- */

  predicate IsSigned(ty: ValueType) {
    ty == INT || ty == INT8 || ty == INT16 || ty == INT32 || ty == INT64
  }

  predicate IsBytes(ty: ValueType) {
    ty == FIXCHAR || ty == META
  }

  /** Half of the values of n bytes. */
  function Half(n: nat): (h: int)
    ensures h >= 0 && (n > 0 ==> h > 0 && Pow256(n) == 2 * h)
  {
    if n == 0 then 0 else 128 * Pow256(n - 1)
  }

  /** Two's complement. */
  function Signed(v: nat, n: nat): int
    requires v < Pow256(n)
  {
    if v < Half(n) then v else v - Pow256(n)
  }

  /** x, then y, as the two digits of a number in mixed radix. */
  function Digits(x: nat, y: nat, p: nat, q: nat): (r: nat)
    requires x < p && y < q
    ensures r < p * q
  {
    NextMultiple(x, p, q);
    x * q + y
  }

  function FromBE(b: Bytes): (v: nat)
    ensures v < Pow256(|b|)
  {
    if b == [] then 0 else Digits(b[0], FromBE(b[1..]), 256, Pow256(|b| - 1))
  }

  /** The decoded value of a field; byte strings count as big-endian numbers. */
  function FieldValue(c: Column, b: Bytes): int
    requires ColumnOk(c) && |b| == c.size
  {
    if IsSigned(c.ty) then Signed(FromLE(b), c.size)
    else if IsBytes(c.ty) then FromBE(b)
    else FromLE(b)
  }

  function FieldLow(c: Column): int {
    if IsSigned(c.ty) then -Half(c.size) else 0
  }

  function FieldRank(c: Column, b: Bytes): (r: nat)
    requires ColumnOk(c) && |b| == c.size
    ensures r < Pow256(c.size)
  {
    FieldValue(c, b) - FieldLow(c)
  }

  function Sign(x: int): int {
    if x < 0 then -1 else if x > 0 then 1 else 0
  }

  /** memcmp, up to sign. */
  function Memcmp(a: Bytes, b: Bytes): int
    requires |a| == |b|
  {
    if a == [] then 0
    else if a[0] != b[0] then (if a[0] < b[0] then -1 else 1)
    else Memcmp(a[1..], b[1..])
  }

  lemma Lexicographic(x: nat, y: nat, x': nat, y': nat, p: nat)
    requires y < p && y' < p
    ensures Sign((x * p + y) - (x' * p + y')) == if x != x' then Sign(x - x') else Sign(y - y')
  {
    if x < x' { NextMultiple(x, x', p); } else if x > x' { NextMultiple(x', x, p); }
  }

  /** Comparing bytes from the front is comparing big-endian numbers. */
  lemma {:induction false} MemcmpIsOrder(a: Bytes, b: Bytes)
    requires |a| == |b|
    ensures Memcmp(a, b) == Sign(FromBE(a) - FromBE(b))
  {
    if a != [] {
      MemcmpIsOrder(a[1..], b[1..]);
      Lexicographic(a[0], FromBE(a[1..]), b[0], FromBE(b[1..]), Pow256(|a| - 1));
    }
  }

  function CompareField(c: Column, a: Bytes, b: Bytes): int
    requires ColumnOk(c) && |a| == |b| == c.size
  {
    if IsBytes(c.ty) then Memcmp(a, b)
    else
      var x, y := FieldValue(c, a), FieldValue(c, b);
      if x != y then (if x < y then -1 else 1) else 0
  }

  /* ---- Keys ---- */

  predicate IsKey(cols: seq<Column>, k: Bytes) {
    AllOk(cols) && |k| == KeyLength(cols)
  }

  /** compare: the first column that differs decides. */
  function Compare(cols: seq<Column>, a: Bytes, b: Bytes): int
    requires IsKey(cols, a) && IsKey(cols, b)
  {
    if cols == [] then 0
    else
      var n := cols[0].size;
      var r := CompareField(cols[0], a[..n], b[..n]);
      if r != 0 then r else Compare(cols[1..], a[n..], b[n..])
  }

  /** The place of a key among all keys of its columns. */
  function Rank(cols: seq<Column>, k: Bytes): (r: nat)
    requires IsKey(cols, k)
    ensures r < Pow256(KeyLength(cols))
  {
    hide Joined, FieldRank;
    if cols == [] then 0
    else
      var n, rest := cols[0].size, KeyLength(cols[1..]);
      Joined(FieldRank(cols[0], k[..n]), Rank(cols[1..], k[n..]), n, rest)
  }

  /** x on m bytes, then y on n bytes. */
  function Joined(x: nat, y: nat, m: nat, n: nat): (r: nat)
    requires x < Pow256(m) && y < Pow256(n)
    ensures r < Pow256(m + n)
  {
    PowSum(m, n);
    Digits(x, y, Pow256(m), Pow256(n))
  }

  lemma {:induction false} PowSum(m: nat, n: nat)
    ensures Pow256(m + n) == Pow256(m) * Pow256(n)
  {
    if m > 0 {
      PowSum(m - 1, n);
      MulAssoc(256, Pow256(m - 1), Pow256(n));
    }
  }

  lemma MulAssoc(a: nat, b: nat, c: nat)
    ensures a * (b * c) == (a * b) * c
  {
  }

  /** compare is the order of ranks: a total order, lexicographic on the decoded fields. */
  lemma {:induction false} RankIsTheOrder(cols: seq<Column>, a: Bytes, b: Bytes)
    requires IsKey(cols, a) && IsKey(cols, b)
    ensures Compare(cols, a, b) == Sign(Rank(cols, a) - Rank(cols, b))
  {
    if cols != [] {
      var n, rest := cols[0].size, KeyLength(cols[1..]);
      RankIsTheOrder(cols[1..], a[n..], b[n..]);
      if IsBytes(cols[0].ty) { MemcmpIsOrder(a[..n], b[..n]); }
      Lexicographic(FieldRank(cols[0], a[..n]), Rank(cols[1..], a[n..]),
                    FieldRank(cols[0], b[..n]), Rank(cols[1..], b[n..]), Pow256(rest));
    }
  }

  /* ---- What the order is ---- */

  /** The numbers that a column of this type holds. */
  predicate InRange(ty: ValueType, x: int) {
    match ty
    case INT => -0x8000_0000 <= x < 0x8000_0000
    case INT8 => -0x80 <= x < 0x80
    case INT16 => -0x8000 <= x < 0x8000
    case INT32 => -0x8000_0000 <= x < 0x8000_0000
    case INT64 => -0x8000_0000_0000_0000 <= x < 0x8000_0000_0000_0000
    case UINT64 => 0 <= x < 0x1_0000_0000_0000_0000
    case FIXCHAR => false
    case META => false
  }

  /** b is number x in little-endian two's complement. */
  predicate Encodes(c: Column, x: int, b: Bytes) {
    InRange(c.ty, x) && b == ToLE(x % Pow256(c.size), c.size)
  }

  lemma Powers()
    ensures Pow256(1) == 0x100 && Pow256(2) == 0x1_0000 && Pow256(4) == 0x1_0000_0000
    ensures Pow256(8) == 0x1_0000_0000_0000_0000
  {
    assert Pow256(6) == 0x1_0000_0000_0000;
  }

  /** The bytes of a number are read as that number. */
  lemma ReadsNumber(c: Column, x: int, b: Bytes)
    requires ColumnOk(c) && Encodes(c, x, b)
    ensures |b| == c.size && FieldValue(c, b) == x
  {
    Powers();
    var p := Pow256(c.size);
    hide Pow256, ToLE, FromLE;
    LERoundTrip(x % p, c.size);
    assert x % p == if x < 0 then x + p else x by { Wrapped(x, p); }
  }

  lemma Wrapped(x: int, p: nat)
    requires -(p as int) <= x < p
    ensures x % p == if x < 0 then x + p else x
  {}

  /** Every field of a number column is the bytes of some number. */
  lemma HoldsNumber(c: Column, b: Bytes) returns (x: int)
    requires ColumnOk(c) && !IsBytes(c.ty) && |b| == c.size
    ensures Encodes(c, x, b)
  {
    Powers();
    x := FieldValue(c, b);
    var p := Pow256(c.size);
    hide Pow256, ToLE, FromLE;
    LEInverse(b);
    Wrapped(x, p);
  }

  /** How two fields compare: byte strings by the first byte that differs, all others by the numbers they hold. */
  ghost predicate FieldOrder(c: Column, a: Bytes, b: Bytes, r: int)
    requires |a| == |b|
  {
    && (a == b ==> r == 0)
    && (c.ty == FIXCHAR || c.ty == META ==>
          forall i :: 0 <= i < |a| && a[..i] == b[..i] && a[i] != b[i] ==> r == if a[i] < b[i] then -1 else 1)
    && forall x, y :: Encodes(c, x, a) && Encodes(c, y, b) ==> r == if x < y then -1 else if x > y then 1 else 0
  }

  lemma {:induction false} MemcmpFirst(a: Bytes, b: Bytes, i: nat)
    requires |a| == |b| && i < |a| && a[..i] == b[..i] && a[i] != b[i]
    ensures Memcmp(a, b) == if a[i] < b[i] then -1 else 1
    decreases i
  {
    if i > 0 {
      assert a[0] == a[..i][0] && b[0] == b[..i][0];
      assert a[1..][..i - 1] == a[..i][1..] && b[1..][..i - 1] == b[..i][1..];
      MemcmpFirst(a[1..], b[1..], i - 1);
    }
  }

  lemma ComparesFields(c: Column, a: Bytes, b: Bytes)
    requires ColumnOk(c) && |a| == |b| == c.size
    ensures FieldOrder(c, a, b, CompareField(c, a, b))
  {
    hide FieldValue, Encodes;
    if a == b { SameField(c, a); }
    forall i | 0 <= i < |a| && a[..i] == b[..i] && a[i] != b[i] ensures Memcmp(a, b) == if a[i] < b[i] then -1 else 1 {
      MemcmpFirst(a, b, i);
    }
    forall x, y | Encodes(c, x, a) && Encodes(c, y, b)
      ensures CompareField(c, a, b) == if x < y then -1 else if x > y then 1 else 0
    {
      NotBytes(c, x, a);
      ReadsNumber(c, x, a);
      ReadsNumber(c, y, b);
    }
  }

  lemma NotBytes(c: Column, x: int, b: Bytes)
    requires Encodes(c, x, b)
    ensures !IsBytes(c.ty)
  {}

  /** How two keys compare: column i decides when the columns before it are the same and it is not. */
  ghost predicate KeyOrder(cols: seq<Column>, a: Bytes, b: Bytes, r: int)
    requires IsKey(cols, a) && IsKey(cols, b)
  {
    && (a == b ==> r == 0)
    && forall i :: 0 <= i < |cols| && Differs(cols, a, b, i) ==>
         FieldOrder(cols[i], FieldOf(cols, a, i), FieldOf(cols, b, i), r)
  }

  /** The bytes of column i. */
  function FieldOf(cols: seq<Column>, k: Bytes, i: nat): (f: Bytes)
    requires |k| == KeyLength(cols) && i < |cols|
    ensures |f| == cols[i].size
  {
    ColumnEnds(cols, i);
    k[KeyLength(cols[..i])..KeyLength(cols[..i]) + cols[i].size]
  }

  ghost predicate Differs(cols: seq<Column>, a: Bytes, b: Bytes, i: nat)
    requires |a| == |b| == KeyLength(cols) && i < |cols|
  {
    && FieldOf(cols, a, i) != FieldOf(cols, b, i)
    && forall j :: 0 <= j < i ==> FieldOf(cols, a, j) == FieldOf(cols, b, j)
  }

  lemma {:induction false} ColumnEnds(cols: seq<Column>, i: nat)
    requires i < |cols|
    ensures KeyLength(cols[..i]) + cols[i].size <= KeyLength(cols)
  {
    if i > 0 {
      ColumnEnds(cols[1..], i - 1);
      assert cols[..i][1..] == cols[1..][..i - 1];
    }
  }

  lemma NextColumn(cols: seq<Column>, k: Bytes, i: nat)
    requires |k| == KeyLength(cols) && 0 < i < |cols|
    ensures var n := cols[0].size; n <= |k| && FieldOf(cols, k, i) == FieldOf(cols[1..], k[n..], i - 1)
  {
    hide KeyLength;
    OffsetStep(cols, i);
    ColumnEnds(cols[1..], i - 1);
    var n, o, z := cols[0].size, KeyLength(cols[1..][..i - 1]), cols[i].size;
    assert cols[1..][i - 1] == cols[i];
    assert k[n..][o..o + z] == k[n + o..n + o + z];
  }

  lemma OffsetStep(cols: seq<Column>, i: nat)
    requires 0 < i < |cols|
    ensures KeyLength(cols[..i]) == cols[0].size + KeyLength(cols[1..][..i - 1])
    ensures KeyLength(cols) == cols[0].size + KeyLength(cols[1..])
  {
    assert cols[..i][1..] == cols[1..][..i - 1];
  }

  lemma FirstColumn(cols: seq<Column>, k: Bytes)
    requires |k| == KeyLength(cols) && cols != []
    ensures cols[0].size <= |k| && FieldOf(cols, k, 0) == k[..cols[0].size]
  {}

  lemma FieldsDiffer(c: Column, a: Bytes, b: Bytes)
    requires ColumnOk(c) && |a| == |b| == c.size
    ensures CompareField(c, a, b) == 0 <==> a == b
  {
    hide FieldValue;
    if a == b { SameField(c, a); }
    if CompareField(c, a, b) == 0 {
      if IsBytes(c.ty) { MemcmpIsOrder(a, b); }
      FieldInjective(c, a, b) by { FieldsRank(c, a, b); }
    }
  }

  lemma FieldsRank(c: Column, a: Bytes, b: Bytes)
    requires ColumnOk(c) && |a| == |b| == c.size && CompareField(c, a, b) == 0
    ensures FieldRank(c, a) == FieldRank(c, b)
  {
    if IsBytes(c.ty) { MemcmpIsOrder(a, b); }
  }

  /** compare goes by the first column whose bytes differ, whatever the columns. */
  lemma {:induction false} ComparesKeys(cols: seq<Column>, a: Bytes, b: Bytes)
    requires IsKey(cols, a) && IsKey(cols, b)
    ensures KeyOrder(cols, a, b, Compare(cols, a, b))
  {
    hide CompareField, FieldOrder, FieldOf;
    if cols != [] {
      var n := cols[0].size;
      FirstColumn(cols, a);
      FirstColumn(cols, b);
      FieldsDiffer(cols[0], a[..n], b[..n]);
      ComparesFields(cols[0], a[..n], b[..n]);
      ComparesKeys(cols[1..], a[n..], b[n..]);
      forall i | 0 <= i < |cols| && Differs(cols, a, b, i)
        ensures FieldOrder(cols[i], FieldOf(cols, a, i), FieldOf(cols, b, i), Compare(cols, a, b))
      {
        if i > 0 { LaterColumn(cols, a, b, i); }
      }
    }
  }

  lemma LaterColumn(cols: seq<Column>, a: Bytes, b: Bytes, i: nat)
    requires |a| == |b| == KeyLength(cols) && 0 < i < |cols| && Differs(cols, a, b, i)
    ensures var n := cols[0].size;
            && n <= |a| && a[..n] == b[..n] && Differs(cols[1..], a[n..], b[n..], i - 1)
            && FieldOf(cols, a, i) == FieldOf(cols[1..], a[n..], i - 1)
            && FieldOf(cols, b, i) == FieldOf(cols[1..], b[n..], i - 1)
  {
    hide FieldOf;
    FirstColumn(cols, a);
    FirstColumn(cols, b);
    NextColumn(cols, a, i);
    NextColumn(cols, b, i);
    var n := cols[0].size;
    assert FieldOf(cols, a, 0) == FieldOf(cols, b, 0);
    forall j | 0 <= j < i - 1 ensures FieldOf(cols[1..], a[n..], j) == FieldOf(cols[1..], b[n..], j) {
      NextColumn(cols, a, j + 1);
      NextColumn(cols, b, j + 1);
      assert FieldOf(cols, a, j + 1) == FieldOf(cols, b, j + 1);
    }
  }

  /** Two numbers in a column of any number type compare as numbers. */
  lemma ComparesNumbers(c: Column, x: int, y: int)
    requires ColumnOk(c) && InRange(c.ty, x) && InRange(c.ty, y)
    ensures var a, b := ToLE(x % Pow256(c.size), c.size), ToLE(y % Pow256(c.size), c.size);
            IsKey([c], a) && IsKey([c], b) && Compare([c], a, b) == Sign(x - y)
  {
    var a, b := ToLE(x % Pow256(c.size), c.size), ToLE(y % Pow256(c.size), c.size);
    assert Encodes(c, x, a) && Encodes(c, y, b);
    assert KeyLength([c]) == c.size + KeyLength([]) && [c][1..] == [];
    hide ToLE, Pow256, Encodes;
    ComparesFields(c, a, b);
    assert a[..c.size] == a && b[..c.size] == b;
  }

  lemma {:induction false} BEInjective(a: Bytes, b: Bytes)
    requires |a| == |b| && FromBE(a) == FromBE(b)
    ensures a == b
  {
    if a != [] {
      Lexicographic(a[0], FromBE(a[1..]), b[0], FromBE(b[1..]), Pow256(|a| - 1));
      BEInjective(a[1..], b[1..]);
      assert a == [a[0]] + a[1..] && b == [b[0]] + b[1..];
    }
  }

  lemma FieldInjective(c: Column, a: Bytes, b: Bytes)
    requires ColumnOk(c) && |a| == |b| == c.size && FieldRank(c, a) == FieldRank(c, b)
    ensures a == b
  {
    hide Pow256, ToLE, FromLE, FromBE;
    if IsBytes(c.ty) { BEInjective(a, b); }
    else {
      LEInverse(a);
      LEInverse(b);
    }
  }

  /** Only a key itself compares equal to it. */
  lemma {:induction false} EqualIsSame(cols: seq<Column>, a: Bytes, b: Bytes)
    requires IsKey(cols, a) && IsKey(cols, b)
    ensures Compare(cols, a, b) == 0 <==> a == b
  {
    RankIsTheOrder(cols, a, b);
    if Compare(cols, a, b) == 0 { RankInjective(cols, a, b); }
  }

  lemma {:induction false} RankInjective(cols: seq<Column>, a: Bytes, b: Bytes)
    requires IsKey(cols, a) && IsKey(cols, b) && Rank(cols, a) == Rank(cols, b)
    ensures a == b
  {
    if cols != [] {
      var n, rest := cols[0].size, KeyLength(cols[1..]);
      Lexicographic(FieldRank(cols[0], a[..n]), Rank(cols[1..], a[n..]),
                    FieldRank(cols[0], b[..n]), Rank(cols[1..], b[n..]), Pow256(rest));
      FieldInjective(cols[0], a[..n], b[..n]);
      RankInjective(cols[1..], a[n..], b[n..]);
      assert a == a[..n] + a[n..] && b == b[..n] + b[n..];
    }
  }

  /* ---- Sentinels ---- */

  /** write_min_field: INT8 and INT16 have no case of their own and fall to the byte fill. */
  function MinField(c: Column): (b: Bytes)
    requires ColumnOk(c)
    ensures |b| == c.size
  {
    match c.ty
    case INT => ToLE(Half(4), 4)
    case INT32 => ToLE(Half(4), 4)
    case INT64 => ToLE(Half(8), 8)
    case UINT64 => ToLE(0, 8)
    case _ => Repeat(0x00, c.size)
  }

  function MaxField(c: Column): (b: Bytes)
    requires ColumnOk(c)
    ensures |b| == c.size
  {
    match c.ty
    case INT => ToLE(Half(4) - 1, 4)
    case INT32 => ToLE(Half(4) - 1, 4)
    case INT64 => ToLE(Half(8) - 1, 8)
    case UINT64 => ToLE(Pow256(8) - 1, 8)
    case _ => Repeat(0xFF, c.size)
  }

  function MinKey(cols: seq<Column>): (k: Bytes)
    requires AllOk(cols)
    ensures IsKey(cols, k)
  {
    if cols == [] then [] else MinField(cols[0]) + MinKey(cols[1..])
  }

  function MaxKey(cols: seq<Column>): (k: Bytes)
    requires AllOk(cols)
    ensures IsKey(cols, k)
  {
    if cols == [] then [] else MaxField(cols[0]) + MaxKey(cols[1..])
  }

  /** A column whose sentinel field is not an extreme of its type. */
  predicate IsSmall(c: Column) {
    c.ty == INT8 || c.ty == INT16
  }

  predicate NoneSmall(cols: seq<Column>) {
    forall i :: 0 <= i < |cols| ==> !IsSmall(cols[i])
  }

  lemma {:induction false} FillBE(n: nat)
    ensures FromBE(Repeat(0x00, n)) == 0 && FromBE(Repeat(0xFF, n)) == Pow256(n) - 1
  {
    if n > 0 {
      FillBE(n - 1);
      assert Repeat(0x00, n)[1..] == Repeat(0x00, n - 1) && Repeat(0xFF, n)[1..] == Repeat(0xFF, n - 1);
    }
  }

  lemma ExtremeFields(c: Column)
    requires ColumnOk(c) && !IsSmall(c)
    ensures FieldRank(c, MinField(c)) == 0 && FieldRank(c, MaxField(c)) == Pow256(c.size) - 1
  {
    hide Pow256, ToLE, FromLE, FromBE, Repeat;
    if IsBytes(c.ty) { FillBE(c.size); }
    else if c.ty == UINT64 {
      LERoundTrip(0, 8);
      LERoundTrip(Pow256(8) - 1, 8);
    } else {
      SignedExtremes(c.size);
    }
  }

  lemma SignedExtremes(n: nat)
    requires n > 0
    ensures var h := Half(n);
            && FromLE(ToLE(h, n)) == h && FromLE(ToLE(h - 1, n)) == h - 1
            && Signed(h, n) == -h && Signed(h - 1, n) == h - 1
  {
    hide Pow256, ToLE, FromLE, Half;
    LERoundTrip(Half(n), n);
    LERoundTrip(Half(n) - 1, n);
  }

  lemma {:induction false} ExtremeKeys(cols: seq<Column>)
    requires AllOk(cols) && NoneSmall(cols)
    ensures Rank(cols, MinKey(cols)) == 0 && Rank(cols, MaxKey(cols)) == Pow256(KeyLength(cols)) - 1
  {
    hide Pow256, MinField, MaxField, FieldRank, Digits, Rank, KeyLength, MinKey, MaxKey;
    if cols == [] { ExtremeNone(); }
    else {
      ExtremeKeys(cols[1..]);
      ExtremeFields(cols[0]);
      var n, rest := cols[0].size, KeyLength(cols[1..]);
      ExtremeParts(cols);
      RankStep(cols, MinKey(cols));
      RankStep(cols, MaxKey(cols));
      PowSum(n, rest);
      ExtremeDigits(Pow256(n), Pow256(rest));
    }
  }

  lemma ExtremeNone()
    ensures KeyLength([]) == 0 && Rank([], MinKey([])) == 0 && Rank([], MaxKey([])) == 0 && Pow256(0) == 1
  {
  }

  lemma ExtremeParts(cols: seq<Column>)
    requires cols != [] && AllOk(cols)
    ensures var n, lo, hi := cols[0].size, MinKey(cols), MaxKey(cols);
            && |lo| >= n && lo[..n] == MinField(cols[0]) && lo[n..] == MinKey(cols[1..])
            && |hi| >= n && hi[..n] == MaxField(cols[0]) && hi[n..] == MaxKey(cols[1..])
  {
    hide MinField, MaxField;
  }

  lemma RankStep(cols: seq<Column>, k: Bytes)
    requires cols != [] && IsKey(cols, k)
    ensures var n, rest := cols[0].size, KeyLength(cols[1..]);
            && KeyLength(cols) == n + rest
            && Rank(cols, k) == Digits(FieldRank(cols[0], k[..n]), Rank(cols[1..], k[n..]), Pow256(n), Pow256(rest))
  {
    hide Pow256, FieldRank, Digits;
  }

  lemma ExtremeDigits(p: nat, q: nat)
    requires p > 0 && q > 0
    ensures Digits(0, 0, p, q) == 0 && Digits(p - 1, q - 1, p, q) == p * q - 1
  {
    assert (p - 1) * q == p * q - q;
  }

  /** The minimum sentinel is no greater than any key exactly when no column is INT8 or INT16. */
  lemma MinIsLeast(cols: seq<Column>)
    requires AllOk(cols)
    ensures NoneSmall(cols) <==> forall k :: IsKey(cols, k) ==> Compare(cols, MinKey(cols), k) <= 0
  {
    hide Rank, Compare, MinKey, MaxKey, Pow256, KeyLength;
    if NoneSmall(cols) {
      ExtremeKeys(cols);
      forall k | IsKey(cols, k) ensures Compare(cols, MinKey(cols), k) <= 0 { RankIsTheOrder(cols, MinKey(cols), k); }
    } else {
      var k := BelowMin(cols);
    }
  }

  /** The maximum sentinel is no less than any key exactly when no column is INT8 or INT16. */
  lemma MaxIsGreatest(cols: seq<Column>)
    requires AllOk(cols)
    ensures NoneSmall(cols) <==> forall k :: IsKey(cols, k) ==> Compare(cols, k, MaxKey(cols)) <= 0
  {
    hide Rank, Compare, MinKey, MaxKey, Pow256, KeyLength;
    if NoneSmall(cols) {
      ExtremeKeys(cols);
      forall k | IsKey(cols, k) ensures Compare(cols, k, MaxKey(cols)) <= 0 { RankIsTheOrder(cols, k, MaxKey(cols)); }
    } else {
      var k := AboveMax(cols);
    }
  }

  /** Fields that a small column has below its sentinel minimum and above its sentinel maximum. */
  lemma SmallFields(c: Column)
    requires ColumnOk(c) && IsSmall(c)
    ensures CompareField(c, Repeat(0x00, c.size), Repeat(0xFF, c.size)) == 1
  {
    var lo, hi := Repeat(0x00, c.size), Repeat(0xFF, c.size);
    assert Pow256(1) == 256 && Pow256(2) == 0x1_0000;
    assert FromLE(lo[1..]) == 0 by { if c.size == 2 { assert lo[1..][1..] == []; } }
    assert FromLE(hi[1..]) == (if c.size == 2 then 255 else 0) by { if c.size == 2 { assert hi[1..][1..] == []; } }
  }

  lemma {:induction false} BelowMin(cols: seq<Column>) returns (k: Bytes)
    requires AllOk(cols) && !NoneSmall(cols)
    ensures IsKey(cols, k) && Compare(cols, MinKey(cols), k) > 0
  {
    hide CompareField;
    var c := cols[0];
    var lo := MinKey(cols);
    assert lo[..c.size] == MinField(c) && lo[c.size..] == MinKey(cols[1..]);
    if IsSmall(c) {
      SmallFields(c);
      k := Repeat(0xFF, c.size) + MinKey(cols[1..]);
      assert k[..c.size] == Repeat(0xFF, c.size);
    } else {
      var rest := BelowMin(cols[1..]);
      k := MinField(c) + rest;
      assert k[..c.size] == MinField(c) && k[c.size..] == rest;
      SameField(c, MinField(c));
    }
  }

  lemma {:induction false} AboveMax(cols: seq<Column>) returns (k: Bytes)
    requires AllOk(cols) && !NoneSmall(cols)
    ensures IsKey(cols, k) && Compare(cols, k, MaxKey(cols)) > 0
  {
    hide CompareField;
    var c := cols[0];
    var hi := MaxKey(cols);
    assert hi[..c.size] == MaxField(c) && hi[c.size..] == MaxKey(cols[1..]);
    if IsSmall(c) {
      SmallFields(c);
      k := Repeat(0x00, c.size) + MaxKey(cols[1..]);
      assert k[..c.size] == Repeat(0x00, c.size);
    } else {
      var rest := AboveMax(cols[1..]);
      k := MaxField(c) + rest;
      assert k[..c.size] == MaxField(c) && k[c.size..] == rest;
      SameField(c, MaxField(c));
    }
  }

  lemma SameField(c: Column, b: Bytes)
    requires ColumnOk(c) && |b| == c.size
    ensures CompareField(c, b, b) == 0
  {
    if IsBytes(c.ty) { MemcmpIsOrder(b, b); }
  }

  /* ---- The cached sentinels ---- */

  /** A schema, as far as its primary key goes: the columns of the table, and which of them make up the key. */
  datatype Schema = Schema(columns: seq<Column>, primary: seq<nat>)

  predicate SchemaOk(s: Schema) {
    AllOk(s.columns) && forall i :: 0 <= i < |s.primary| ==> s.primary[i] < |s.columns|
  }

  /** MakePrimaryFootprint: types and sizes of the key columns, in key order. */
  function Footprint(s: Schema): (fp: seq<Column>)
    requires SchemaOk(s)
    ensures AllOk(fp)
  {
    seq(|s.primary|, i requires 0 <= i < |s.primary| => s.columns[s.primary[i]])
  }

  function SentinelField(greatest: bool, c: Column): (b: Bytes)
    requires ColumnOk(c)
    ensures |b| == c.size
  {
    if greatest then MaxField(c) else MinField(c)
  }

  function Sentinel(greatest: bool, fp: seq<Column>): (k: Bytes)
    requires AllOk(fp)
    ensures IsKey(fp, k)
  {
    if greatest then MaxKey(fp) else MinKey(fp)
  }

  /** The field of key column i in a sentinel is the extreme of the table column that it names. */
  lemma SentinelOf(greatest: bool, s: Schema, i: nat)
    requires SchemaOk(s) && i < |s.primary|
    ensures FieldOf(Footprint(s), Sentinel(greatest, Footprint(s)), i) ==
            var c := s.columns[s.primary[i]]; if greatest then MaxField(c) else MinField(c)
  {
    hide MinField, MaxField, FieldOf, MinKey, MaxKey, KeyLength;
    SentinelFields(Footprint(s), i);
  }

  lemma {:induction false} SentinelFields(cols: seq<Column>, i: nat)
    requires AllOk(cols) && i < |cols|
    ensures FieldOf(cols, MinKey(cols), i) == MinField(cols[i]) && FieldOf(cols, MaxKey(cols), i) == MaxField(cols[i])
    decreases i
  {
    hide MinField, MaxField, FieldOf, MinKey, MaxKey, KeyLength;
    ExtremeParts(cols);
    FirstColumn(cols, MinKey(cols));
    FirstColumn(cols, MaxKey(cols));
    if i > 0 {
      NextColumn(cols, MinKey(cols), i);
      NextColumn(cols, MaxKey(cols), i);
      SentinelFields(cols[1..], i - 1);
    }
  }

  lemma SentinelStep(greatest: bool, fp: seq<Column>, i: nat)
    requires AllOk(fp) && i < |fp|
    ensures Sentinel(greatest, fp[i..]) == SentinelField(greatest, fp[i]) + Sentinel(greatest, fp[i + 1..])
    ensures KeyLength(fp[i..]) == fp[i].size + KeyLength(fp[i + 1..])
  {
    hide MinField, MaxField;
    assert fp[i..][0] == fp[i] && fp[i..][1..] == fp[i + 1..];
  }

  /** encode_min_primary and encode_max_primary. */
  method Encode(greatest: bool, s: Schema, dst: array<Byte>)
    requires SchemaOk(s) && dst.Length == KeyLength(Footprint(s))
    modifies dst
    ensures dst[..] == Sentinel(greatest, Footprint(s))
  {
    hide Sentinel, SentinelField;
    ghost var fp := Footprint(s);
    var off := 0;
    assert fp[0..] == fp;
    for i := 0 to |s.primary|
      invariant off + KeyLength(fp[i..]) == dst.Length &&
                dst[..off] + Sentinel(greatest, fp[i..]) == Sentinel(greatest, fp)
    {
      SentinelStep(greatest, fp, i);
      ghost var done, rest := dst[..off], Sentinel(greatest, fp[i + 1..]);
      var f := SentinelField(greatest, s.columns[s.primary[i]]);
      CopyInto(dst, off, f);
      off := off + |f|;
      assert dst[..off] == done + f;
      assert done + (f + rest) == done + f + rest;
    }
    assert fp[|fp|..] == [] && dst[..off] == dst[..];
  }

  /** The thread-local and the shared cache of the minimum or the maximum sentinels. */
  class SentinelCache {
    const greatest: bool
    var local: map<seq<Column>, Bytes>
    var shared: map<seq<Column>, Bytes>

    constructor (greatest: bool)
      ensures Valid() && this.greatest == greatest
    {
      this.greatest, local, shared := greatest, map[], map[];
    }

    ghost predicate Valid()
      reads this
    {
      && (forall fp :: fp in local ==> AllOk(fp) && local[fp] == Sentinel(greatest, fp))
      && (forall fp :: fp in shared ==> AllOk(fp) && shared[fp] == Sentinel(greatest, fp))
    }

    /** MinValue and MaxValue: whatever schema filled the cache, the sentinel is the one that a fresh encoding for this
        schema would give. */
    method Value(s: Schema) returns (k: Bytes)
      requires Valid() && SchemaOk(s)
      modifies this
      ensures Valid() && k == Sentinel(greatest, Footprint(s))
      ensures local == old(local)[Footprint(s) := k]
      ensures shared == if Footprint(s) in old(local) then old(shared) else old(shared)[Footprint(s) := k]
    {
      hide Sentinel;
      var fp := Footprint(s);
      if fp in local { return local[fp]; }
      if fp in shared { k := shared[fp]; }
      else {
        var buf := new Byte[KeyLength(fp)];
        Encode(greatest, s, buf);
        k := buf[..];
        shared := shared[fp := k];
      }
      local := local[fp := k];
    }
  }

  /** compare, column by column. */
  method CompareKeys(cols: seq<Column>, a: Bytes, b: Bytes) returns (r: int)
    requires IsKey(cols, a) && IsKey(cols, b)
    ensures r == Sign(Rank(cols, a) - Rank(cols, b)) && KeyOrder(cols, a, b, r)
  {
    hide Rank, CompareField, KeyOrder;
    RankIsTheOrder(cols, a, b);
    ComparesKeys(cols, a, b);
    var off: nat := 0;
    assert cols[0..] == cols && a[0..] == a && b[0..] == b;
    for i := 0 to |cols|
      invariant off + KeyLength(cols[i..]) == |a| && Compare(cols[i..], a[off..], b[off..]) == Compare(cols, a, b)
    {
      var n := cols[i].size;
      CompareStep(cols, i, a, b, off);
      r := CompareField(cols[i], a[off..off + n], b[off..off + n]);
      if r != 0 { return; }
      off := off + n;
    }
    return 0;
  }

  lemma CompareStep(cols: seq<Column>, i: nat, a: Bytes, b: Bytes, off: nat)
    requires AllOk(cols) && i < |cols| && |a| == |b| == off + KeyLength(cols[i..])
    ensures KeyLength(cols[i..]) == cols[i].size + KeyLength(cols[i + 1..])
    ensures var n := cols[i].size; var r := CompareField(cols[i], a[off..off + n], b[off..off + n]);
            Compare(cols[i..], a[off..], b[off..]) ==
              if r != 0 then r else Compare(cols[i + 1..], a[off + n..], b[off + n..])
  {
    hide CompareField;
    var n := cols[i].size;
    assert cols[i..][0] == cols[i] && cols[i..][1..] == cols[i + 1..];
    assert a[off..][..n] == a[off..off + n] && b[off..][..n] == b[off..off + n];
    assert a[off..][n..] == a[off + n..] && b[off..][n..] == b[off + n..];
  }
}
