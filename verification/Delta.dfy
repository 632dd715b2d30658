/** Records of the multi-version store, the deltas that keep their older versions, and rolling back along them. */
module Delta {
  import opened Options
  import opened Arrays
  import opened Endian
  import opened LogCodec

  /** The packed MVOCC meta column: write timestamp, previous delta, its epoch and size, next timestamp, visibility. */
  const META_SIZE: nat := 37

  datatype Schema = Schema(sizes: seq<nat>, meta: nat)

  function Offset(sizes: seq<nat>, i: nat): nat
    requires i <= |sizes|
  {
    if i == 0 then 0 else Offset(sizes, i - 1) + sizes[i - 1]
  }

  predicate SchemaOk(s: Schema) {
    s.meta < |s.sizes| < U64 && s.sizes[s.meta] == META_SIZE && Offset(s.sizes, |s.sizes|) < U64
  }

  predicate IsRecord(s: Schema, b: Bytes) {
    SchemaOk(s) && |b| == Offset(s.sizes, |s.sizes|)
  }

  lemma {:induction false} OffsetMonotone(sizes: seq<nat>, i: nat, j: nat)
    requires i <= j <= |sizes|
    ensures Offset(sizes, i) <= Offset(sizes, j)
    decreases j
  {
    if i < j { OffsetMonotone(sizes, i, j - 1); }
  }

  lemma ColumnInside(s: Schema, i: nat)
    requires i < |s.sizes|
    ensures Offset(s.sizes, i) + s.sizes[i] == Offset(s.sizes, i + 1) <= Offset(s.sizes, |s.sizes|)
  {
    OffsetMonotone(s.sizes, i + 1, |s.sizes|);
  }

  function Column(s: Schema, b: Bytes, i: nat): (c: Bytes)
    requires IsRecord(s, b) && i < |s.sizes|
    ensures |c| == s.sizes[i]
  {
    ColumnInside(s, i);
    b[Offset(s.sizes, i)..Offset(s.sizes, i) + s.sizes[i]]
  }

  function PutColumn(s: Schema, b: Bytes, i: nat, c: Bytes): (r: Bytes)
    requires IsRecord(s, b) && i < |s.sizes| && |c| == s.sizes[i]
    ensures IsRecord(s, r)
  {
    ColumnInside(s, i);
    Splice(b, Offset(s.sizes, i), c)
  }

  /** Columns do not overlap. */
  lemma ColumnOfPut(s: Schema, b: Bytes, i: nat, c: Bytes, j: nat)
    requires IsRecord(s, b) && i < |s.sizes| && |c| == s.sizes[i] && j < |s.sizes|
    ensures Column(s, PutColumn(s, b, i, c), j) == if i == j then c else Column(s, b, j)
  {
    ColumnInside(s, i);
    ColumnInside(s, j);
    if i < j { OffsetMonotone(s.sizes, i + 1, j); } else if j < i { OffsetMonotone(s.sizes, j + 1, i); }
    hide Offset, SchemaOk;
    var r, x, y := PutColumn(s, b, i, c), Offset(s.sizes, j), s.sizes[j];
    assert r[x..x + y] == if i == j then c else b[x..x + y];
  }

  /* ---- Deltas ---- */

  predicate Columns(s: Schema, cols: seq<nat>) {
    forall k :: 0 <= k < |cols| ==> cols[k] < |s.sizes|
  }

  /** serialize_to_delta: each column as its number, its size and its bytes. */
  function Fields(s: Schema, b: Bytes, cols: seq<nat>): Bytes
    requires IsRecord(s, b) && Columns(s, cols)
  {
    if cols == [] then [] else Field(s, b, cols[0]) + Fields(s, b, cols[1..])
  }

  function Field(s: Schema, b: Bytes, i: nat): (f: Bytes)
    requires IsRecord(s, b) && i < |s.sizes|
    ensures |f| == 16 + s.sizes[i]
  {
    ToLE(i, 8) + ToLE(s.sizes[i], 8) + Column(s, b, i)
  }

  function FieldsSize(s: Schema, cols: seq<nat>): nat
    requires Columns(s, cols)
  {
    if cols == [] then 0 else 16 + s.sizes[cols[0]] + FieldsSize(s, cols[1..])
  }

  /** estimate_delta_size, apart from the header, is exactly what serialize_to_delta writes. */
  lemma {:induction false} EstimateIsExact(s: Schema, b: Bytes, cols: seq<nat>)
    requires IsRecord(s, b) && Columns(s, cols)
    ensures |Fields(s, b, cols)| == FieldsSize(s, cols)
  {
    hide Column, ToLE;
    if cols != [] { EstimateIsExact(s, b, cols[1..]); }
  }

  /** The record with the given columns taken from o. */
  function Restored(s: Schema, b: Bytes, o: Bytes, cols: seq<nat>): (r: Bytes)
    requires IsRecord(s, b) && IsRecord(s, o) && Columns(s, cols)
    ensures IsRecord(s, r)
    decreases |cols|
  {
    if cols == [] then b else Restored(s, PutColumn(s, b, cols[0], Column(s, o, cols[0])), o, cols[1..])
  }

  lemma {:induction false} RestoredColumn(s: Schema, b: Bytes, o: Bytes, cols: seq<nat>, j: nat)
    requires IsRecord(s, b) && IsRecord(s, o) && Columns(s, cols) && j < |s.sizes|
    ensures Column(s, Restored(s, b, o, cols), j)
         == if j in cols then Column(s, o, j) else Column(s, b, j)
    decreases |cols|
  {
    hide Column, PutColumn, IsRecord;
    if cols != [] {
      var c := Column(s, o, cols[0]);
      ColumnOfPut(s, b, cols[0], c, j);
      RestoredColumn(s, PutColumn(s, b, cols[0], c), o, cols[1..], j);
    }
  }

  /** The column loop of roll_back; nothing where the code would assert. */
  function RollData(s: Schema, b: Bytes, d: Bytes): (r: Option<Bytes>)
    requires IsRecord(s, b)
    ensures r.Some? ==> IsRecord(s, r.value)
    decreases |d|
  {
    if d == [] then Some(b)
    else if |d| < 16 then None
    else
      var id, size := FromLE(d[..8]), FromLE(d[8..16]);
      if id >= |s.sizes| || size != s.sizes[id] || |d| < 16 + size then None
      else RollData(s, PutColumn(s, b, id, d[16..16 + size]), d[16 + size..])
  }

  /** roll_back parses what serialize_to_delta wrote to its end, and restores exactly those columns. */
  lemma {:induction false} RollBackRestores(s: Schema, b: Bytes, o: Bytes, cols: seq<nat>)
    requires IsRecord(s, b) && IsRecord(s, o) && Columns(s, cols)
    ensures RollData(s, b, Fields(s, o, cols)) == Some(Restored(s, b, o, cols))
    decreases |cols|
  {
    if cols != [] {
      var id, d := cols[0], Fields(s, o, cols);
      var c := Column(s, o, id);
      FieldAtFront(s, o, cols);
      RollBackRestores(s, PutColumn(s, b, id, c), o, cols[1..]);
      hide Column, PutColumn, IsRecord, Fields;
    }
  }

  lemma FieldAtFront(s: Schema, o: Bytes, cols: seq<nat>)
    requires IsRecord(s, o) && Columns(s, cols) && cols != []
    ensures var d, n := Fields(s, o, cols), s.sizes[cols[0]];
            && |d| >= 16 + n && FromLE(d[..8]) == cols[0] && FromLE(d[8..16]) == n
            && d[16..16 + n] == Column(s, o, cols[0]) && d[16 + n..] == Fields(s, o, cols[1..])
  {
    var d, id := Fields(s, o, cols), cols[0];
    ColumnInside(s, id);
    assert Pow256(2) == 0x1_0000 && Pow256(4) == U32 && Pow256(6) == 0x1_0000_0000_0000 && Pow256(8) == U64;
    LERoundTrip(id, 8);
    LERoundTrip(s.sizes[id], 8);
    hide Column, ToLE, FromLE;
    assert d[..8] == ToLE(id, 8) && d[8..16] == ToLE(s.sizes[id], 8);
  }

  /** The bytes before data_ in the packed delta record. */
  const DATA_AT: nat := 41

  /** The first fields of the meta column: write timestamp, previous delta, its epoch and size. The next timestamp and
      the visibility follow them. */
  const META_HEAD: nat := 28

  /** The size fits the 32 bits it has in the header. */
  predicate Fits(s: Schema, cols: seq<nat>)
    requires Columns(s, cols)
  {
    DATA_AT + FieldsSize(s, cols) < U32
  }

  /** The packed delta record that keeps the columns cols of version o: marker, write timestamp of o, timestamp of the
      next version, previous delta of o with its epoch and size, own size, fields. */
  function DeltaOf(s: Schema, o: Bytes, cols: seq<nat>, next: nat): (d: Bytes)
    requires IsRecord(s, o) && Columns(s, cols)
    ensures |d| == DATA_AT + FieldsSize(s, cols)
  {
    EstimateIsExact(s, o, cols);
    HeaderOf(Column(s, o, s.meta), next, DATA_AT + FieldsSize(s, cols)) + Fields(s, o, cols)
  }

  function HeaderOf(m: Bytes, next: nat, size: nat): (h: Bytes)
    requires |m| == META_SIZE
    ensures |h| == DATA_AT
  {
    ['&' as Byte] + m[..8] + ToLE(next, 8) + m[8..28] + ToLE(size, 4)
  }

  /** What roll_back finds in the header of the delta at an address. */
  function SizeAt(mem: Bytes, at: nat): nat
    requires at + DATA_AT <= |mem|
  {
    FromLE(mem[at + 37..at + 41])
  }

  function HeadAt(mem: Bytes, at: nat): (m: Bytes)
    requires at + DATA_AT <= |mem|
    ensures |m| == META_HEAD
  {
    mem[at + 1..at + 9] + mem[at + 17..at + 37]
  }

  /** roll_back to the delta at an address; its end is where its size says. */
  function RollBack(s: Schema, b: Bytes, mem: Bytes, at: nat): (r: Option<Bytes>)
    requires IsRecord(s, b)
    ensures r.Some? ==> IsRecord(s, r.value)
  {
    if at + DATA_AT > |mem| || SizeAt(mem, at) < DATA_AT || at + SizeAt(mem, at) > |mem| then None
    else
      var r := RollData(s, b, mem[at + DATA_AT..at + SizeAt(mem, at)]);
      if r.None? then None
      else Some(PutColumn(s, r.value, s.meta, HeadAt(mem, at) + Column(s, r.value, s.meta)[META_HEAD..]))
  }

  /** Memory holds the bytes of d at an address, whatever stands around them. */
  predicate Stands(mem: Bytes, at: nat, d: Bytes) {
    at + |d| <= |mem| && mem[at..at + |d|] == d
  }

  /** The header read in place: the size ends where the fields end. */
  lemma HeaderRead(s: Schema, o: Bytes, cols: seq<nat>, next: nat, mem: Bytes, at: nat)
    requires IsRecord(s, o) && Columns(s, cols) && Fits(s, cols) && Stands(mem, at, DeltaOf(s, o, cols, next))
    ensures SizeAt(mem, at) == DATA_AT + FieldsSize(s, cols) && at + SizeAt(mem, at) <= |mem|
    ensures mem[at + DATA_AT..at + SizeAt(mem, at)] == Fields(s, o, cols)
    ensures HeadAt(mem, at) == Column(s, o, s.meta)[..META_HEAD]
    ensures mem[at] == 0x26 && mem[at + 9..at + 17] == ToLE(next, 8)
  {
    hide Fields, FieldsSize, Column, Columns, HeaderOf, ToLE, SizeAt, HeadAt, Stands;
    EstimateIsExact(s, o, cols);
    PartsRead(mem, at, Column(s, o, s.meta), next, Fields(s, o, cols));
  }

  lemma PartsRead(mem: Bytes, at: nat, m: Bytes, next: nat, f: Bytes)
    requires |m| == META_SIZE && DATA_AT + |f| < U32 && Stands(mem, at, HeaderOf(m, next, DATA_AT + |f|) + f)
    ensures at + DATA_AT <= |mem| && SizeAt(mem, at) == DATA_AT + |f| && at + SizeAt(mem, at) <= |mem|
    ensures mem[at + DATA_AT..at + SizeAt(mem, at)] == f && HeadAt(mem, at) == m[..META_HEAD]
    ensures mem[at] == 0x26 && mem[at + 9..at + 17] == ToLE(next, 8)
  {
    hide HeaderOf, ToLE, FromLE;
    var size := DATA_AT + |f|;
    StandsIn(mem, at, HeaderOf(m, next, size), f);
    HeaderParts(m, next, size);
    SlicesOf(mem, at, HeaderOf(m, next, size));
    assert size < Pow256(4) by { assert Pow256(2) == 0x1_0000; }
    LERoundTrip(size, 4);
  }

  lemma StandsIn(mem: Bytes, at: nat, h: Bytes, f: Bytes)
    requires Stands(mem, at, h + f)
    ensures Stands(mem, at, h) && Stands(mem, at + |h|, f)
  {
    var d := mem[at..at + |h| + |f|];
    assert mem[at..at + |h|] == d[..|h|] && mem[at + |h|..at + |h| + |f|] == d[|h|..];
  }

  lemma SlicesOf(mem: Bytes, at: nat, h: Bytes)
    requires Stands(mem, at, h) && |h| == 41
    ensures mem[at] == h[0] && mem[at + 1..at + 9] == h[1..9] && mem[at + 9..at + 17] == h[9..17]
    ensures mem[at + 17..at + 37] == h[17..37] && mem[at + 37..at + 41] == h[37..41]
  {
    var d := mem[at..at + 41];
    assert mem[at] == d[0] && mem[at + 1..at + 9] == d[1..9] && mem[at + 9..at + 17] == d[9..17];
    assert mem[at + 17..at + 37] == d[17..37] && mem[at + 37..at + 41] == d[37..41];
  }

  lemma HeaderParts(m: Bytes, next: nat, size: nat)
    requires |m| == META_SIZE
    ensures var h := HeaderOf(m, next, size);
            && h[0] == 0x26 && h[1..9] == m[..8] && h[9..17] == ToLE(next, 8) && h[17..37] == m[8..28]
            && h[37..41] == ToLE(size, 4) && m[..28] == m[..8] + m[8..28]
  {
    hide ToLE;
  }

  /** Two versions that agree on every column but the meta column. */
  ghost predicate SameColumns(s: Schema, a: Bytes, b: Bytes)
    requires IsRecord(s, a) && IsRecord(s, b)
  {
    forall j {:trigger Column(s, a, j)} {:trigger Column(s, b, j)} ::
      0 <= j < |s.sizes| && j != s.meta ==> Column(s, a, j) == Column(s, b, j)
  }

  /** The newer version differs from the older one in the dirty columns and the meta column at most. */
  ghost predicate ChangedOnly(s: Schema, newer: Bytes, older: Bytes, dirty: seq<nat>)
    requires IsRecord(s, newer) && IsRecord(s, older)
  {
    forall j {:trigger Column(s, newer, j)} ::
      0 <= j < |s.sizes| && j != s.meta && j !in dirty ==> Column(s, newer, j) == Column(s, older, j)
  }

  /** Rolling the newer version back by the delta of the older one restores the older one: all other columns, and the
      write timestamp and chain of its meta column. The last bytes of the meta column come back when it was dirty. */
  lemma RollBackOne(s: Schema, newer: Bytes, older: Bytes, dirty: seq<nat>, next: nat, mem: Bytes, at: nat)
    requires IsRecord(s, newer) && IsRecord(s, older) && Columns(s, dirty) && ChangedOnly(s, newer, older, dirty)
    requires Fits(s, dirty) && Stands(mem, at, DeltaOf(s, older, dirty, next))
    ensures var r := RollBack(s, newer, mem, at);
            && r.Some? && SameColumns(s, r.value, older)
            && Column(s, r.value, s.meta)[..META_HEAD] == Column(s, older, s.meta)[..META_HEAD]
            && Column(s, r.value, s.meta)[META_HEAD..]
               == (if s.meta in dirty then Column(s, older, s.meta) else Column(s, newer, s.meta))[META_HEAD..]
  {
    HeaderRead(s, older, dirty, next, mem, at);
    hide Column, PutColumn, Fields, DeltaOf, HeadAt, SizeAt;
    var m := Column(s, older, s.meta);
    RollBackRestores(s, newer, older, dirty);
    var b := Restored(s, newer, older, dirty);
    RestoredColumn(s, newer, older, dirty, s.meta);
    var x := m[..META_HEAD] + Column(s, b, s.meta)[META_HEAD..];
    ColumnOfPut(s, b, s.meta, x, s.meta);
    var r := PutColumn(s, b, s.meta, x);
    assert RollBack(s, newer, mem, at) == Some(r);
    forall j {:trigger Column(s, r, j)} | 0 <= j < |s.sizes| && j != s.meta
      ensures Column(s, r, j) == Column(s, older, j)
    {
      ColumnOfPut(s, b, s.meta, x, j);
      RestoredColumn(s, newer, older, dirty, j);
    }
  }

  /* ---- Chains of versions ---- */

  /** The write timestamp of a version, and the address of the delta that keeps the version before it. */
  function Wts(s: Schema, b: Bytes): nat
    requires IsRecord(s, b)
  {
    FromLE(Column(s, b, s.meta)[..8])
  }

  function Prev(s: Schema, b: Bytes): nat
    requires IsRecord(s, b)
  {
    FromLE(Column(s, b, s.meta)[8..16])
  }

  /** versions[0] is the oldest; dirty[i] are the columns that version i + 1 changed, and the delta that keeps version i
      stands at at[i], where the meta column of version i + 1 points. */
  datatype Chain = Chain(versions: seq<Bytes>, dirty: seq<seq<nat>>, at: seq<nat>)

  ghost predicate Linked(s: Schema, mem: Bytes, c: Chain, i: nat)
    requires i + 1 < |c.versions| && i < |c.dirty| && i < |c.at|
    requires IsRecord(s, c.versions[i]) && IsRecord(s, c.versions[i + 1])
  {
    var newer, older := c.versions[i + 1], c.versions[i];
    && Columns(s, c.dirty[i]) && Fits(s, c.dirty[i]) && ChangedOnly(s, newer, older, c.dirty[i])
    && Stands(mem, c.at[i], DeltaOf(s, older, c.dirty[i], Wts(s, newer)))
    && Prev(s, newer) == c.at[i] != 0 && Wts(s, older) < Wts(s, newer)
  }

  ghost predicate IsChain(s: Schema, mem: Bytes, c: Chain) {
    && SchemaOk(s) && |c.versions| == |c.dirty| + 1 == |c.at| + 1
    && (forall i {:trigger c.versions[i]} :: 0 <= i < |c.versions| ==> IsRecord(s, c.versions[i]))
    && Prev(s, c.versions[0]) == 0
    && (forall i {:trigger Linked(s, mem, c, i)} :: 0 <= i < |c.dirty| ==> Linked(s, mem, c, i))
  }

  /** Record b stands for a version: the same columns, and the same write timestamp and previous delta. */
  ghost predicate Stood(s: Schema, b: Bytes, v: Bytes)
    requires IsRecord(s, b) && IsRecord(s, v)
  {
    SameColumns(s, b, v) && Column(s, b, s.meta)[..META_HEAD] == Column(s, v, s.meta)[..META_HEAD]
  }

  lemma StoodHead(s: Schema, b: Bytes, v: Bytes)
    requires IsRecord(s, b) && IsRecord(s, v) && Stood(s, b, v)
    ensures Wts(s, b) == Wts(s, v) && Prev(s, b) == Prev(s, v)
  {
    hide Column, FromLE;
    var x, y := Column(s, b, s.meta), Column(s, v, s.meta);
    assert x[..8] == x[..META_HEAD][..8] && x[8..16] == x[..META_HEAD][8..16];
    assert y[..8] == y[..META_HEAD][..8] && y[8..16] == y[..META_HEAD][8..16];
  }

  /** One step back along the chain. */
  lemma StepBack(s: Schema, mem: Bytes, c: Chain, k: nat, b: Bytes)
    requires IsChain(s, mem, c) && 0 < k < |c.versions| && IsRecord(s, b) && Stood(s, b, c.versions[k])
    ensures var r := RollBack(s, b, mem, Prev(s, b));
            Prev(s, b) != 0 && r.Some? && Stood(s, r.value, c.versions[k - 1])
  {
    hide Column, RollBack, DeltaOf, IsRecord, Wts, Prev, Stands, Fits;
    var older, cols := c.versions[k - 1], c.dirty[k - 1];
    assert Linked(s, mem, c, k - 1);
    StoodHead(s, b, c.versions[k]);
    ChangedOnlySame(s, b, c.versions[k], older, cols);
    RollBackOne(s, b, older, cols, Wts(s, c.versions[k]), mem, c.at[k - 1]);
  }

  /** Rolling back n times along the pointers of the meta column. */
  function RollTo(s: Schema, b: Bytes, mem: Bytes, n: nat): (r: Option<Bytes>)
    requires IsRecord(s, b)
    ensures r.Some? ==> IsRecord(s, r.value)
    decreases n
  {
    if n == 0 then Some(b)
    else
      var r := RollBack(s, b, mem, Prev(s, b));
      if r.None? then None else RollTo(s, r.value, mem, n - 1)
  }

  /** Rolling back a chain newest first gives every older version: all its columns but the meta column, and its write
      timestamp and previous delta. */
  lemma {:induction false} RollBackChain(s: Schema, b: Bytes, mem: Bytes, c: Chain, k: nat, n: nat)
    requires IsChain(s, mem, c) && n <= k < |c.versions| && IsRecord(s, b) && Stood(s, b, c.versions[k])
    ensures var r := RollTo(s, b, mem, n); r.Some? && Stood(s, r.value, c.versions[k - n])
    decreases n
  {
    hide Column, RollBack, IsRecord, Stood, IsChain, Prev;
    if n > 0 {
      StepBack(s, mem, c, k, b);
      RollBackChain(s, RollBack(s, b, mem, Prev(s, b)).value, mem, c, k - 1, n - 1);
    }
  }

  lemma ChangedOnlySame(s: Schema, b: Bytes, newer: Bytes, older: Bytes, dirty: seq<nat>)
    requires IsRecord(s, b) && IsRecord(s, newer) && IsRecord(s, older)
    requires SameColumns(s, b, newer) && ChangedOnly(s, newer, older, dirty)
    ensures ChangedOnly(s, b, older, dirty)
  {
    hide Column;
    forall j {:trigger Column(s, b, j)} | 0 <= j < |s.sizes| && j != s.meta && j !in dirty
      ensures Column(s, b, j) == Column(s, older, j) {
      assert Column(s, b, j) == Column(s, newer, j);
    }
  }

  /* ---- In place ---- */

  /** An ordered set of column numbers, as the code keeps it. */
  predicate Ordered(cols: seq<nat>) {
    forall i, j :: 0 <= i < j < |cols| ==> cols[i] < cols[j]
  }

  lemma AllAbove(cols: seq<nat>, i: nat, rest: seq<nat>)
    requires cols != [] && Ordered(cols) && cols[0] < i && forall x :: x in rest <==> x == i || x in cols[1..]
    ensures forall k :: 0 <= k < |rest| ==> cols[0] < rest[k]
  {
    forall k | 0 <= k < |rest| ensures cols[0] < rest[k] {
      assert rest[k] in rest;
      if rest[k] != i {
        var j :| 0 <= j < |cols[1..]| && cols[1..][j] == rest[k];
        assert rest[k] == cols[j + 1];
      }
    }
  }

  function InsertColumn(cols: seq<nat>, i: nat): (r: seq<nat>)
    requires Ordered(cols)
    ensures Ordered(r) && forall x :: x in r <==> x == i || x in cols
  {
    if cols == [] then [i]
    else if cols[0] == i then cols
    else if i < cols[0] then
      assert forall x :: x in [i] + cols <==> x == i || x in cols;
      [i] + cols
    else
      var rest := InsertColumn(cols[1..], i);
      assert cols == [cols[0]] + cols[1..];
      AllAbove(cols, i, rest);
      [cols[0]] + rest
  }

  lemma InsertedColumns(s: Schema, cols: seq<nat>, i: nat)
    requires Ordered(cols) && Columns(s, cols) && i < |s.sizes|
    ensures Columns(s, InsertColumn(cols, i))
  {
    hide InsertColumn, Ordered;
    var r := InsertColumn(cols, i);
    forall k | 0 <= k < |r| ensures r[k] < |s.sizes| { assert r[k] in r; }
  }

  class Record {
    const schema: Schema
    const data: array<Byte>
    var dirty: seq<nat>

    constructor (s: Schema, data: array<Byte>)
      requires SchemaOk(s) && data.Length == Offset(s.sizes, |s.sizes|)
      ensures Valid() && schema == s && this.data == data && dirty == []
    {
      this.schema, this.data, dirty := s, data, [];
    }

    ghost predicate Valid()
      reads this
    {
      && SchemaOk(schema) && data.Length == Offset(schema.sizes, |schema.sizes|)
      && Columns(schema, dirty) && Ordered(dirty)
    }

    /** SetColumn: the column is written and marked dirty. */
    method SetColumn(i: nat, c: Bytes)
      requires Valid() && i < |schema.sizes| && |c| == schema.sizes[i]
      modifies this, data
      ensures Valid() && data[..] == PutColumn(schema, old(data[..]), i, c)
      ensures forall x :: x in dirty <==> x == i || x in old(dirty)
      ensures ChangedOnly(schema, data[..], old(data[..]), dirty)
    {
      ghost var b := data[..];
      WriteColumn(i, c);
      InsertedColumns(schema, dirty, i);
      dirty := InsertColumn(dirty, i);
      forall j {:trigger Column(schema, data[..], j)} | 0 <= j < |schema.sizes| && j !in dirty
        ensures Column(schema, data[..], j) == Column(schema, b, j) {
        ColumnOfPut(schema, b, i, c, j);
      }
    }

    method WriteColumn(i: nat, c: Bytes)
      requires Valid() && i < |schema.sizes| && |c| == schema.sizes[i]
      modifies data
      ensures data[..] == PutColumn(schema, old(data[..]), i, c)
    {
      ColumnInside(schema, i);
      CopyInto(data, Offset(schema.sizes, i), c);
    }

    /** estimate_delta_size. */
    method EstimateDeltaSize() returns (n: nat)
      requires Valid()
      ensures n == 41 + FieldsSize(schema, dirty)
    {
      n := 0;
      for k := |dirty| downto 0
        invariant n == FieldsSize(schema, dirty[k..])
      {
        n := n + 16 + schema.sizes[dirty[k]];
        assert dirty[k..][1..] == dirty[k + 1..];
      }
      assert dirty[0..] == dirty;
      n := n + DATA_AT;
    }

    /** roll_back: the fields of the delta go back into their columns, then its header into the meta column. */
    method RollBackTo(mem: array<Byte>, at: nat)
      requires Valid() && mem != data && RollBack(schema, data[..], mem[..], at).Some?
      modifies this, data
      ensures Valid() && data[..] == RollBack(schema, old(data[..]), mem[..], at).value
    {
      hide Column, PutColumn, ToLE, FromLE, Offset, Columns, Ordered, RollData, HeadAt;
      ghost var m := mem[..];
      assert mem[at + 37..at + 41] == m[at + 37..at + 41];
      RollColumns(mem, at + DATA_AT, at + FromLE(mem[at + 37..at + 41]));
      var meta := ReadColumn(schema.meta);
      var head := mem[at + 1..at + 9] + mem[at + 17..at + 37];
      assert head == HeadAt(m, at) by { HeadParts(m, at); }
      SetColumn(schema.meta, head + meta[META_HEAD..]);
    }

    /** The loop of roll_back over the fields between two addresses. */
    method RollColumns(mem: array<Byte>, from: nat, end: nat)
      requires Valid() && mem != data && from <= end <= mem.Length && RollData(schema, data[..], mem[from..end]).Some?
      modifies data
      ensures Some(data[..]) == RollData(schema, old(data[..]), mem[from..end])
    {
      hide PutColumn, FromLE, Offset, Columns, Ordered, RollData;
      ghost var was, m := data[..], mem[..];
      var start := from;
      assert mem[from..end] == m[from..end];
      while start < end
        invariant start <= end && RollData(schema, data[..], m[start..end]) == RollData(schema, was, m[from..end])
      {
        RollStep(schema, data[..], m, start, end);
        assert mem[start..start + 8] == m[start..start + 8] && mem[start + 8..start + 16] == m[start + 8..start + 16];
        var id, size := FromLE(mem[start..start + 8]), FromLE(mem[start + 8..start + 16]);
        assert mem[start + 16..start + 16 + size] == m[start + 16..start + 16 + size];
        WriteColumn(id, mem[start + 16..start + 16 + size]);
        start := start + 16 + size;
      }
      NoFields(schema, data[..], m[end..end]);
    }

    method ReadColumn(i: nat) returns (c: Bytes)
      requires Valid() && i < |schema.sizes|
      ensures c == Column(schema, data[..], i)
    {
      ColumnInside(schema, i);
      c := data[Offset(schema.sizes, i)..Offset(schema.sizes, i) + schema.sizes[i]];
    }

    /** serialize_to_delta, into a buffer. */
    method SerializeToDelta(buf: array<Byte>, at: nat) returns (end: nat)
      requires Valid() && buf != data && at + FieldsSize(schema, dirty) <= buf.Length
      modifies buf
      ensures end == at + FieldsSize(schema, dirty)
      ensures buf[at..end] == Fields(schema, data[..], dirty)
      ensures forall j :: 0 <= j < buf.Length && !(at <= j < end) ==> buf[j] == old(buf[j])
    {
      ghost var b, done := data[..], [];
      end := at;
      assert dirty[0..] == dirty;
      hide Field, Columns, Ordered;
      for k := 0 to |dirty|
        invariant at <= end && Columns(schema, dirty[k..])
        invariant end + FieldsSize(schema, dirty[k..]) == at + FieldsSize(schema, dirty)
        invariant forall j :: 0 <= j < buf.Length && !(at <= j < end) ==> buf[j] == old(buf[j])
        invariant buf[at..end] == done && done + Fields(schema, b, dirty[k..]) == Fields(schema, b, dirty)
      {
        NextField(schema, b, dirty, k);
        end := PutField(buf, end, dirty[k], b, at);
        Assoc(done, Field(schema, b, dirty[k]), Fields(schema, b, dirty[k + 1..]));
        done := done + Field(schema, b, dirty[k]);
      }
      assert dirty[|dirty|..] == [];
    }

    /** One field: number, size, bytes. */
    method PutField(buf: array<Byte>, from: nat, i: nat, ghost b: Bytes, ghost at: nat) returns (to: nat)
      requires Valid() && buf != data && i < |schema.sizes| && b == data[..] && at <= from
      requires from + 16 + schema.sizes[i] <= buf.Length
      modifies buf
      ensures to == from + 16 + schema.sizes[i]
      ensures forall j :: 0 <= j < buf.Length && !(from <= j < to) ==> buf[j] == old(buf[j])
      ensures buf[at..to] == old(buf[at..from]) + Field(schema, b, i)
    {
      ColumnInside(schema, i);
      var o := Offset(schema.sizes, i);
      var c := data[o..o + schema.sizes[i]];
      var x := ToLE(i, 8) + ToLE(schema.sizes[i], 8) + c;
      hide ToLE, Offset;
      to := from + |x|;
      CopyInto(buf, from, x);
      assert buf[from..to] == x;
      assert buf[at..to] == buf[at..from] + buf[from..to];
    }
  }

  lemma RollFirst(s: Schema, b: Bytes, d: Bytes)
    requires IsRecord(s, b) && d != [] && RollData(s, b, d).Some?
    ensures |d| >= 16
    ensures var id, size := FromLE(d[0..8]), FromLE(d[8..16]);
            && id < |s.sizes| && size == s.sizes[id] && 16 + size <= |d|
            && RollData(s, b, d) == RollData(s, PutColumn(s, b, id, d[16..16 + size]), d[16 + size..|d|])
  {
    hide FromLE, PutColumn;
    assert d[0..8] == d[..8];
    assert d[16 + FromLE(d[8..16])..|d|] == d[16 + FromLE(d[8..16])..];
  }

  lemma RollStep(s: Schema, b: Bytes, mem: Bytes, i: nat, end: nat)
    requires IsRecord(s, b) && i < end <= |mem| && RollData(s, b, mem[i..end]).Some?
    ensures i + 16 <= end
    ensures var id, size := FromLE(mem[i..i + 8]), FromLE(mem[i + 8..i + 16]);
            && id < |s.sizes| && size == s.sizes[id] && i + 16 + size <= end
            && RollData(s, b, mem[i..end]) ==
               RollData(s, PutColumn(s, b, id, mem[i + 16..i + 16 + size]), mem[i + 16 + size..end])
  {
    hide FromLE, PutColumn, RollData;
    var r := mem[i..end];
    RollFirst(s, b, r);
    SliceOfSlice(mem, i, end, 0, 8);
    SliceOfSlice(mem, i, end, 8, 16);
    var size := FromLE(r[8..16]);
    SliceOfSlice(mem, i, end, 16, 16 + size);
    SliceOfSlice(mem, i, end, 16 + size, |r|);
  }

  lemma SliceOfSlice(b: Bytes, i: nat, j: nat, x: nat, y: nat)
    requires i <= j <= |b| && x <= y <= j - i
    ensures b[i..j][x..y] == b[i + x..i + y]
  {
    forall k | 0 <= k < y - x ensures b[i..j][x..y][k] == b[i + x..i + y][k] {}
  }

  lemma NoFields(s: Schema, b: Bytes, d: Bytes)
    requires IsRecord(s, b) && d == []
    ensures RollData(s, b, d) == Some(b)
  {}

  lemma HeadParts(mem: Bytes, at: nat)
    requires at + DATA_AT <= |mem|
    ensures HeadAt(mem, at) == mem[at + 1..at + 9] + mem[at + 17..at + 37]
  {}

  lemma NextField(s: Schema, b: Bytes, cols: seq<nat>, k: nat)
    requires IsRecord(s, b) && k < |cols| && Columns(s, cols[k..])
    ensures cols[k] < |s.sizes| && Columns(s, cols[k + 1..])
    ensures Fields(s, b, cols[k..]) == Field(s, b, cols[k]) + Fields(s, b, cols[k + 1..])
    ensures FieldsSize(s, cols[k..]) == 16 + s.sizes[cols[k]] + FieldsSize(s, cols[k + 1..])
  {
    hide Field;
    var rest := cols[k..];
    assert rest[0] == cols[k] && rest[1..] == cols[k + 1..];
  }
}
