/** Commits and snapshot reads of one record: every commit leaves the version it replaces in a delta, and a read rolls a
    copy of the record back until its write timestamp is in the snapshot. Delta memory is not reused here. */
module Snapshot {
  import opened Endian
  import opened LogCodec
  import opened Delta

  /** fill_in_delta_record: the delta keeps, of the global record, the columns that the local one has changed. The
      global record takes over the set of changed columns. */
  method FillInDelta(local: Record, global: Record, mem: array<Byte>, at: nat, commit: nat) returns (size: nat)
    requires local.Valid() && global.Valid() && local != global && local.schema == global.schema
    requires mem != local.data && mem != global.data && at + 41 + FieldsSize(local.schema, local.dirty) <= mem.Length
    modifies local, global, mem
    ensures local.Valid() && global.Valid() && local.dirty == [] && global.dirty == old(local.dirty)
    ensures var d := DeltaOf(global.schema, global.data[..], old(local.dirty), commit);
            size == |d| && mem[..] == Splice(old(mem[..]), at, d)
  {
    size := local.EstimateDeltaSize();
    var meta := global.ReadColumn(global.schema.meta);
    ghost var was, dirty := mem[..], local.dirty;
    ghost var h, f := HeaderOf(meta, commit, size), Fields(global.schema, global.data[..], dirty);
    CopyInto(mem, at, HeaderOf(meta, commit, size));
    ghost var with := mem[..];
    global.dirty, local.dirty := local.dirty, [];
    var end := global.SerializeToDelta(mem, at + 41);
    assert mem[..] == Splice(with, at + 41, f);
    SpliceTwice(was, at, h, f);
  }

  lemma SpliceTwice(b: Bytes, at: nat, x: Bytes, y: Bytes)
    requires at + |x| + |y| <= |b|
    ensures Splice(Splice(b, at, x), at + |x|, y) == Splice(b, at, x + y)
  {}

  /* ---- Commits ---- */

  /** The delta that keeps version i lies outside the n bytes at an address. */
  ghost predicate Clear(s: Schema, c: Chain, at: nat, n: nat, i: nat)
    requires i < |c.at| && i < |c.dirty| && Columns(s, c.dirty[i])
  {
    c.at[i] + 41 + FieldsSize(s, c.dirty[i]) <= at || at + n <= c.at[i]
  }

  ghost predicate AllClear(s: Schema, mem: Bytes, c: Chain, at: nat, n: nat)
    requires IsChain(s, mem, c)
  {
    forall i {:trigger Linked(s, mem, c, i)} :: 0 <= i < |c.at| ==> Linked(s, mem, c, i) && Clear(s, c, at, n, i)
  }

  lemma StandsApart(mem: Bytes, x: nat, d: Bytes, at: nat, e: Bytes)
    requires Stands(mem, x, d) && at + |e| <= |mem| && (x + |d| <= at || at + |e| <= x)
    ensures Stands(Splice(mem, at, e), x, d)
  {
    assert Splice(mem, at, e)[x..x + |d|] == mem[x..x + |d|];
  }

  /** A delta written elsewhere leaves the chain as it is. */
  lemma ChainKept(s: Schema, mem: Bytes, c: Chain, at: nat, d: Bytes)
    requires IsChain(s, mem, c) && AllClear(s, mem, c, at, |d|) && at + |d| <= |mem|
    ensures IsChain(s, Splice(mem, at, d), c)
  {
    hide Splice, DeltaOf, Column, FieldsSize, Wts, Prev, IsRecord, ChangedOnly, Stands;
    var now := Splice(mem, at, d);
    forall i {:trigger Linked(s, now, c, i)} | 0 <= i < |c.dirty| ensures Linked(s, now, c, i) {
      assert Linked(s, mem, c, i) && Clear(s, c, at, |d|, i);
      var older, newer := c.versions[i], c.versions[i + 1];
      StandsApart(mem, c.at[i], DeltaOf(s, older, c.dirty[i], Wts(s, newer)), at, d);
    }
  }

  ghost function Extended(c: Chain, v: Bytes, dirty: seq<nat>, at: nat): Chain {
    Chain(c.versions + [v], c.dirty + [dirty], c.at + [at])
  }

  lemma ChainGrows(s: Schema, mem: Bytes, c: Chain, v: Bytes, dirty: seq<nat>, at: nat)
    requires IsChain(s, mem, c) && IsRecord(s, v) && Columns(s, dirty) && Fits(s, dirty)
    requires var last := c.versions[|c.at|];
             && ChangedOnly(s, v, last, dirty) && Wts(s, last) < Wts(s, v) && Prev(s, v) == at != 0
             && Stands(mem, at, DeltaOf(s, last, dirty, Wts(s, v)))
    ensures IsChain(s, mem, Extended(c, v, dirty, at))
  {
    hide DeltaOf, Column, FieldsSize, Wts, Prev, IsRecord, ChangedOnly, Stands, Fits, Columns;
    var e := Extended(c, v, dirty, at);
    assert e.versions[0] == c.versions[0];
    forall i {:trigger Linked(s, mem, e, i)} | 0 <= i < |e.dirty| ensures Linked(s, mem, e, i) {
      if i < |c.dirty| {
        assert Linked(s, mem, c, i);
        assert e.versions[i] == c.versions[i] && e.versions[i + 1] == c.versions[i + 1];
      } else { assert e.versions[i] == c.versions[|c.at|] && e.versions[i + 1] == v; }
    }
  }

  /** The meta column of a committed version. */
  function NewMeta(m: Bytes, commit: nat, at: nat, epoch: nat, size: nat): (r: Bytes)
    requires |m| == META_SIZE
    ensures |r| == META_SIZE
  {
    ToLE(commit, 8) + ToLE(at, 8) + ToLE(epoch, 8) + ToLE(size, 4) + m[28..36] + [m[36]]
  }

  /** The meta column also has the epoch and the size of the delta; the rest of it is as before. */
  ghost predicate Stamped(s: Schema, v: Bytes, b: Bytes, epoch: nat, size: nat)
    requires IsRecord(s, v) && IsRecord(s, b)
  {
    var m, was := Column(s, v, s.meta), Column(s, b, s.meta);
    m[16..24] == ToLE(epoch, 8) && m[24..28] == ToLE(size, 4) && m[28..] == was[28..]
  }

  lemma NewHead(s: Schema, b: Bytes, commit: nat, at: nat, epoch: nat, size: nat)
    requires IsRecord(s, b) && commit < U64 && at < U64
    ensures var v := PutColumn(s, b, s.meta, NewMeta(Column(s, b, s.meta), commit, at, epoch, size));
            Wts(s, v) == commit && Prev(s, v) == at && SameColumns(s, v, b) && Stamped(s, v, b, epoch, size)
  {
    var m := NewMeta(Column(s, b, s.meta), commit, at, epoch, size);
    assert Pow256(2) == 0x1_0000 && Pow256(4) == U32 && Pow256(6) == 0x1_0000_0000_0000 && Pow256(8) == U64;
    LERoundTrip(commit, 8);
    LERoundTrip(at, 8);
    assert m[..8] == ToLE(commit, 8) && m[8..16] == ToLE(at, 8);
    assert m[16..24] == ToLE(epoch, 8) && m[24..28] == ToLE(size, 4) && m[28..] == Column(s, b, s.meta)[28..];
    hide Column, PutColumn, ToLE, FromLE, NewMeta;
    forall j {:trigger Column(s, b, j)} | 0 <= j < |s.sizes|
      ensures Column(s, PutColumn(s, b, s.meta, m), j) == if j == s.meta then m else Column(s, b, j)
    {
      ColumnOfPut(s, b, s.meta, m, j);
    }
  }

  /** A commit: the delta of the global record is filled in, the local one gets its new meta column, and the global one
      becomes a copy of it. The chain is one version longer. */
  method Commit(local: Record, global: Record, mem: array<Byte>, at: nat, epoch: nat, commit: nat, ghost c: Chain)
    returns (ghost e: Chain)
    requires local.Valid() && global.Valid() && local != global && local.schema == global.schema
    requires mem != local.data && mem != global.data && local.data != global.data
    requires IsChain(local.schema, mem[..], c) && c.versions[|c.at|] == global.data[..]
    requires ChangedOnly(local.schema, local.data[..], global.data[..], local.dirty) && Fits(local.schema, local.dirty)
    requires 0 < at < U64 && Wts(global.schema, global.data[..]) < commit < U64
    requires var n := 41 + FieldsSize(local.schema, local.dirty);
             at + n <= mem.Length && AllClear(local.schema, mem[..], c, at, n)
    modifies local, global, mem, local.data, global.data
    ensures local.Valid() && global.Valid()
    ensures e == Extended(c, global.data[..], old(local.dirty), at) && IsChain(global.schema, mem[..], e)
    ensures SameColumns(global.schema, global.data[..], old(local.data[..]))
    ensures Stamped(global.schema, global.data[..], old(local.data[..]), epoch,
                    41 + FieldsSize(local.schema, old(local.dirty)))
    ensures Wts(global.schema, global.data[..]) == commit
  {
    ghost var s, b, was, dirty := local.schema, local.data[..], global.data[..], local.dirty;
    hide Column, PutColumn, NewMeta, Wts, Prev, Stamped, ChangedOnly, SameColumns, DeltaOf, FieldsSize, Columns,
         IsChain, Splice;
    ghost var d := DeltaOf(s, was, dirty, commit);
    ChainKept(s, mem[..], c, at, d);
    var size := FillInDelta(local, global, mem, at, commit);
    assert Stands(mem[..], at, d) by { SpliceStands(old(mem[..]), at, d); }
    var meta := local.ReadColumn(local.schema.meta);
    NewHead(s, b, commit, at, epoch, size);
    local.SetColumn(local.schema.meta, NewMeta(meta, commit, at, epoch, size));
    CopyInto(global.data, 0, local.data[..]);
    assert global.data[..] == local.data[..] by { SpliceAll(was, local.data[..]); }
    e := Extended(c, global.data[..], dirty, at);
    StillChanged(s, global.data[..], b, was, dirty);
    ChainGrows(s, mem[..], c, global.data[..], dirty, at);
  }

  lemma SpliceStands(b: Bytes, at: nat, d: Bytes)
    requires at + |d| <= |b|
    ensures Stands(Splice(b, at, d), at, d)
  {}

  lemma SpliceAll(b: Bytes, x: Bytes)
    requires |b| == |x|
    ensures Splice(b, 0, x) == x
  {}

  lemma StillChanged(s: Schema, v: Bytes, b: Bytes, was: Bytes, dirty: seq<nat>)
    requires IsRecord(s, v) && IsRecord(s, b) && IsRecord(s, was)
    requires SameColumns(s, v, b) && ChangedOnly(s, b, was, dirty)
    ensures ChangedOnly(s, v, was, dirty)
  {
    ChangedOnlySame(s, v, b, was, dirty);
  }

  /* ---- Reads ---- */

  /** Version k is the newest one in the snapshot. */
  ghost predicate Newest(s: Schema, mem: Bytes, c: Chain, ts: nat, k: nat)
    requires IsChain(s, mem, c)
  {
    && k < |c.versions| && Wts(s, c.versions[k]) <= ts
    && forall j {:trigger c.versions[j]} :: k < j < |c.versions| ==> Wts(s, c.versions[j]) > ts
  }

  /** The read loop: a copy of the newest version rolls back until its timestamp is in the snapshot. It ends with the
      newest version there, or finds that the record did not exist then. */
  method ReadAt(rec: Record, mem: array<Byte>, ts: nat, ghost c: Chain) returns (found: bool, ghost k: nat)
    requires rec.Valid() && mem != rec.data && IsChain(rec.schema, mem[..], c)
    requires Stood(rec.schema, rec.data[..], c.versions[|c.at|])
    modifies rec, rec.data
    ensures rec.Valid()
    ensures found <==>
            exists j {:trigger c.versions[j]} :: 0 <= j < |c.versions| && Wts(rec.schema, c.versions[j]) <= ts
    ensures found ==> Newest(rec.schema, mem[..], c, ts, k) && Stood(rec.schema, rec.data[..], c.versions[k])
  {
    hide Column, RollBack, Stood, IsChain, FromLE;
    ghost var s, m := rec.schema, mem[..];
    ChainShape(s, m, c);
    k := |c.at|;
    StoodHead(s, rec.data[..], c.versions[k]);
    var meta := rec.ReadColumn(rec.schema.meta);
    while FromLE(meta[..8]) > ts
      invariant rec.Valid() && k < |c.versions| && Stood(s, rec.data[..], c.versions[k])
      invariant meta == Column(s, rec.data[..], s.meta)
      invariant Wts(s, rec.data[..]) == Wts(s, c.versions[k]) && Prev(s, rec.data[..]) == Prev(s, c.versions[k])
      invariant forall j {:trigger c.versions[j]} :: k < j < |c.versions| ==> Wts(s, c.versions[j]) > ts
      decreases k
    {
      if FromLE(meta[8..16]) == 0 {
        if k > 0 { StepBack(s, m, c, k, rec.data[..]); }
        return false, k;
      }
      if k == 0 { FirstHasNone(s, m, c); }
      StepBack(s, m, c, k, rec.data[..]);
      rec.RollBackTo(mem, FromLE(meta[8..16]));
      k := k - 1;
      StoodHead(s, rec.data[..], c.versions[k]);
      meta := rec.ReadColumn(rec.schema.meta);
    }
    found := true;
  }

  lemma ChainShape(s: Schema, mem: Bytes, c: Chain)
    requires IsChain(s, mem, c)
    ensures |c.versions| == |c.at| + 1
    ensures forall i {:trigger c.versions[i]} :: 0 <= i < |c.versions| ==> IsRecord(s, c.versions[i])
  {}

  lemma FirstHasNone(s: Schema, mem: Bytes, c: Chain)
    requires IsChain(s, mem, c)
    ensures Prev(s, c.versions[0]) == 0
  {}
}
