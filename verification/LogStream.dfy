/** One log stream on a memory node: a list of segments that refines one flat stream of items, the loops that
    replay it, and the recycling of its replayed segments. */
module LogStream {
  import opened Endian
  import opened LogCodec
  import opened LogWire
  import opened RedoPage
  import opened LogItems

  /** The pages this node holds; the frames of different pages do not overlap. */
  class Replica {
    const frames: map<Addr, array<Byte>>

    constructor (frames: map<Addr, array<Byte>>)
      ensures this.frames == frames
    {
      this.frames := frames;
    }

    ghost predicate Valid() {
      && (forall p :: p in frames ==> frames[p].Length == PAGE_SIZE)
      && (forall p, q :: p in frames && q in frames && p != q ==> frames[p] != frames[q])
    }

    ghost function Value(): Store
      requires Valid()
      reads frames.Values
    {
      map p | p in frames :: frames[p][..]
    }

    /** GetCurrentPageVersion. */
    method ReadVersion(p: Addr) returns (v: nat)
      requires Valid()
      ensures v == CurrentVersion(Value(), p)
    {
      if p !in frames { return 0; }
      return FromLE(frames[p][VERSION_AT..VERSION_AT + 8]);
    }

    /** The version check and the application of one record; Drained says that the record was taken. */
    method TakeRecord(c: Rec) returns (why: Outcome)
      requires Valid() && ItemOk(Record(c))
      modifies frames.Values
      ensures Value() == Take(Record(c), old(Value())).store
      ensures why == match Take(Record(c), old(Value())) case Took(_, _) => Drained case Stop(_, w) => w
      ensures Taken(c, old(Value()), Value(), why)
    {
      TakeIsTaken(c, Value());
      hide Taken, Says, Decode, ApplyOps, FromLE, ToLE, AllInPage;
      var v := ReadVersion(c.page);
      if c.version <= v { return Stale; }
      if c.version > v + 1 { return Parked; }
      if c.page !in frames { return Failed; }
      var page := frames[c.page];
      ghost var before := Value();
      assert before[c.page] == page[..];
      var ok := ProcessLogRecord(page, c.payload);
      if !ok {
        assert Value() == before[c.page := page[..]];
        return Failed;
      }
      SetVersion(page, c.version);
      assert Value() == before[c.page := page[..]];
      return Drained;
    }

    /** Replays the n bytes at data[at..], up to a record that stops: the inner loop of ReplayLogData. */
    method ReplayChunk(data: Bytes, at: nat, n: nat, ghost its: seq<Item>)
      returns (processed: nat, applied: nat, why: Outcome)
      requires Valid() && AllOk(its) && CloseIsLast(its)
      requires at + n <= |data| && data[at..at + n] == Flat(its)
      modifies frames.Values
      ensures var r := Play(its, old(Value()));
              && Value() == r.store && why == r.outcome && applied == r.applied
              && processed == |Flat(its[..r.count])|
    {
      hide Take, Taken, ItemOk, ItemBytes, Header, PlayedUpTo, Flat, CloseIsLast, FromLE;
      processed, applied, why := 0, 0, Drained;
      ghost var k := 0;
      PlayedNone(its, Value());
      while processed < n
        invariant k <= |its| && processed == |Flat(its[..k])| && why == Drained
        invariant PlayedUpTo(its, old(Value()), k, applied, Value())
        decreases n - processed
      {
        ChunkAt(data, at, n, its, k);
        PlayOneMore(its, old(Value()), k, applied, Value());
        if data[at + processed] == CLOSE_MARKER {
          processed := processed + 1;
          k := k + 1;
          break;
        }
        var b := data[at + processed..at + n];
        assert |b| >= HEADER_SIZE && FieldAt(b, 0, 2) == MAGIC;
        var len := FieldAt(b, 18, 4);
        assert HEADER_SIZE + len <= |b|;
        var c := Rec(FieldAt(b, 2, 8), FieldAt(b, 10, 8), b[HEADER_SIZE..HEADER_SIZE + len]);
        assert its[k] == Record(c);
        why := TakeRecord(c);
        if why != Drained { return; }
        applied := applied + 1;
        processed := processed + HEADER_SIZE + len;
        k := k + 1;
      }
      PlayedAll(its, old(Value()), k, applied, Value(), data[at..at + n]);
    }
  }

  /** What a record does, from its bytes and those of its page: the version at 16 decides, and a record that is the very
      next one runs its operations and leaves its own version there. */
  ghost predicate Taken(c: Rec, st: Store, now: Store, why: Outcome) {
    var v := if c.page in st then FromLE(st[c.page][16..24]) else 0;
    && (why == Stale <==> c.version <= v) && (why == Parked <==> c.version > v + 1) && now.Keys == st.Keys
    && (forall p :: p in st && (p != c.page || why == Stale || why == Parked) ==> now[p] == st[p])
    && (c.version == v + 1 && c.page !in st ==> why == Failed)
    && (c.version == v + 1 && c.page in st ==>
          forall ops, good :: Says(c.payload, ops, good) ==>
            && (why == if good then Drained else Failed) && AllInPage(ops, PAGE_SIZE)
            && var b := ApplyOps(st[c.page], ops);
               now[c.page] == if good then Splice(b, 16, ToLE(c.version, 8)) else b)
  }

  lemma TakeIsTaken(c: Rec, st: Store)
    requires ItemOk(Record(c))
    ensures var k := Take(Record(c), st); Taken(c, st, k.store, if k.Took? then Drained else k.why)
  {
    forall ops, good | Says(c.payload, ops, good) ensures Decode(c.payload) == Decoded(ops, good) {
      PayloadFormat(c.payload, ops, good);
    }
    hide Says, ApplyOps, FromLE, ToLE;
  }

  predicate CloseIsLast(its: seq<Item>) {
    forall i :: 0 <= i < |its| - 1 ==> its[i].Record?
  }

  lemma PlayedNone(its: seq<Item>, st: Store)
    requires AllOk(its)
    ensures PlayedUpTo(its, st, 0, 0, st) && |Flat(its[..0])| == 0
  {
    assert its[0..] == its;
  }

  /** The loop ends at the last item: it has read all n bytes, or it met the close marker. */
  lemma PlayedAll(its: seq<Item>, st: Store, k: nat, n: nat, now: Store, b: Bytes)
    requires AllOk(its) && PlayedUpTo(its, st, k, n, now) && b == Flat(its)
    requires |Flat(its[..k])| >= |b| || k == |its|
    ensures Play(its, st) == Played(|its|, n, now, Drained) && its[..|its|] == its && k == |its|
  {
    assert its[..|its|] == its;
    FlatOrder(its, k, |its|);
    assert its[|its|..] == [];
  }

  /** What the loop finds at item k of a chunk. */
  lemma ChunkAt(data: Bytes, at: nat, n: nat, its: seq<Item>, k: nat)
    requires AllOk(its) && CloseIsLast(its) && at + n <= |data| && data[at..at + n] == Flat(its)
    requires k <= |its| && |Flat(its[..k])| < n
    ensures k < |its|
    ensures var off := |Flat(its[..k])|; var b := data[at + off..at + n];
            match its[k]
            case Close => k == |its| - 1 && data[at + off] == CLOSE_MARKER
            case Record(c) =>
              && data[at + off] != CLOSE_MARKER && |b| >= HEADER_SIZE + |c.payload| && FieldAt(b, 0, 2) == MAGIC
              && FieldAt(b, 2, 8) == c.page && FieldAt(b, 10, 8) == c.version && FieldAt(b, 18, 4) == |c.payload|
              && b[HEADER_SIZE..HEADER_SIZE + |c.payload|] == c.payload
    ensures |Flat(its[..k + 1])| == |Flat(its[..k])| + if its[k].Close? then 1 else HEADER_SIZE + |its[k].rec.payload|
  {
    hide Decode, AllInPage, ToLE, FromLE;
    assert its[..|its|] == its;
    FlatAt(its, k);
    var off := |Flat(its[..k])|;
    var b := data[at + off..at + n];
    assert b == Flat(its)[off..];
    assert b[..|ItemBytes(its[k])|] == ItemBytes(its[k]);
    match its[k]
    case Close =>
    case Record(c) =>
      assert ItemOk(its[k]);
      assert b[..HEADER_SIZE] == b[..|ItemBytes(its[k])|][..HEADER_SIZE] == Header(c);
      HeaderRoundTrip(b, c);
      assert b[HEADER_SIZE..HEADER_SIZE + |c.payload|] == b[..|ItemBytes(its[k])|][HEADER_SIZE..];
  }

  /* ---- Segments ---- */

  /** A segment: its size, the bytes received in it so far, and its translated address (0 when untranslatable). */
  datatype Segment = Segment(addr: nat, size: nat, data: Bytes, ptr: nat)

  /** All bytes received in a list of segments. */
  function Joined(segs: seq<Segment>): Bytes {
    if segs == [] then [] else segs[0].data + Joined(segs[1..])
  }

  /** All items of a list of chunks. */
  function Items(chunks: seq<seq<Item>>): seq<Item> {
    if chunks == [] then [] else chunks[0] + Items(chunks[1..])
  }

  predicate ChunkOk(seg: Segment, chunk: seq<Item>) {
    seg.ptr != 0 && seg.data == Flat(chunk) && AllOk(chunk) && CloseIsLast(chunk)
  }

  /** Every segment holds whole items, with a close marker only at its end. */
  predicate ChunksOk(segs: seq<Segment>, chunks: seq<seq<Item>>) {
    |segs| == |chunks| && forall i :: 0 <= i < |segs| ==> ChunkOk(segs[i], chunks[i])
  }

  lemma {:induction false} JoinedConcat(a: seq<Segment>, b: seq<Segment>)
    ensures Joined(a + b) == Joined(a) + Joined(b)
  {
    if a == [] { assert a + b == b; }
    else {
      JoinedConcat(a[1..], b);
      assert (a + b)[1..] == a[1..] + b && (a + b)[0] == a[0];
      assert Joined(a + b) == a[0].data + (Joined(a[1..]) + Joined(b));
    }
  }

  lemma {:induction false} ItemsConcat(a: seq<seq<Item>>, b: seq<seq<Item>>)
    ensures Items(a + b) == Items(a) + Items(b)
  {
    if a == [] { assert a + b == b; }
    else {
      ItemsConcat(a[1..], b);
      assert (a + b)[1..] == a[1..] + b && (a + b)[0] == a[0];
      assert Items(a + b) == a[0] + (Items(a[1..]) + Items(b));
    }
  }

  /** The segment list is the flat stream. */
  lemma {:induction false} JoinedIsFlat(segs: seq<Segment>, chunks: seq<seq<Item>>)
    requires ChunksOk(segs, chunks)
    ensures Joined(segs) == Flat(Items(chunks)) && AllOk(Items(chunks))
  {
    hide Flat, ItemOk, CloseIsLast;
    if segs != [] {
      assert ChunkOk(segs[0], chunks[0]);
      JoinedIsFlat(segs[1..], chunks[1..]);
      FlatConcat(chunks[0], Items(chunks[1..]));
    } else {
      FlatEmpty();
    }
  }

  lemma FlatEmpty()
    ensures Flat([]) == []
  {
  }

  /** Segment i begins, in bytes, where chunk i begins in items. */
  lemma SegmentAt(segs: seq<Segment>, chunks: seq<seq<Item>>, i: nat)
    requires ChunksOk(segs, chunks) && i < |segs|
    ensures var live, s := Items(chunks), |Items(chunks[..i])|;
            && s + |chunks[i]| <= |live| && live[s..s + |chunks[i]|] == chunks[i]
            && live[..s] == Items(chunks[..i])
            && |Flat(live[..s])| == |Joined(segs[..i])|
            && |Flat(live[..s + |chunks[i]|])| == |Joined(segs[..i])| + |segs[i].data| <= |Joined(segs)|
  {
    hide Flat, ItemOk, CloseIsLast, AllOk;
    var live, s := Items(chunks), |Items(chunks[..i])|;
    ItemsConcat(chunks[..i], chunks[i..]);
    assert chunks[..i] + chunks[i..] == chunks;
    assert Items(chunks[i..]) == chunks[i] + Items(chunks[i..][1..]);
    JoinedIsFlat(segs[..i], chunks[..i]);
    JoinedConcat(segs[..i], segs[i..]);
    assert segs[..i] + segs[i..] == segs;
    assert Joined(segs[i..]) == segs[i].data + Joined(segs[i..][1..]);
    assert ChunkOk(segs[i], chunks[i]);
    FlatConcat(live[..s], chunks[i]);
    assert live[..s + |chunks[i]|] == live[..s] + chunks[i];
  }

  /** A slice of the items is a slice of the bytes. */
  lemma FlatSlice(its: seq<Item>, i: nat, j: nat)
    requires i <= j <= |its|
    ensures |Flat(its[..i])| <= |Flat(its[..j])| <= |Flat(its)|
    ensures Flat(its)[|Flat(its[..i])|..|Flat(its[..j])|] == Flat(its[i..j])
  {
    hide Flat;
    FlatConcat(its[..i], its[i..j]);
    FlatConcat(its[..j], its[j..]);
    assert its[..i] + its[i..j] == its[..j] && its[..j] + its[j..] == its;
  }

  /** The record loop, started at byte off of the live bytes with n bytes allowed, sees the items cur to e. */
  lemma LocatedItems(segs: seq<Segment>, chunks: seq<seq<Item>>, i: nat, cur: nat, lim: nat)
    requires ChunksOk(segs, chunks) && i < |segs| && cur <= lim <= |Items(chunks)|
    requires |Joined(segs[..i])| <= |Flat(Items(chunks)[..cur])| < |Joined(segs[..i])| + |segs[i].data|
    ensures var live, start := Items(chunks), |Joined(segs[..i])|;
            var e := Min(lim, |Items(chunks[..i])| + |chunks[i]|);
            var off, end := |Flat(live[..cur])|, |Flat(live[..e])|;
            && |Items(chunks[..i])| <= cur <= e && off <= end <= start + |segs[i].data|
            && end == Min(|Flat(live[..lim])|, start + |segs[i].data|)
            && segs[i].data[off - start..end - start] == Flat(live[cur..e])
            && AllOk(live[cur..e]) && CloseIsLast(live[cur..e])
            && (cur < lim ==> cur < e) && start + |segs[i].data| <= |Joined(segs)|
  {
    hide Flat, ItemOk, Joined, Items;
    var live, s := Items(chunks), |Items(chunks[..i])|;
    SegmentAt(segs, chunks, i);
    if cur < s { FlatOrder(live, cur, s); }
    var t := s + |chunks[i]|;
    if t <= cur { FlatOrder(live, t, cur); }
    assert ChunkOk(segs[i], chunks[i]);
    var e := Min(lim, t);
    FlatOrder(live, e, if e == lim then t else lim);
    FlatOrder(live, cur, e);
    assert live[s..t][..cur - s] == live[s..cur] && live[s..t][..e - s] == live[s..e];
    assert chunks[i][cur - s..e - s] == live[cur..e];
    FlatOrder(live, s, cur);
    FlatOrder(live, s, e);
    FlatSlice(chunks[i], cur - s, e - s);
  }

  function Min(a: int, b: int): int { if a < b then a else b }

  function Max(a: int, b: int): int { if a < b then b else a }

  /** The number of the first item of segment i. */
  function StartOf(chunks: seq<seq<Item>>, i: nat): nat
    requires i <= |chunks|
  {
    |Items(chunks[..i])|
  }

  /** The items from cur to e are what segment i still holds, up to lim. */
  ghost predicate RestOf(chunks: seq<seq<Item>>, i: nat, cur: nat, lim: nat, e: nat) {
    i < |chunks| && StartOf(chunks, i) <= cur < e == Min(lim, StartOf(chunks, i) + |chunks[i]|)
  }

  /** Some segment starts at item cur. */
  ghost predicate IsStart(chunks: seq<seq<Item>>, cur: nat) {
    exists i :: 0 <= i <= |chunks| && StartOf(chunks, i) == cur
  }

  /** Position cur is where a turn that began at a entered the segment with item stop. */
  ghost predicate EnteredAt(chunks: seq<seq<Item>>, a: nat, stop: nat, cur: nat) {
    exists i {:trigger chunks[i]} :: 0 <= i < |chunks| &&
      StartOf(chunks, i) <= stop < StartOf(chunks, i) + |chunks[i]| && cur == Max(a, StartOf(chunks, i))
  }

  lemma StartsOrdered(chunks: seq<seq<Item>>, i: nat, j: nat)
    requires i <= j <= |chunks|
    ensures StartOf(chunks, i) <= StartOf(chunks, j)
    ensures i < |chunks| ==> StartOf(chunks, i + 1) == StartOf(chunks, i) + |chunks[i]|
  {
    hide Items;
    assert chunks[..j] == chunks[..i] + chunks[i..j];
    ItemsConcat(chunks[..i], chunks[i..j]);
    if i < |chunks| {
      assert chunks[..i + 1] == chunks[..i] + [chunks[i]];
      ItemsConcat(chunks[..i], [chunks[i]]);
      Singletons(Segment(0, 0, [], 0), chunks[i]);
    }
  }

  /** A round that drains its segment ends at the start of the next one, or at the limit. */
  lemma RestDrained(chunks: seq<seq<Item>>, i: nat, cur: nat, lim: nat, e: nat)
    requires RestOf(chunks, i, cur, lim, e)
    ensures e == lim || IsStart(chunks, e)
  {
    hide StartOf;
    StartsOrdered(chunks, i, i);
  }

  /** A round that stops at item stop was in the segment of that item from its start, or from where the turn began. */
  lemma RestStopped(chunks: seq<seq<Item>>, a: nat, i: nat, cur: nat, lim: nat, e: nat, stop: nat)
    requires RestOf(chunks, i, cur, lim, e) && cur <= stop < e && a <= cur && (cur == a || IsStart(chunks, cur))
    ensures EnteredAt(chunks, a, stop, cur)
  {
    hide StartOf;
    if cur != a {
      var j :| 0 <= j <= |chunks| && StartOf(chunks, j) == cur;
      if j <= i { StartsOrdered(chunks, j, i); }
      else { StartsOrdered(chunks, i, i); StartsOrdered(chunks, i + 1, j); }
    }
    assert chunks[i] == chunks[i];
  }

  lemma MinBound(a: int, b: int, c: int)
    requires b <= 0
    ensures Min(a + b, c) <= a
  {
  }

  lemma Singletons(seg: Segment, chunk: seq<Item>)
    ensures Joined([seg]) == seg.data && Items([chunk]) == chunk && Joined([]) == [] && Items([]) == []
  {
    assert Joined([seg]) == seg.data + Joined([]);
    assert Items([chunk]) == chunk + Items([]);
  }

  lemma Appended(segs: seq<Segment>, chunks: seq<seq<Item>>, seg: Segment, chunk: seq<Item>)
    ensures Joined(segs + [seg]) == Joined(segs) + seg.data && Items(chunks + [chunk]) == Items(chunks) + chunk
  {
    hide *;
    Singletons(seg, chunk);
    JoinedConcat(segs, [seg]);
    ItemsConcat(chunks, [chunk]);
  }

  /** The last segment grows by more items. */
  lemma Grown(segs: seq<Segment>, chunks: seq<seq<Item>>, data: Bytes, more: seq<Item>)
    requires ChunksOk(segs, chunks) && segs != [] && data == Flat(more) && AllOk(more)
    requires CloseIsLast(chunks[|chunks| - 1] + more)
    ensures var n := |segs| - 1;
            var segs', chunks' := segs[n := segs[n].(data := segs[n].data + data)], chunks[n := chunks[n] + more];
            ChunksOk(segs', chunks') && Joined(segs') == Joined(segs) + data && Items(chunks') == Items(chunks) + more
  {
    hide Flat, ItemOk, CloseIsLast, Joined, Items;
    var n := |segs| - 1;
    var seg, chunk := segs[n].(data := segs[n].data + data), chunks[n] + more;
    assert ChunkOk(segs[n], chunks[n]);
    FlatConcat(chunks[n], more);
    Appended(segs[..n], chunks[..n], segs[n], chunks[n]);
    Appended(segs[..n], chunks[..n], seg, chunk);
    assert segs == segs[..n] + [segs[n]] && chunks == chunks[..n] + [chunks[n]];
    assert segs[n := seg] == segs[..n] + [seg] && chunks[n := chunk] == chunks[..n] + [chunk];
    assert Joined(segs[n := seg]) == Joined(segs[..n]) + (segs[n].data + data) == Joined(segs) + data;
    assert Items(chunks[n := chunk]) == Items(chunks[..n]) + (chunks[n] + more) == Items(chunks) + more;
  }

  /** With the first n bytes replayed, segment i is finished: it is not the last and not empty, all its bytes are
      replayed, and it gets no more, since bytes behind it are replayed too, or it is full, or it ends with the close
      marker. */
  predicate Finished(segs: seq<Segment>, n: nat, i: nat) {
    && i + 1 < |segs| && segs[i].data != []
    && var end := |Joined(segs[..i + 1])|;
       end <= n && (end < n || |segs[i].data| >= segs[i].size || segs[i].data[|segs[i].data| - 1] == 0x24)
  }

  ghost predicate AllFinished(segs: seq<Segment>, n: nat, j: nat) {
    forall i :: 0 <= i < j ==> Finished(segs, n, i)
  }

  /** The first j segments are finished and the next one is not. */
  ghost predicate Leave(segs: seq<Segment>, n: nat, j: nat) {
    j <= |segs| && AllFinished(segs, n, j) && !Finished(segs, n, j)
  }

  lemma NoneFinished(segs: seq<Segment>)
    ensures Leave(segs, 0, 0)
  {
    if |segs| > 0 { assert segs[..1] == [segs[0]]; Singletons(segs[0], []); }
  }

  lemma NotLast(segs: seq<Segment>, n: nat, i: nat)
    requires i + 1 >= |segs|
    ensures !Finished(segs, n, i)
  {}

  /** What the code looks at: the bytes replayed beyond the segments before segment i. */
  lemma FinishedIff(segs: seq<Segment>, n: nat, i: nat)
    requires i < |segs| && |Joined(segs[..i])| <= n
    ensures var bytes, size := n - |Joined(segs[..i])|, |segs[i].data|;
            Finished(segs, n, i) <==>
              && i + 1 < |segs| && 0 < size <= bytes
              && (bytes > size || size >= segs[i].size || segs[i].data[size - 1] == 0x24)
    ensures |Joined(segs[..i + 1])| == |Joined(segs[..i])| + |segs[i].data|
  {
    hide Joined;
    Appended(segs[..i], [], segs[i], []);
    assert segs[..i + 1] == segs[..i] + [segs[i]];
  }

  /** Dropping a replayed first chunk moves the item position and the byte position alike. */
  lemma PopFront(segs: seq<Segment>, chunks: seq<seq<Item>>, gone: seq<Item>, pos: nat)
    requires ChunksOk(segs, chunks) && |segs| > 0 && pos <= |Items(chunks)|
    requires |Flat(Items(chunks)[..pos])| >= |segs[0].data|
    ensures |chunks[0]| <= pos <= |chunks[0]| + |Items(chunks[1..])| && ChunksOk(segs[1..], chunks[1..])
    ensures Joined(segs) == segs[0].data + Joined(segs[1..])
    ensures gone + Items(chunks) == (gone + chunks[0]) + Items(chunks[1..])
    ensures gone + Items(chunks)[..pos] == (gone + chunks[0]) + Items(chunks[1..])[..pos - |chunks[0]|]
    ensures |Flat(gone + chunks[0])| == |Flat(gone)| + |segs[0].data|
    ensures |Flat(Items(chunks)[..pos])| == |segs[0].data| + |Flat(Items(chunks[1..])[..pos - |chunks[0]|])|
  {
    hide Flat, ItemOk, CloseIsLast;
    assert ChunkOk(segs[0], chunks[0]);
    var live, rest := Items(chunks), Items(chunks[1..]);
    hide Items, Joined;
    var n := |chunks[0]|;
    assert live[..n] == chunks[0];
    if pos < n { FlatOrder(live, pos, n); }
    FlatConcat(chunks[0], rest[..pos - n]);
    FlatConcat(gone, chunks[0]);
    assert live[..pos] == chunks[0] + rest[..pos - n];
  }

  class Stream {
    var segments: seq<Segment>
    var received: nat
    var replayed: nat
    var recycled: nat
    /** The items of each segment, those recycled before them, and how many of the former are replayed. */
    ghost var chunks: seq<seq<Item>>
    ghost var gone: seq<Item>
    ghost var pos: nat
    /** Bytes counted as received that are not in a segment: not yet, and never (no segment was there). */
    ghost var flying: nat
    ghost var lost: nat

    constructor ()
      ensures Valid() && segments == [] && All() == [] && Past() == [] && flying == 0 && lost == 0 && received == 0
    {
      segments, received, replayed, recycled := [], 0, 0, 0;
      chunks, gone, pos, flying, lost := [], [], 0, 0, 0;
    }

    ghost predicate Valid()
      reads this
    {
      && ChunksOk(segments, chunks)
      && recycled == |Flat(gone)|
      && pos <= |Items(chunks)| && replayed == recycled + |Flat(Items(chunks)[..pos])|
      && received == recycled + |Joined(segments)| + flying + lost
    }

    /** All items ever stored in a segment, and those replayed. */
    ghost function All(): seq<Item>
      reads this
    {
      gone + Items(chunks)
    }

    ghost function Past(): seq<Item>
      requires pos <= |Items(chunks)|
      reads this
    {
      gone + Items(chunks)[..pos]
    }

    /** The counters are the lengths of the flat stream: nothing is recycled before it is replayed, nor replayed
        before it is received. */
    lemma Accounting()
      requires Valid()
      ensures recycled == |Flat(gone)| <= replayed == |Flat(Past())| <= received
      ensures received == |Flat(All())| + flying + lost == recycled + |Joined(segments)| + flying + lost
      ensures AllOk(Items(chunks)) && Joined(segments) == Flat(Items(chunks))
      ensures replayed == received <==> pos == |Items(chunks)| && flying == 0 && lost == 0
    {
      hide Flat, Items, Joined, AllOk;
      JoinedIsFlat(segments, chunks);
      FlatConcat(gone, Items(chunks)[..pos]);
      FlatConcat(gone, Items(chunks));
      FlatOrder(Items(chunks), pos, |Items(chunks)|);
      assert Items(chunks)[..|Items(chunks)|] == Items(chunks);
    }

    /** HandleLogSegmentRequest: a segment whose address does not translate is refused. */
    method AddSegment(addr: nat, size: nat, ptr: nat) returns (accepted: bool)
      requires Valid()
      modifies this
      ensures Valid() && All() == old(All()) && Past() == old(Past())
      ensures accepted == (ptr != 0)
      ensures segments == if accepted then old(segments) + [Segment(addr, size, [], ptr)] else old(segments)
      ensures unchanged(`received, `replayed, `recycled, `gone, `pos, `flying, `lost)
    {
      if ptr == 0 { return false; }
      hide Flat, Joined, Items, ItemOk, CloseIsLast;
      var seg := Segment(addr, size, [], ptr);
      assert ChunkOk(seg, []) by { FlatEmpty(); CloseOfEmpty(); }
      Appended(segments, chunks, seg, []);
      assert Items(chunks) + [] == Items(chunks);
      segments := segments + [seg];
      chunks := chunks + [[]];
      accepted := true;
    }

    /** The first half of HandleWriteWithImm: the counter goes up before the segment does. */
    method CountReceived(n: nat)
      requires Valid()
      modifies `received, `flying
      ensures Valid() && received == old(received) + n && flying == old(flying) + n
    {
      received := received + n;
      flying := flying + n;
    }

    /** The second half: the bytes belong to the last segment, if there is one. */
    method ExtendLast(data: Bytes, ghost more: seq<Item>)
      requires Valid() && |data| <= flying && data == Flat(more) && AllOk(more)
      requires segments != [] ==> CloseIsLast(chunks[|chunks| - 1] + more)
      modifies `segments, `chunks, `flying, `lost
      ensures Valid() && flying == old(flying) - |data|
      ensures old(segments) == [] ==> lost == old(lost) + |data| && segments == [] && All() == old(All())
      ensures old(segments) != [] ==>
                && lost == old(lost) && All() == old(All()) + more
                && var n := |old(segments)| - 1; var last := old(segments)[n];
                   segments == old(segments)[n := last.(data := last.data + data)]
      ensures Past() == old(Past())
    {
      hide Flat, AllOk, CloseIsLast, Joined, Items, ChunksOk;
      flying := flying - |data|;
      if segments == [] {
        lost := lost + |data|;
      } else {
        var n := |segments| - 1;
        assert |segments| == |chunks| by { SameLength(segments, chunks); }
        Grown(segments, chunks, data, more);
        ghost var live := Items(chunks);
        segments := segments[n := segments[n].(data := segments[n].data + data)];
        chunks := chunks[n := chunks[n] + more];
        assert (live + more)[..pos] == live[..pos];
      }
    }

    /** The lookup loop of ReplayLogData: the segment that holds live byte off, and where it begins. */
    method Locate(off: nat) returns (i: nat, start: nat)
      ensures i <= |segments| && start == |Joined(segments[..i])| <= |Joined(segments)|
      ensures i < |segments| ==> start <= off < start + |segments[i].data|
      ensures i == |segments| ==> off >= |Joined(segments)| == start
      ensures i < |segments| ==> off < |Joined(segments)| && segments[i].data[off - start] == Joined(segments)[off]
    {
      i, start := 0, 0;
      while i < |segments|
        invariant i <= |segments| && start == |Joined(segments[..i])| && start <= off
      {
        if off < start + |segments[i].data| { break; }
        JoinedConcat(segments[..i], [segments[i]]);
        assert segments[..i + 1] == segments[..i] + [segments[i]];
        start := start + |segments[i].data|;
        i := i + 1;
      }
      JoinedConcat(segments[..i], segments[i..]);
      assert segments[..i] + segments[i..] == segments;
    }

    /** A replayed segment leaves. */
    method DropFirst()
      requires Valid() && |segments| > 0 && replayed - recycled >= |segments[0].data|
      modifies `segments, `recycled, `chunks, `gone, `pos
      ensures Valid() && All() == old(All()) && Past() == old(Past())
      ensures segments == old(segments)[1..] && recycled == old(recycled) + |old(segments)[0].data|
    {
      hide Flat, AllOk, CloseIsLast, Items, Joined;
      PopFront(segments, chunks, gone, pos);
      recycled := recycled + |segments[0].data|;
      gone, pos := gone + chunks[0], pos - |chunks[0]|;
      segments, chunks := segments[1..], chunks[1..];
    }

    /** RecycleSegments: replayed segments leave from the front, the last one never. */
    method Recycle() returns (out: seq<Segment>)
      requires Valid()
      modifies `segments, `recycled, `chunks, `gone, `pos
      ensures Valid() && All() == old(All()) && Past() == old(Past())
      ensures |out| <= |old(segments)| && out == old(segments)[..|out|] && segments == old(segments)[|out|..]
      ensures recycled == old(recycled) + |Joined(out)| <= replayed
      ensures Leave(old(segments), replayed - old(recycled), |out|)
    {
      hide Flat, AllOk, CloseIsLast, Items, Joined, Finished;
      ghost var was, total := segments, replayed - recycled;
      out := [];
      Singletons(Segment(0, 0, [], 0), []);
      NoneFinished(segments);
      assert out == was[..0] && segments == was[0..];
      if replayed <= recycled { return; }
      var bytes := replayed - recycled;
      while |segments| > 1
        invariant Valid() && All() == old(All()) && Past() == old(Past())
        invariant |out| <= |was| && out == was[..|out|] && segments == was[|out|..]
        invariant recycled == old(recycled) + |Joined(out)| && bytes == replayed - recycled
        invariant AllFinished(was, total, |out|)
        decreases |segments|
      {
        var seg := segments[0];
        FinishedIff(was, total, |out|);
        if seg.data == [] || bytes < |seg.data| { break; }
        if bytes == |seg.data| && |seg.data| < seg.size {
          // An untranslated segment would spin here; none was ever admitted.
          assert seg.ptr != 0 by { assert ChunkOk(segments[0], chunks[0]); }
          if seg.data[|seg.data| - 1] != CLOSE_MARKER { break; }
        }
        Appended(out, [], seg, []);
        bytes := bytes - |seg.data|;
        DropFirst();
        out := out + [seg];
      }
      if |out| == |was| || |out| + 1 == |was| { NotLast(was, total, |out|); }
    }

    /** The lookup and the record loop, which reaches item e at most. */
    method ReplaySegment(rep: Replica, allowed: nat, ghost lim: nat)
      returns (found: bool, processed: nat, applied: nat, why: Outcome, ghost e: nat, ghost seg: nat)
      requires Valid() && rep.Valid() && pos <= lim <= |Items(chunks)| && allowed > 0 && AllOk(Items(chunks))
      requires |Flat(Items(chunks)[..lim])| == Min(replayed - recycled + allowed, |Joined(segments)|)
      modifies rep.frames.Values
      ensures found == (pos < lim) && (!found ==> rep.Value() == old(rep.Value()))
      ensures found ==>
                && pos < e <= lim && RestOf(chunks, seg, pos, lim, e)
                && var r := PlayRange(Items(chunks), pos, e, old(rep.Value()));
                   && rep.Value() == r.store && why == r.outcome && applied == r.applied
                   && |Flat(Items(chunks)[..pos + r.count])| == replayed - recycled + processed
    {
      hide Flat, Joined, Items, Play, ChunksOk, CloseIsLast, AllOk;
      ghost var live := Items(chunks);
      processed, applied, why, e, seg := 0, 0, Drained, lim, 0;
      FlatOrder(live, pos, lim);
      var off := replayed - recycled;
      var i, start := Locate(off);
      if i == |segments| { return false, 0, 0, Drained, lim, 0; }
      found, seg := true, i;
      SameLength(segments, chunks);
      LocatedItems(segments, chunks, i, pos, lim);
      var data := segments[i].data;
      var n := Min(allowed, |data| - (off - start));
      e := Min(lim, |Items(chunks[..i])| + |chunks[i]|);
      ghost var part := live[pos..e];
      assert off + n == |Flat(live[..e])|;
      ghost var k := PlayRange(live, pos, e, rep.Value()).count;
      FlatOrder(live, pos, pos + k);
      PrefixOfSlice(live, pos, e, k);
      processed, applied, why := rep.ReplayChunk(data, off - start, n, part);
    }

    /** One round of ReplayLogData: replay from one segment, then move the position, unless a record was stale or
        failed. */
    method ReplayRound(rep: Replica, allowed: nat, ghost lim: nat)
      returns (found: bool, processed: nat, applied: nat, why: Outcome, ghost e: nat, ghost seg: nat)
      requires Valid() && rep.Valid() && pos <= lim <= |Items(chunks)| && allowed > 0 && AllOk(Items(chunks))
      requires |Flat(Items(chunks)[..lim])| == Min(replayed - recycled + allowed, |Joined(segments)|)
      modifies `replayed, `pos, rep.frames.Values
      ensures Valid() && replayed == old(replayed) + processed
      ensures found == (old(pos) < lim) && (!found ==> pos == lim && rep.Value() == old(rep.Value()))
      ensures found ==>
                && old(pos) < e <= lim && RestOf(chunks, seg, old(pos), lim, e)
                && var r := PlayRange(Items(chunks), old(pos), e, old(rep.Value()));
                   && rep.Value() == r.store && why == r.outcome && applied == r.applied
                   && pos == old(pos) + (if why == Stale || why == Failed then 0 else r.count)
                   && (why == Drained ==> processed > 0)
    {
      hide Flat, Joined, Items, Play, ChunksOk, AllOk, Min;
      ghost var live, st := Items(chunks), rep.Value();
      found, processed, applied, why, e, seg := ReplaySegment(rep, allowed, lim);
      if !found { processed := 0; return; }
      ghost var k := PlayRange(live, pos, e, st).count;
      FlatOrder(live, pos, pos + k);
      if why == Stale || why == Failed { processed := 0; return; }
      replayed := replayed + processed;
      pos := pos + k;
    }

    /** The rounds of ReplayLogData. A stale or failing record leaves the position where its segment was entered. */
    method ReplayRounds(rep: Replica, available: nat, ghost lim: nat) returns (why: Outcome, applied: nat)
      requires Valid() && rep.Valid() && pos <= lim <= |Items(chunks)| && AllOk(Items(chunks))
      requires |Flat(Items(chunks)[..lim])| == Min(replayed - recycled + available, |Joined(segments)|)
      modifies `replayed, `pos, rep.frames.Values
      ensures Valid()
      ensures var r := PlayRange(Items(chunks), old(pos), lim, old(rep.Value()));
              && rep.Value() == r.store && why == r.outcome && applied == r.applied
              && (why == Drained || why == Parked ==> pos == old(pos) + r.count)
              && (why == Stale || why == Failed ==> EnteredAt(chunks, old(pos), old(pos) + r.count, pos))
    {
      hide Flat, Joined, Items, PlayRange, OnTurn, ChunksOk, AllOk, Min, RestOf, IsStart, EnteredAt;
      ghost var live, st := Items(chunks), rep.Value();
      var total := 0;
      applied := 0;
      why := Drained;
      TurnBegins(live, pos, lim, st);
      while total < available
        invariant Valid() && old(pos) <= pos <= lim && replayed == old(replayed) + total && why == Drained
        invariant OnTurn(live, old(pos), lim, st, pos, applied, rep.Value(), Drained)
        invariant pos == old(pos) || pos == lim || IsStart(chunks, pos)
        modifies `replayed, `pos, rep.frames.Values
        decreases available - total
      {
        ghost var cur, before := pos, rep.Value();
        var found, processed, k, w, e, seg := ReplayRound(rep, available - total, lim);
        if !found { break; }
        RestDrained(chunks, seg, cur, lim, e);
        TurnGoesOn(live, old(pos), lim, st, cur, applied, before, e);
        why, total, applied := w, total + processed, applied + k;
        if why != Drained {
          ghost var stop := cur + PlayRange(live, cur, e, before).count;
          TurnEnds(live, old(pos), lim, st, stop, applied, rep.Value(), why);
          RestStopped(chunks, old(pos), seg, cur, lim, e, stop);
          return;
        }
      }
      if pos < lim {
        MinBound(replayed - recycled, available - total, |Joined(segments)|);
        FlatOrder(live, pos, lim);
      }
      TurnEnds(live, old(pos), lim, st, pos, applied, rep.Value(), Drained);
    }

    /** ReplayLogData, allowed the bytes that were unreplayed when the turn began (some may not be in a segment
        yet): it replays the items from pos to lim, where those bytes end, and then, if it applied a record, the
        first j segments leave: exactly those that are finished. */
    method Replay(rep: Replica, available: nat, ghost lim: nat) returns (why: Outcome, ghost j: nat)
      requires Valid() && rep.Valid() && pos <= lim <= |Items(chunks)| && AllOk(Items(chunks))
      requires |Flat(Items(chunks)[..lim])| == Min(replayed - recycled + available, |Joined(segments)|)
      modifies this, rep.frames.Values
      ensures Valid() && All() == old(All())
      ensures received == old(received) && flying == old(flying) && lost == old(lost)
      ensures var r := PlayRange(old(Items(chunks)), old(pos), lim, old(rep.Value()));
              && rep.Value() == r.store && why == r.outcome
              && (why == Drained || why == Parked ==> Past() == old(gone + Items(chunks)[..pos + r.count]))
              && ((why == Drained || why == Parked) && r.applied > 0 ==>
                    && replayed >= old(recycled) && Leave(old(segments), replayed - old(recycled), j)
                    && segments == old(segments)[j..] && recycled == old(recycled) + |Joined(old(segments)[..j])|)
              && (r.applied == 0 ==> segments == old(segments) && recycled == old(recycled))
              && (why == Stale || why == Failed ==>
                    && segments == old(segments) && chunks == old(chunks)
                    && gone == old(gone) && recycled == old(recycled)
                    && EnteredAt(chunks, old(pos), old(pos) + r.count, pos))
    {
      hide Flat, Joined, Items, PlayRange, ChunksOk, AllOk, Min, EnteredAt, Leave;
      j := 0;
      var applied;
      why, applied := ReplayRounds(rep, available, lim);
      if (why == Drained || why == Parked) && applied > 0 {
        var out := Recycle();
        j := |out|;
      }
    }
  }

  lemma PrefixOfSlice(its: seq<Item>, a: nat, b: nat, k: nat)
    requires a <= b <= |its| && k <= b - a
    ensures its[a..b][..k] == its[a..a + k]
  {
    forall i | 0 <= i < k ensures its[a..b][..k][i] == its[a..a + k][i] {}
  }

  lemma SliceOk(its: seq<Item>, i: nat, j: nat)
    requires AllOk(its) && i <= j <= |its|
    ensures AllOk(its[i..j])
  {
  }

  function PlayRange(its: seq<Item>, i: nat, j: nat, st: Store): (r: Played)
    requires AllOk(its) && i <= j <= |its|
    ensures r.count <= j - i && (r.outcome == Drained <==> r.count == j - i)
  {
    SliceOk(its, i, j);
    Play(its[i..j], st)
  }

  /** A turn over live[a..lim] that began with pages st has come to item cur, applied n records and left the
      pages as now; it goes on from there, or it stopped. */
  ghost predicate OnTurn(live: seq<Item>, a: nat, lim: nat, st: Store, cur: nat, n: nat, now: Store, why: Outcome)
    requires AllOk(live)
  {
    && a <= cur <= lim <= |live|
    && var r := PlayRange(live, a, lim, st);
       if why != Drained then r == Played(cur - a, n, now, why)
       else var q := PlayRange(live, cur, lim, now); r == q.(count := q.count + cur - a, applied := q.applied + n)
  }

  lemma TurnBegins(live: seq<Item>, a: nat, lim: nat, st: Store)
    requires AllOk(live) && a <= lim <= |live|
    ensures OnTurn(live, a, lim, st, a, 0, st, Drained)
  {
    hide Play, AllOk;
  }

  /** A turn continues through one part of its items. */
  lemma TurnGoesOn(live: seq<Item>, a: nat, lim: nat, st: Store, cur: nat, n: nat, now: Store, e: nat)
    requires AllOk(live) && OnTurn(live, a, lim, st, cur, n, now, Drained) && cur <= e <= lim
    ensures var r := PlayRange(live, cur, e, now);
            OnTurn(live, a, lim, st, cur + r.count, n + r.applied, r.store, r.outcome)
  {
    hide Play, AllOk;
    SliceOk(live, cur, e);
    SliceOk(live, e, lim);
    PlayConcat(live[cur..e], live[e..lim], now);
    assert live[cur..lim] == live[cur..e] + live[e..lim];
  }

  lemma TurnEnds(live: seq<Item>, a: nat, lim: nat, st: Store, cur: nat, n: nat, now: Store, why: Outcome)
    requires AllOk(live) && OnTurn(live, a, lim, st, cur, n, now, why) && (why == Drained ==> cur == lim)
    ensures PlayRange(live, a, lim, st) == Played(cur - a, n, now, why)
  {
    hide ItemOk, Take;
    assert live[lim..lim] == [];
  }

  lemma CloseOfEmpty()
    ensures CloseIsLast([])
  {
  }

  lemma SameLength(segs: seq<Segment>, chunks: seq<seq<Item>>)
    requires ChunksOk(segs, chunks)
    ensures |segs| == |chunks|
  {
  }
}
