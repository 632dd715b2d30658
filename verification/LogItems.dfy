/** The bytes of a log stream: whole redo records and segment close markers, and what replaying them does. */
module LogItems {
  import opened Endian
  import opened LogCodec
  import opened RedoPage

  /** What a compute node appends: a record, or the marker that no more follows in this segment. */
  datatype Item = Record(rec: Rec) | Close

  const HEADER_SIZE: nat := 22
  const MAGIC: nat := 0x4C52
  const CLOSE_MARKER: Byte := 0x24

  /** The packed record header: magic, page, version, payload length, all little-endian. */
  function Header(r: Rec): (b: Bytes)
    ensures |b| == HEADER_SIZE
  {
    ToLE(MAGIC, 2) + ToLE(r.page, 8) + ToLE(r.version, 8) + ToLE(|r.payload|, 4)
  }

  function ItemBytes(it: Item): (b: Bytes)
    ensures |b| > 0
  {
    match it
    case Record(r) => Header(r) + r.payload
    case Close => [CLOSE_MARKER]
  }

  /** The header fields are wide enough, and the operations stay inside the page. */
  predicate ItemOk(it: Item) {
    match it
    case Record(r) =>
      r.page < U64 && r.version < U64 && |r.payload| < U32 && AllInPage(Decode(r.payload).ops, PAGE_SIZE)
    case Close => true
  }

  predicate AllOk(its: seq<Item>) {
    forall i :: 0 <= i < |its| ==> ItemOk(its[i])
  }

  /** The items one after the other. */
  function Flat(its: seq<Item>): Bytes {
    if its == [] then [] else ItemBytes(its[0]) + Flat(its[1..])
  }

  lemma {:induction false} FlatConcat(a: seq<Item>, b: seq<Item>)
    ensures Flat(a + b) == Flat(a) + Flat(b)
  {
    hide ItemBytes;
    if a == [] { assert a + b == b; }
    else {
      FlatConcat(a[1..], b);
      assert (a + b)[1..] == a[1..] + b;
    }
  }

  /** An earlier position in the items is an earlier position in the bytes, and the other way round. */
  lemma FlatOrder(its: seq<Item>, i: nat, j: nat)
    requires i <= j <= |its|
    ensures |Flat(its[..i])| + |Flat(its[i..j])| == |Flat(its[..j])|
    ensures i < j ==> |Flat(its[..i])| < |Flat(its[..j])|
  {
    FlatConcat(its[..i], its[i..j]);
    assert its[..i] + its[i..j] == its[..j];
  }

  /** Where item i begins, its bytes are. */
  lemma FlatAt(its: seq<Item>, i: nat)
    requires i < |its|
    ensures |Flat(its[..i])| + |ItemBytes(its[i])| <= |Flat(its)|
    ensures Flat(its)[|Flat(its[..i])|..][..|ItemBytes(its[i])|] == ItemBytes(its[i])
    ensures |Flat(its[..i + 1])| == |Flat(its[..i])| + |ItemBytes(its[i])|
  {
    FlatConcat(its[..i], its[i..]);
    assert its[..i] + its[i..] == its;
    FlatOrder(its, i, i + 1);
    assert Flat(its[i..i + 1]) == ItemBytes(its[i]) by { assert its[i..i + 1] == [its[i]]; }
    assert Flat(its[i..]) == ItemBytes(its[i]) + Flat(its[i..][1..]);
  }

  /* ---- Reading a record back ---- */

  function FieldAt(b: Bytes, off: nat, n: nat): nat
    requires off + n <= |b|
  {
    FromLE(b[off..off + n])
  }

  lemma HeaderFields(b: Bytes, r: Rec)
    requires |b| >= HEADER_SIZE && b[..HEADER_SIZE] == Header(r)
    ensures b[0] == b[0..2][0] && b[1] == b[0..2][1] && b[0..2] == ToLE(MAGIC, 2) && b[2..10] == ToLE(r.page, 8)
    ensures b[10..18] == ToLE(r.version, 8) && b[18..22] == ToLE(|r.payload|, 4)
  {
    hide ToLE;
    var h := b[..HEADER_SIZE];
    assert b[0..2] == h[0..2] && b[2..10] == h[2..10] && b[10..18] == h[10..18] && b[18..22] == h[18..22];
    assert h[0..2] == ToLE(MAGIC, 2);
    assert h[2..10] == ToLE(r.page, 8);
    assert h[10..18] == ToLE(r.version, 8);
  }

  /** A record header read in place gives back the record, and never looks like a close marker. */
  lemma HeaderRoundTrip(b: Bytes, r: Rec)
    requires ItemOk(Record(r)) && |b| >= HEADER_SIZE && b[..HEADER_SIZE] == Header(r)
    ensures b[0] == 0x52 && b[1] == 0x4C && ItemBytes(Close) == [0x24] && FieldAt(b, 0, 2) == MAGIC
    ensures FieldAt(b, 2, 8) == r.page && FieldAt(b, 10, 8) == r.version && FieldAt(b, 18, 4) == |r.payload|
  {
    HeaderFields(b, r);
    Widths();
    hide Header, ToLE, FromLE, Pow256, AllInPage, Decode;
    LERoundTrip(MAGIC, 2);
    LERoundTrip(r.page, 8);
    LERoundTrip(r.version, 8);
    LERoundTrip(|r.payload|, 4);
  }

  lemma Widths()
    ensures Pow256(2) == 0x1_0000 && Pow256(4) == U32 && Pow256(8) == U64
    ensures ToLE(MAGIC, 2)[0] == 0x52 && ToLE(MAGIC, 2)[1] == 0x4C && CLOSE_MARKER == 0x24
  {
    assert Pow256(6) == 0x1_0000_0000_0000;
  }

  /* ---- What replaying does ---- */

  /** Why replaying stopped: nothing left, a record from the future, a stale one, or one that does not decode. */
  datatype Outcome = Drained | Parked | Stale | Failed

  datatype Played = Played(count: nat, applied: nat, store: Store, outcome: Outcome)

  /** GetCurrentPageVersion: an address this node does not hold reads as version 0. */
  function CurrentVersion(st: Store, p: Addr): nat {
    if p in st then Version(st[p]) else 0
  }

  /** One item: taken, with the pages after it, or a reason to stop. */
  datatype Step = Took(store: Store, applied: nat) | Stop(store: Store, why: Outcome)

  /** A record is applied only on the version just before its own. */
  function Take(it: Item, st: Store): (r: Step)
    requires ItemOk(it)
    ensures r.store.Keys == st.Keys && (r.Stop? ==> r.why != Drained)
    ensures it.Close? ==> r == Took(st, 0)
    ensures it.Record? && r.Took? ==> r.applied == 1
  {
    match it
    case Close => Took(st, 0)
    case Record(c) =>
      var v := CurrentVersion(st, c.page);
      if c.version <= v then Stop(st, Stale)
      else if c.version > v + 1 then Stop(st, Parked)
      else if c.page !in st then Stop(st, Failed)
      else if !Decode(c.payload).good then
        Stop(st[c.page := ApplyOps(st[c.page], Decode(c.payload).ops)], Failed)
      else Took(st[c.page := Apply(st[c.page], c)], 1)
  }

  /** Items are taken in order until one stops. */
  function Play(its: seq<Item>, st: Store): (r: Played)
    requires AllOk(its)
    ensures r.count <= |its|
    ensures r.outcome == Drained <==> r.count == |its|
    ensures r.store.Keys == st.Keys
  {
    if its == [] then Played(0, 0, st, Drained)
    else
      assert ItemOk(its[0]);
      match Take(its[0], st)
      case Took(next, n) => var r := Play(its[1..], next); r.(count := r.count + 1, applied := r.applied + n)
      case Stop(last, why) => Played(0, 0, last, why)
  }

  /** The first k items took the pages from st to now and applied n records. */
  ghost predicate PlayedUpTo(its: seq<Item>, st: Store, k: nat, n: nat, now: Store)
    requires AllOk(its)
  {
    && k <= |its|
    && var q := Play(its[k..], now);
       Play(its, st) == q.(count := q.count + k, applied := q.applied + n)
  }

  lemma PlayOneMore(its: seq<Item>, st: Store, k: nat, n: nat, now: Store)
    requires AllOk(its) && PlayedUpTo(its, st, k, n, now) && k < |its|
    ensures ItemOk(its[k])
    ensures match Take(its[k], now)
            case Took(next, m) => PlayedUpTo(its, st, k + 1, n + m, next)
            case Stop(last, why) => Play(its, st) == Played(k, n, last, why)
  {
    hide Take, ItemOk;
    assert ItemOk(its[k]);
    assert its[k..][0] == its[k] && its[k..][1..] == its[k + 1..];
  }

  /** Replaying in two parts. */
  lemma {:induction false} PlayConcat(a: seq<Item>, b: seq<Item>, st: Store)
    requires AllOk(a) && AllOk(b)
    ensures AllOk(a + b)
    ensures var r := Play(a, st);
            Play(a + b, st) == if r.outcome != Drained then r
                               else var q := Play(b, r.store);
                                    q.(count := q.count + r.count, applied := q.applied + r.applied)
  {
    hide Take, ItemOk;
    assert AllOk(a + b);
    if a == [] { assert a + b == b; }
    else {
      assert (a + b)[1..] == a[1..] + b;
      assert ItemOk(a[0]);
      var t := Take(a[0], st);
      if t.Took? { PlayConcat(a[1..], b, t.store); }
    }
  }
}
