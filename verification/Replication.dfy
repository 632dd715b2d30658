/** From the tree to its replica: the changes that the tree makes to its pages, the records that log them, and what a
    replica holds that has replayed them. */
module Replication {
  import opened Endian
  import opened LogCodec
  import opened RedoPage
  import opened BLinkPage
  import opened PageBytes
  import opened PageLog
  import opened ReplayOrder
  import CompoundKey

  /** A logged change of one page: a record stored, a page cut by a split, or a new page. The record bytes and the
      images are those of the compute node that makes the change. */
  datatype Change =
    | StoreRecord(addr: nat, before: Page, k: Key, v: Val, rec: Bytes)
    | CutPage(addr: nat, before: Page, sib: nat, image: Image)
    | NewPage(addr: nat, page: Page, image: Image)

  function After(ch: Change): Page
    requires ch.StoreRecord? ==> |ch.before.keys| == |ch.before.vals|
    requires ch.CutPage? ==> ch.before.keys != [] && |ch.before.keys| == |ch.before.vals|
  {
    match ch
    case StoreRecord(_, p, k, v, _) => WithRecord(p, k, v)
    case CutPage(_, p, sib, _) => SplitLeft(p, sib)
    case NewPage(_, p, _) => p
  }

  /** The bytes are those of the pages they stand for, and the numbers fit their fields. */
  predicate ChangeOk(l: Layout, ch: Change) {
    && LayoutOk(l)
    && match ch
       case StoreRecord(_, p, k, v, rec) =>
         |p.keys| == |p.vals| && |p.keys| < Capacity(p.level) && p.version + 1 < U64 && RecordIs(l, p.level, rec, k, v)
       case CutPage(_, p, sib, c) =>
         p.keys != [] && |p.keys| == |p.vals| && p.version + 1 < U64 && Heads(l, c, SplitLeft(p, sib))
       case NewPage(_, p, c) => p.version == 1 && Represents(l, c, p)
  }

  function OpsOf(l: Layout, ch: Change): seq<Op>
    requires ChangeOk(l, ch)
  {
    match ch
    case StoreRecord(_, p, k, _, rec) => StoreOps(l, p.level, |p.keys|, Upper(p.keys, k), rec)
    case CutPage(_, p, _, c) => SplitOps(l, c)
    case NewPage(_, p, c) => NewPageOps(l, p.level, |p.keys|, c)
  }

  function RecordOf(l: Layout, ch: Change): Rec
    requires ChangeOk(l, ch)
  {
    Rec(ch.addr, After(ch).version, Encode(OpsOf(l, ch)))
  }

  predicate Plain(ops: seq<Op>) {
    forall i :: 0 <= i < |ops| ==> ops[i].Update? || ops[i].Move?
  }

  lemma OpsArePlain(l: Layout, ch: Change)
    requires ChangeOk(l, ch)
    ensures Plain(OpsOf(l, ch))
  {
    hide LayoutOk, Represents, Heads, RecordIs, Span, RecSize, RecBase, KeySize, LastIndex, Upper;
  }

  lemma OpsInPage(l: Layout, ch: Change)
    requires ChangeOk(l, ch)
    ensures AllInPage(OpsOf(l, ch), PAGE_SIZE)
  {
    hide LayoutOk, Represents, Heads, RecordIs, AllInPage, StoreOps, SplitOps, NewPageOps, Upper, ApplyOps;
    match ch
    case StoreRecord(_, p, k, v, rec) =>
      RecordLength(l, p.level, rec, k, v);
      StoreOpsAre(l, p.level, Repeat(0, PAGE_SIZE), |p.keys|, Upper(p.keys, k), rec);
    case CutPage(_, p, sib, c) => CutInPage(l, c, SplitLeft(p, sib));
    case NewPage(_, p, c) => NewPageReplayed(l, c, c, p);
  }

  lemma RecordLength(l: Layout, level: nat, rec: Bytes, k: Key, v: Val)
    requires LayoutOk(l) && RecordIs(l, level, rec, k, v)
    ensures |rec| == RecSize(l, level)
  {
  }

  lemma CutInPage(l: Layout, c: Image, q: Page)
    requires LayoutOk(l) && Heads(l, c, q)
    ensures AllInPage(SplitOps(l, c), PAGE_SIZE)
  {
    SplitSources(l, c, q);
    hide LayoutOk, Heads, LastIndex, FromLE, CompoundKey.Rank;
  }

  /** The record of a change can be decoded and played, and does to a page what its operations do. */
  lemma RecordPlays(l: Layout, ch: Change, b: Image)
    requires ChangeOk(l, ch) && After(ch).version < U64
    ensures Playable(RecordOf(l, ch)) && AllInPage(OpsOf(l, ch), PAGE_SIZE)
    ensures Apply(b, RecordOf(l, ch)) == Played(b, OpsOf(l, ch), After(ch).version)
  {
    OpsArePlain(l, ch);
    OpsInPage(l, ch);
    var ops := OpsOf(l, ch);
    hide OpsOf, ChangeOk, ApplyOps, Encode, Decode, WithVersion;
    assert forall i :: 0 <= i < |ops| ==> Encodable(ops[i]);
    CodecRoundTrip(ops);
  }

  /** Log, then replay: a replica that represents the page before a change represents the page after it, once it has
      replayed the record of the change. */
  lemma ChangeReplayed(l: Layout, ch: Change, b: Image)
    requires ChangeOk(l, ch) && (!ch.NewPage? ==> Represents(l, b, ch.before))
    ensures After(ch).version < U64 && Playable(RecordOf(l, ch)) && Represents(l, Apply(b, RecordOf(l, ch)), After(ch))
  {
    hide LayoutOk, Represents, Heads, RecordIs, AllInPage, StoreOps, SplitOps, NewPageOps, Upper, ApplyOps, Encode,
         Playable, Apply, Played;
    RecordPlays(l, ch, b);
    match ch
    case StoreRecord(_, p, k, v, rec) => StoreReplayed(l, b, p, k, v, rec);
    case CutPage(_, p, sib, c) => SplitReplayed(l, b, p, c, sib);
    case NewPage(_, p, c) => NewPageReplayed(l, b, c, p);
  }

  /* ---- Histories of changes ---- */

  type Pages = map<nat, Page>

  predicate Fits(ch: Change) {
    match ch
    case StoreRecord(_, p, _, _, _) => |p.keys| == |p.vals|
    case CutPage(_, p, _, _) => p.keys != [] && |p.keys| == |p.vals|
    case NewPage(_, _, _) => true
  }

  predicate AllFit(chs: seq<Change>) {
    forall i :: 0 <= i < |chs| ==> Fits(chs[i])
  }

  /** The pages after the first n changes. */
  function PagesAfter(ps: Pages, chs: seq<Change>, n: nat): Pages
    requires n <= |chs| && AllFit(chs)
  {
    if n == 0 then ps else PagesAfter(ps, chs, n - 1)[chs[n - 1].addr := After(chs[n - 1])]
  }

  /** Each change starts from the page as the changes before it left it; a new page has a new address. */
  ghost predicate IsNext(l: Layout, ps: Pages, ch: Change) {
    ChangeOk(l, ch) && if ch.NewPage? then ch.addr !in ps else ch.addr in ps && ps[ch.addr] == ch.before
  }

  ghost predicate NextAt(l: Layout, ps: Pages, chs: seq<Change>, i: nat)
    requires i < |chs| && AllFit(chs)
  {
    IsNext(l, PagesAfter(ps, chs, i), chs[i])
  }

  ghost predicate AllNext(l: Layout, ps: Pages, chs: seq<Change>) {
    AllFit(chs) && forall i {:trigger NextAt(l, ps, chs, i)} :: 0 <= i < |chs| ==> NextAt(l, ps, chs, i)
  }

  /** The history h is the log of the changes, over pages that represent ps; the places of later pages are blank. */
  ghost predicate IsLogOf(l: Layout, ps: Pages, chs: seq<Change>, h: History) {
    && AllNext(l, ps, chs) && |h.recs| == |h.owner| == |chs|
    && (forall i :: 0 <= i < |chs| ==> ChangeOk(l, chs[i]) && h.recs[i] == RecordOf(l, chs[i]))
    && (forall a :: a in ps ==> a in h.start && LayoutOk(l) && Represents(l, h.start[a], ps[a]))
    && (forall i :: 0 <= i < |chs| && chs[i].NewPage? ==> chs[i].addr in h.start && Version(h.start[chs[i].addr]) == 0)
  }

  /** What the replica holds for page a after the first n changes, in order: the page, or still a blank. */
  ghost predicate Follows(l: Layout, ps: Pages, chs: seq<Change>, h: History, n: nat, a: nat)
    requires n <= |chs| == |h.recs| && KnownPages(h) && a in h.start && AllFit(chs)
  {
    var q := PagesAfter(ps, chs, n);
    if a in q then LayoutOk(l) && Represents(l, InOrder(h, n)[a], q[a]) else InOrder(h, n)[a] == h.start[a]
  }

  lemma {:induction false} PagesKnown(l: Layout, ps: Pages, chs: seq<Change>, h: History, n: nat)
    requires IsLogOf(l, ps, chs, h) && n <= |chs|
    ensures forall a :: a in PagesAfter(ps, chs, n) ==> a in h.start
    ensures n < |chs| ==> h.recs[n].page in h.start
  {
    hide Represents, ChangeOk, LayoutOk, After, RecordOf, Version;
    if n > 0 { PagesKnown(l, ps, chs, h, n - 1); }
    if n < |chs| { assert NextAt(l, ps, chs, n); RecordPage(l, chs[n]); }
    if n > 0 { assert NextAt(l, ps, chs, n - 1); }
  }

  lemma RecordPage(l: Layout, ch: Change)
    requires ChangeOk(l, ch)
    ensures LayoutOk(l) && RecordOf(l, ch).page == ch.addr && RecordOf(l, ch).version == After(ch).version
  {
  }

  lemma LogIsKnown(l: Layout, ps: Pages, chs: seq<Change>, h: History)
    requires IsLogOf(l, ps, chs, h)
    ensures KnownPages(h)
  {
    hide IsLogOf;
    forall j | 0 <= j < |h.recs|
      ensures h.recs[j].page in h.start
    {
      LogLength(l, ps, chs, h);
      PagesKnown(l, ps, chs, h, j);
    }
  }

  lemma LogLength(l: Layout, ps: Pages, chs: seq<Change>, h: History)
    requires IsLogOf(l, ps, chs, h)
    ensures |h.recs| == |chs|
  {
  }

  /** Applying the log in order, the replica represents every page after every change. */
  lemma {:induction false} ReplicaFollows(l: Layout, ps: Pages, chs: seq<Change>, h: History, n: nat, a: nat)
    requires IsLogOf(l, ps, chs, h) && KnownPages(h) && n <= |chs| && a in h.start
    ensures Follows(l, ps, chs, h, n, a)
  {
    hide Represents, ChangeOk, LayoutOk, After, RecordOf, Version, Apply, Playable;
    if n > 0 {
      ReplicaFollows(l, ps, chs, h, n - 1, a);
      var ch := chs[n - 1];
      assert NextAt(l, ps, chs, n - 1);
      RecordPage(l, ch);
      if a == ch.addr { ChangeReplayed(l, ch, InOrder(h, n - 1)[a]); }
    }
  }

  ghost predicate Ahead(h: History, j: nat)
    requires KnownPages(h) && j < |h.recs|
  {
    h.recs[j].version == Version(InOrder(h, j)[h.recs[j].page]) + 1
  }

  /** A page's version on the replica counts the records that it has replayed. */
  lemma {:induction false} VersionCounts(h: History, n: nat, a: nat)
    requires KnownPages(h) && n <= |h.recs| && a in h.start
    requires forall j {:trigger Ahead(h, j)} :: 0 <= j < n ==> Ahead(h, j)
    ensures Version(InOrder(h, n)[a]) == Version(h.start[a]) + |LogOfPage(h.recs, n, a)|
  {
    hide Version, Playable, Apply;
    if n > 0 {
      VersionCounts(h, n - 1, a);
      assert Ahead(h, n - 1);
    }
  }

  /** Every record is one version ahead of its page. */
  lemma OneAhead(l: Layout, ps: Pages, chs: seq<Change>, h: History, j: nat)
    requires IsLogOf(l, ps, chs, h) && KnownPages(h) && j < |chs|
    ensures Ahead(h, j)
  {
    hide ChangeOk, LayoutOk, Version, Playable, RecordOf, RangeIs, RecordsAre, Capacity;
    var ch := chs[j];
    assert NextAt(l, ps, chs, j);
    RecordPage(l, ch);
    ReplicaFollows(l, ps, chs, h, j, ch.addr);
    AfterVersion(l, ch);
  }

  lemma AfterVersion(l: Layout, ch: Change)
    requires ChangeOk(l, ch)
    ensures After(ch).version == if ch.NewPage? then 1 else ch.before.version + 1
  {
  }

  /** The log of the tree's changes is a history without version gaps. */
  lemma LogIsHistory(l: Layout, ps: Pages, chs: seq<Change>, h: History)
    requires IsLogOf(l, ps, chs, h)
    ensures HistoryOk(h)
  {
    LogIsKnown(l, ps, chs, h);
    LogLength(l, ps, chs, h);
    hide IsLogOf, Version, Playable;
    forall j {:trigger NextVersion(h, j)} | 0 <= j < |h.recs| ensures NextVersion(h, j) {
      forall i {:trigger Ahead(h, i)} | 0 <= i < j + 1 ensures Ahead(h, i) { OneAhead(l, ps, chs, h, i); }
      assert Ahead(h, j);
      VersionCounts(h, j, h.recs[j].page);
    }
    Owners(l, ps, chs, h);
  }

  lemma Owners(l: Layout, ps: Pages, chs: seq<Change>, h: History)
    requires IsLogOf(l, ps, chs, h)
    ensures |h.owner| == |h.recs|
  {
  }

  /** A replica that has replayed the whole log, in any order that the replayer allows, represents every page. */
  lemma ReplicaRepresents(l: Layout, ps: Pages, chs: seq<Change>, h: History, s: State, a: nat)
    requires IsLogOf(l, ps, chs, h) && Consistent(h, s) && AllReplayed(h, s) && a in PagesAfter(ps, chs, |chs|)
    ensures LayoutOk(l) && a in s.store && Represents(l, s.store[a], PagesAfter(ps, chs, |chs|)[a])
  {
    hide Represents, LayoutOk, ChangeOk, PageReplayed, DoneUpToVersion;
    LogIsKnown(l, ps, chs, h);
    CompleteIsInOrder(h, s);
    PagesKnown(l, ps, chs, h, |chs|);
    ReplicaFollows(l, ps, chs, h, |chs|, a);
  }
}
