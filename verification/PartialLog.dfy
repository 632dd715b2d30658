/** Logs with holes: only some of the changes of the pages were logged, since a store may run without a redo logger.
    When such a log can be replayed, and what the replica can then hold. */
module PartialLog {
  import opened RedoPage
  import opened BLinkPage
  import opened PageBytes
  import opened ReplayOrder
  import opened ReplayRuns
  import opened Replication

  predicate AllTrue(s: seq<bool>) {
    forall i :: 0 <= i < |s| ==> s[i]
  }

  predicate AllChangesOk(l: Layout, chs: seq<Change>) {
    forall i :: 0 <= i < |chs| ==> ChangeOk(l, chs[i])
  }

  /** How many of the first n changes were logged. */
  function Logged(kept: seq<bool>, n: nat): (r: nat)
    requires n <= |kept|
  {
    if n == 0 then 0 else Logged(kept, n - 1) + if kept[n - 1] then 1 else 0
  }

  /** The records of the logged ones among the first n changes. */
  function KeptRecords(l: Layout, chs: seq<Change>, kept: seq<bool>, n: nat): (r: seq<Rec>)
    requires n <= |chs| == |kept| && AllChangesOk(l, chs)
    ensures |r| == Logged(kept, n)
  {
    if n == 0 then []
    else KeptRecords(l, chs, kept, n - 1) + if kept[n - 1] then [RecordOf(l, chs[n - 1])] else []
  }

  ghost predicate IsKeptLog(l: Layout, ps: Pages, chs: seq<Change>, kept: seq<bool>, h: History) {
    && AllNext(l, ps, chs) && |kept| == |chs| && AllChangesOk(l, chs)
    && |h.owner| == |h.recs| && h.recs == KeptRecords(l, chs, kept, |chs|)
  }

  /** The replica starts with the pages ps, and blanks where later pages go. */
  ghost predicate StartsWith(l: Layout, ps: Pages, chs: seq<Change>, h: History) {
    && (forall a :: a in ps ==> a in h.start && LayoutOk(l) && Represents(l, h.start[a], ps[a]))
    && (forall i :: 0 <= i < |chs| && chs[i].NewPage? ==> chs[i].addr in h.start && Version(h.start[chs[i].addr]) == 0)
  }

  /** The replica has a place for every page, and is nowhere ahead of the pages ps. */
  ghost predicate StartsBelow(ps: Pages, chs: seq<Change>, h: History) {
    && (forall a :: a in ps ==> a in h.start && Version(h.start[a]) <= ps[a].version)
    && (forall i :: 0 <= i < |chs| && chs[i].NewPage? ==> chs[i].addr in h.start && Version(h.start[chs[i].addr]) == 0)
  }

  /* ---- Counting changes ---- */

  /** How many of the first n changes are changes of page a. */
  function ChangesOf(chs: seq<Change>, n: nat, a: nat): nat
    requires n <= |chs|
  {
    if n == 0 then 0 else ChangesOf(chs, n - 1, a) + if chs[n - 1].addr == a then 1 else 0
  }

  /** And how many of those were logged. */
  function LoggedOf(chs: seq<Change>, kept: seq<bool>, n: nat, a: nat): nat
    requires n <= |chs| == |kept|
  {
    if n == 0 then 0 else LoggedOf(chs, kept, n - 1, a) + if chs[n - 1].addr == a && kept[n - 1] then 1 else 0
  }

  lemma {:induction false} AllLogged(chs: seq<Change>, kept: seq<bool>, n: nat, a: nat)
    requires n <= |chs| == |kept|
    ensures LoggedOf(chs, kept, n, a) <= ChangesOf(chs, n, a)
    ensures LoggedOf(chs, kept, n, a) == ChangesOf(chs, n, a) <==>
            forall x :: 0 <= x < n && chs[x].addr == a ==> kept[x]
  {
    if n > 0 { AllLogged(chs, kept, n - 1, a); }
  }

  lemma {:induction false} ChangesGrow(chs: seq<Change>, m: nat, n: nat, a: nat)
    requires m <= n <= |chs|
    ensures ChangesOf(chs, m, a) <= ChangesOf(chs, n, a)
    ensures m < n && chs[m].addr == a ==> ChangesOf(chs, m, a) < ChangesOf(chs, n, a)
    decreases n
  {
    if m < n { ChangesGrow(chs, m, n - 1, a); }
  }

  function Base(ps: Pages, a: nat): nat { if a in ps then ps[a].version else 0 }

  /** Every change of a page, logged or not, raises its version by one. */
  lemma {:induction false} ChangesRaiseVersion(l: Layout, ps: Pages, chs: seq<Change>, n: nat, a: nat)
    requires AllNext(l, ps, chs) && n <= |chs|
    ensures var q := PagesAfter(ps, chs, n);
            if a in q then q[a].version == Base(ps, a) + ChangesOf(chs, n, a) else a !in ps && ChangesOf(chs, n, a) == 0
  {
    hide ChangeOk, After;
    if n > 0 {
      ChangesRaiseVersion(l, ps, chs, n - 1, a);
      assert NextAt(l, ps, chs, n - 1);
      AfterVersion(l, chs[n - 1]);
    }
  }

  lemma ChangeVersion(l: Layout, ps: Pages, chs: seq<Change>, i: nat)
    requires AllNext(l, ps, chs) && i < |chs|
    ensures ChangeOk(l, chs[i]) && RecordOf(l, chs[i]).page == chs[i].addr
    ensures RecordOf(l, chs[i]).version == After(chs[i]).version ==
            Base(ps, chs[i].addr) + ChangesOf(chs, i, chs[i].addr) + 1
  {
    hide ChangeOk, After, RecordOf;
    assert NextAt(l, ps, chs, i);
    ChangesRaiseVersion(l, ps, chs, i, chs[i].addr);
    AfterVersion(l, chs[i]);
    RecordPage(l, chs[i]);
  }

  /* ---- From changes to records and back ---- */

  lemma {:induction false} LoggedGrows(kept: seq<bool>, m: nat, n: nat)
    requires m <= n <= |kept|
    ensures Logged(kept, m) <= Logged(kept, n)
    ensures m < n && kept[m] ==> Logged(kept, m) < Logged(kept, n)
    decreases n
  {
    if m < n { LoggedGrows(kept, m, n - 1); }
  }

  lemma {:induction false} KeptAt(l: Layout, chs: seq<Change>, kept: seq<bool>, n: nat, i: nat)
    requires i < n <= |chs| == |kept| && AllChangesOk(l, chs) && kept[i]
    ensures Logged(kept, i) < Logged(kept, n) && KeptRecords(l, chs, kept, n)[Logged(kept, i)] == RecordOf(l, chs[i])
  {
    hide RecordOf, ChangeOk;
    LoggedGrows(kept, i, n);
    if i < n - 1 { KeptAt(l, chs, kept, n - 1, i); }
  }

  lemma {:induction false} KeptFrom(l: Layout, chs: seq<Change>, kept: seq<bool>, n: nat, j: nat) returns (i: nat)
    requires n <= |chs| == |kept| && AllChangesOk(l, chs) && j < Logged(kept, n)
    ensures i < n && kept[i] && Logged(kept, i) == j && KeptRecords(l, chs, kept, n)[j] == RecordOf(l, chs[i])
  {
    hide RecordOf, ChangeOk;
    if kept[n - 1] && j == Logged(kept, n - 1) { i := n - 1; }
    else { i := KeptFrom(l, chs, kept, n - 1, j); }
  }

  lemma {:induction false} LogCounts(l: Layout, ps: Pages, chs: seq<Change>, kept: seq<bool>, h: History,
                                     n: nat, a: nat)
    requires IsKeptLog(l, ps, chs, kept, h) && n <= |chs|
    ensures Logged(kept, n) <= |h.recs| && |LogOfPage(h.recs, Logged(kept, n), a)| == LoggedOf(chs, kept, n, a)
  {
    hide RecordOf, ChangeOk, AllNext, Playable, AllChangesOk, KeptRecords;
    LoggedGrows(kept, n, |chs|);
    if n > 0 {
      LogCounts(l, ps, chs, kept, h, n - 1, a);
      if kept[n - 1] { KeptAt(l, chs, kept, |chs|, n - 1); ChangeVersion(l, ps, chs, n - 1); }
    }
  }

  /* ---- The history of a log with holes ---- */

  lemma {:induction false} PagePlaced(l: Layout, ps: Pages, chs: seq<Change>, h: History, n: nat, a: nat)
    requires AllNext(l, ps, chs) && StartsBelow(ps, chs, h) && n <= |chs| && a in PagesAfter(ps, chs, n)
    ensures a in h.start && Version(h.start[a]) <= Base(ps, a)
  {
    hide ChangeOk, After, Version;
    if n > 0 && a in PagesAfter(ps, chs, n - 1) { PagePlaced(l, ps, chs, h, n - 1, a); }
    else if n > 0 {
      assert NextAt(l, ps, chs, n - 1);
      ChangesRaiseVersion(l, ps, chs, n - 1, a);
    }
  }

  lemma ChangePlaced(l: Layout, ps: Pages, chs: seq<Change>, h: History, i: nat)
    requires AllNext(l, ps, chs) && StartsBelow(ps, chs, h) && i < |chs|
    ensures var a := chs[i].addr; a in h.start && Version(h.start[a]) <= Base(ps, a)
  {
    hide ChangeOk, After, Version, StartsBelow;
    assert NextAt(l, ps, chs, i);
    PagePlaced(l, ps, chs, h, i + 1, chs[i].addr);
  }

  /** The replica has the pages with logged changes exactly as the tree has them at the start. */
  ghost predicate UpToDate(ps: Pages, chs: seq<Change>, kept: seq<bool>, h: History)
    requires |chs| == |kept|
  {
    forall i :: 0 <= i < |chs| && kept[i] ==>
      chs[i].addr in h.start && Version(h.start[chs[i].addr]) == Base(ps, chs[i].addr)
  }

  lemma StartIsUpToDate(l: Layout, ps: Pages, chs: seq<Change>, kept: seq<bool>, h: History)
    requires StartsWith(l, ps, chs, h) && AllNext(l, ps, chs) && |chs| == |kept|
    ensures StartsBelow(ps, chs, h) && UpToDate(ps, chs, kept, h)
  {
    hide ChangeOk, After, Version, RangeIs, RecordsAre, LayoutOk, AllNext;
    forall i | 0 <= i < |chs| ensures chs[i].addr in h.start && Version(h.start[chs[i].addr]) == Base(ps, chs[i].addr) {
      ChangePlaced(l, ps, chs, h, i);
    }
  }

  /** A log with holes still carries rising versions. */
  lemma KeptIsRising(l: Layout, ps: Pages, chs: seq<Change>, kept: seq<bool>, h: History)
    requires IsKeptLog(l, ps, chs, kept, h) && StartsBelow(ps, chs, h)
    ensures Rising(h)
  {
    hide ChangeOk, After, Version, StartsBelow, RecordOf, AllNext, Playable, AllChangesOk, KeptRecords;
    forall j | 0 <= j < |h.recs|
      ensures h.recs[j].page in h.start && h.recs[j].version > Version(h.start[h.recs[j].page]) {
      var i := KeptFrom(l, chs, kept, |chs|, j);
      ChangeVersion(l, ps, chs, i);
      ChangePlaced(l, ps, chs, h, i);
    }
    forall i, j | 0 <= i < j < |h.recs| && h.recs[i].page == h.recs[j].page
      ensures h.recs[i].version < h.recs[j].version
    {
      var x := KeptFrom(l, chs, kept, |chs|, i);
      var y := KeptFrom(l, chs, kept, |chs|, j);
      if y <= x { LoggedGrows(kept, y, x); }
      ChangeVersion(l, ps, chs, x);
      ChangeVersion(l, ps, chs, y);
      ChangesGrow(chs, x, y, chs[x].addr);
    }
  }

  /** No change of a page is logged after one that is not. */
  ghost predicate GapFree(chs: seq<Change>, kept: seq<bool>)
    requires |chs| == |kept|
  {
    forall x, y :: 0 <= x < y < |chs| && chs[x].addr == chs[y].addr && kept[y] ==> kept[x]
  }

  lemma NextIffAllBefore(l: Layout, ps: Pages, chs: seq<Change>, kept: seq<bool>, h: History, i: nat)
    requires IsKeptLog(l, ps, chs, kept, h) && StartsBelow(ps, chs, h) && i < |chs| && kept[i]
    ensures Logged(kept, i) < |h.recs|
    ensures chs[i].addr in h.start
    ensures NextVersion(h, Logged(kept, i)) <==>
            && (forall x :: 0 <= x < i && chs[x].addr == chs[i].addr ==> kept[x])
            && Version(h.start[chs[i].addr]) == Base(ps, chs[i].addr)
  {
    hide ChangeOk, After, Version, StartsBelow, RecordOf, AllNext, Playable, AllChangesOk, KeptRecords, LogOfPage;
    KeptAt(l, chs, kept, |chs|, i);
    ChangeVersion(l, ps, chs, i);
    ChangePlaced(l, ps, chs, h, i);
    LogCounts(l, ps, chs, kept, h, i, chs[i].addr);
    AllLogged(chs, kept, i, chs[i].addr);
  }

  /** The log is a gap-free history exactly when no page has a logged change after an unlogged one, and the replica
      began with the pages that have logged changes. */
  lemma HistoryIffGapFree(l: Layout, ps: Pages, chs: seq<Change>, kept: seq<bool>, h: History)
    requires IsKeptLog(l, ps, chs, kept, h) && StartsBelow(ps, chs, h)
    ensures HistoryOk(h) <==> GapFree(chs, kept) && UpToDate(ps, chs, kept, h)
  {
    hide StartsBelow, AllNext, Playable, AllChangesOk, KeptRecords, Version, RecordOf, NextVersion;
    KeptIsRising(l, ps, chs, kept, h);
    if GapFree(chs, kept) && UpToDate(ps, chs, kept, h) {
      forall j {:trigger NextVersion(h, j)} | 0 <= j < |h.recs| ensures NextVersion(h, j) {
        var i := KeptFrom(l, chs, kept, |chs|, j);
        NextIffAllBefore(l, ps, chs, kept, h, i);
      }
    }
    if HistoryOk(h) {
      forall x, y | 0 <= x < y < |chs| && chs[x].addr == chs[y].addr && kept[y] ensures kept[x] {
        NextIffAllBefore(l, ps, chs, kept, h, y);
        assert NextVersion(h, Logged(kept, y));
      }
      forall i | 0 <= i < |chs| && kept[i]
        ensures chs[i].addr in h.start && Version(h.start[chs[i].addr]) == Base(ps, chs[i].addr) {
        NextIffAllBefore(l, ps, chs, kept, h, i);
        assert NextVersion(h, Logged(kept, i));
      }
    }
  }

  /** A log with holes can be replayed completely under exactly that condition. */
  lemma CompleteIffNoGap(l: Layout, ps: Pages, chs: seq<Change>, kept: seq<bool>, h: History, streams: nat)
    requires IsKeptLog(l, ps, chs, kept, h) && StartsBelow(ps, chs, h) && Spread(h, streams)
    ensures |chs| == |kept|
    ensures GapFree(chs, kept) && UpToDate(ps, chs, kept, h) <==>
            exists tr: seq<State>, n :: Replays(h, streams, tr) && 0 <= n < |tr| && AllReplayed(h, tr[n])
  {
    hide IsKeptLog, StartsBelow, GapFree, UpToDate, HistoryOk, Rising, Replays, AllReplayed;
    KeptLengths(l, ps, chs, kept, h);
    KeptIsRising(l, ps, chs, kept, h);
    HistoryIffGapFree(l, ps, chs, kept, h);
    CompleteIffGapFree(h, streams);
  }

  lemma KeptLengths(l: Layout, ps: Pages, chs: seq<Change>, kept: seq<bool>, h: History)
    requires IsKeptLog(l, ps, chs, kept, h)
    ensures |chs| == |kept| && |h.owner| == |h.recs| && AllNext(l, ps, chs) && AllFit(chs)
  {}

  /** The version an unlogged change gave its page is missing from the log. */
  lemma UnloggedIsMissing(l: Layout, ps: Pages, chs: seq<Change>, kept: seq<bool>, h: History, x: nat)
    requires IsKeptLog(l, ps, chs, kept, h) && StartsBelow(ps, chs, h) && x < |chs| && !kept[x]
    ensures Fits(chs[x]) && Missing(h, chs[x].addr, After(chs[x]).version)
  {
    hide ChangeOk, After, Version, StartsBelow, RecordOf, Playable, AllChangesOk, KeptRecords;
    var a := chs[x].addr;
    ChangeVersion(l, ps, chs, x);
    ChangePlaced(l, ps, chs, h, x);
    forall j | 0 <= j < |h.recs| && h.recs[j].page == a ensures h.recs[j].version != After(chs[x]).version {
      var i := KeptFrom(l, chs, kept, |chs|, j);
      ChangeVersion(l, ps, chs, i);
      if i < x { ChangesGrow(chs, i, x, a); } else { ChangesGrow(chs, x, i, a); }
    }
  }

  /** So whatever is replayed, the replica never represents a page again that has an unlogged change. */
  lemma NeverRepresents(l: Layout, ps: Pages, chs: seq<Change>, kept: seq<bool>, h: History, streams: nat,
                        tr: seq<State>,
                        n: nat, x: nat)
    requires IsKeptLog(l, ps, chs, kept, h) && StartsBelow(ps, chs, h) && x < |chs| && !kept[x]
    requires Replays(h, streams, tr) && n < |tr|
    ensures var a, q := chs[x].addr, PagesAfter(ps, chs, |chs|);
            && a in q && a in tr[n].store && Version(tr[n].store[a]) < q[a].version
            && !(LayoutOk(l) && Represents(l, tr[n].store[a], q[a]))
  {
    hide ChangeOk, After, Version, StartsBelow, RecordOf, Playable, AllChangesOk, KeptRecords, Missing, Replays,
         RangeIs, RecordsAre, LayoutOk;
    var a := chs[x].addr;
    UnloggedIsMissing(l, ps, chs, kept, h, x);
    ChangeVersion(l, ps, chs, x);
    StaysBelow(h, streams, tr, n, a, After(chs[x]).version);
    ChangesRaiseVersion(l, ps, chs, |chs|, a);
    ChangesGrow(chs, x, |chs|, a);
  }

  /* ---- Logs without holes ---- */

  lemma {:induction false} KeptIsAll(l: Layout, chs: seq<Change>, kept: seq<bool>, n: nat)
    requires n <= |chs| == |kept| && AllChangesOk(l, chs) && AllTrue(kept)
    ensures Logged(kept, n) == n && forall i :: 0 <= i < n ==> KeptRecords(l, chs, kept, n)[i] == RecordOf(l, chs[i])
  {
    hide RecordOf, ChangeOk;
    if n > 0 { KeptIsAll(l, chs, kept, n - 1); }
  }

  lemma AllKeptIsLog(l: Layout, ps: Pages, chs: seq<Change>, kept: seq<bool>, h: History)
    requires IsKeptLog(l, ps, chs, kept, h) && StartsWith(l, ps, chs, h) && AllTrue(kept)
    ensures IsLogOf(l, ps, chs, h)
  {
    hide RecordOf, ChangeOk, Represents, Version, AllNext;
    KeptIsAll(l, chs, kept, |chs|);
  }

  /** The replica holds every page as it is after all changes. */
  ghost predicate Mirrors(l: Layout, st: Store, ps: Pages) {
    LayoutOk(l) && forall a :: a in ps ==> a in st && Represents(l, st[a], ps[a])
  }

  /** With every change logged, every run that has replayed everything ends with all pages, whatever its schedule. */
  lemma CompleteRunMirrors(l: Layout, ps: Pages, chs: seq<Change>, h: History, streams: nat, tr: seq<State>, n: nat)
    requires IsLogOf(l, ps, chs, h) && LayoutOk(l) && Replays(h, streams, tr) && n < |tr| && AllReplayed(h, tr[n])
    ensures AllFit(chs) && Mirrors(l, tr[n].store, PagesAfter(ps, chs, |chs|))
  {
    hide Replays, AllReplayed, Represents, LayoutOk, Consistent, HistoryOk;
    LogIsHistory(l, ps, chs, h);
    RunIsConsistent(h, streams, tr, n);
    forall a | a in PagesAfter(ps, chs, |chs|)
      ensures a in tr[n].store && Represents(l, tr[n].store[a], PagesAfter(ps, chs, |chs|)[a])
    {
      ReplicaRepresents(l, ps, chs, h, tr[n], a);
    }
  }

  /** Two pages that differ in the rows under their keys at most. */
  predicate PageAlike(p: Page, q: Page) {
    |p.vals| == |q.vals| && q == p.(vals := q.vals) && (p.level > 0 ==> q == p)
  }

  ghost predicate Alike(ps: Pages, qs: Pages) {
    ps.Keys == qs.Keys && forall a :: a in ps ==> PageAlike(ps[a], qs[a])
  }

  /** An image represents only one of them. */
  lemma RepresentsOne(l: Layout, b: Image, p: Page, q: Page)
    requires LayoutOk(l) && Represents(l, b, p) && Represents(l, b, q) && PageAlike(p, q)
    ensures p == q
  {
    hide LayoutOk, HeaderIs, RangeIs, Capacity;
    if p.level == 0 {
      var s := Records(b, RecBase(l), RecSize(l, 0), |p.keys|);
      hide Records, RecSize, RecBase, Span;
      forall i | 0 <= i < |p.vals| ensures p.vals[i] == q.vals[i] {
        assert RecordIs(l, 0, s[i], p.keys[i], p.vals[i]) && RecordIs(l, 0, s[i], q.keys[i], q.vals[i]);
      }
      assert p.vals == q.vals;
    }
  }

  lemma LogFits(l: Layout, ps: Pages, chs: seq<Change>, h: History)
    requires IsLogOf(l, ps, chs, h)
    ensures AllFit(chs)
  {}

  lemma RepresentsVersion(l: Layout, b: Image, p: Page)
    requires LayoutOk(l) && Represents(l, b, p)
    ensures Version(b) == p.version
  {
    hide LayoutOk, RangeIs, RecordsAre, Version;
  }

  /** With every change logged, a page that has reached its last version is the page after all changes, in any run and
      however far the other pages are. */
  lemma LastVersionRepresents(l: Layout, ps: Pages, chs: seq<Change>, h: History, streams: nat, tr: seq<State>,
                              n: nat, a: nat)
    requires IsLogOf(l, ps, chs, h) && LayoutOk(l) && Replays(h, streams, tr) && n < |tr|
    requires a in PagesAfter(ps, chs, |chs|) && a in tr[n].store
    requires Version(tr[n].store[a]) == PagesAfter(ps, chs, |chs|)[a].version
    ensures Represents(l, tr[n].store[a], PagesAfter(ps, chs, |chs|)[a])
  {
    hide Replays, Represents, LayoutOk, HistoryOk, DoneUpToVersion, StreamsOk, Playable, Version, IsLogOf, Fold,
         LogOfPage, InOrder;
    LogFits(l, ps, chs, h);
    LogIsHistory(l, ps, chs, h);
    RunIsConsistent(h, streams, tr, n);
    LogIsKnown(l, ps, chs, h);
    LogLength(l, ps, chs, h);
    PagesKnown(l, ps, chs, h, |chs|);
    ReplicaFollows(l, ps, chs, h, |chs|, a);
    RepresentsVersion(l, InOrder(h, |chs|)[a], PagesAfter(ps, chs, |chs|)[a]);
    forall j {:trigger Ahead(h, j)} | 0 <= j < |chs| ensures Ahead(h, j) { OneAhead(l, ps, chs, h, j); }
    VersionCounts(h, |chs|, a);
    InOrderIsFold(h, |chs|, a);
    assert PageReplayed(h, tr[n].store, a);
    var log := LogOfPage(h.recs, |h.recs|, a);
    assert log[..|log|] == log;
  }

  /** Take any pages that differ from those after all changes in rows at most. Some run of the replayer holds them if
      and only if no change was left out of the log, and they do not differ. */
  lemma MirroredIffLogged(l: Layout, ps: Pages, chs: seq<Change>, kept: seq<bool>, h: History, streams: nat, qs: Pages)
    requires LayoutOk(l) && IsKeptLog(l, ps, chs, kept, h) && StartsWith(l, ps, chs, h) && Spread(h, streams)
    requires Alike(PagesAfter(ps, chs, |chs|), qs)
    ensures AllTrue(kept) && qs == PagesAfter(ps, chs, |chs|) <==>
            exists tr: seq<State>, n :: Replays(h, streams, tr) && 0 <= n < |tr| && Mirrors(l, tr[n].store, qs)
  {
    hide Represents, LayoutOk, StartsWith, StartsBelow, IsKeptLog, HistoryOk, AllReplayed, RunStep, IsLogOf, Mirrors;
    KeptLengths(l, ps, chs, kept, h);
    if AllTrue(kept) {
      AllKeptIsLog(l, ps, chs, kept, h);
      if qs == PagesAfter(ps, chs, |chs|) {
        LogIsHistory(l, ps, chs, h);
        var us := CanComplete(h, streams, [Start(h, streams)]);
        CompleteRunMirrors(l, ps, chs, h, streams, us, |us| - 1);
      }
      forall tr: seq<State>, n | Replays(h, streams, tr) && 0 <= n < |tr| && Mirrors(l, tr[n].store, qs)
        ensures qs == PagesAfter(ps, chs, |chs|)
      {
        MirroredIsSame(l, ps, chs, h, streams, tr, n, qs);
      }
    } else {
      var x :| 0 <= x < |kept| && !kept[x];
      StartIsUpToDate(l, ps, chs, kept, h);
      forall tr: seq<State>, n | Replays(h, streams, tr) && 0 <= n < |tr| ensures !Mirrors(l, tr[n].store, qs) {
        NotMirrored(l, ps, chs, kept, h, streams, tr, n, x, qs);
      }
    }
  }

  lemma MirroredIsSame(l: Layout, ps: Pages, chs: seq<Change>, h: History, streams: nat, tr: seq<State>, n: nat,
                       qs: Pages)
    requires IsLogOf(l, ps, chs, h) && LayoutOk(l) && Replays(h, streams, tr) && n < |tr|
    requires Alike(PagesAfter(ps, chs, |chs|), qs) && Mirrors(l, tr[n].store, qs)
    ensures qs == PagesAfter(ps, chs, |chs|)
  {
    hide Replays, Represents, LayoutOk, Version, IsLogOf, PagesAfter;
    LogFits(l, ps, chs, h);
    var q := PagesAfter(ps, chs, |chs|);
    forall a | a in qs ensures qs[a] == q[a] {
      RepresentsVersion(l, tr[n].store[a], qs[a]);
      LastVersionRepresents(l, ps, chs, h, streams, tr, n, a);
      RepresentsOne(l, tr[n].store[a], q[a], qs[a]);
    }
  }

  lemma NotMirrored(l: Layout, ps: Pages, chs: seq<Change>, kept: seq<bool>, h: History, streams: nat, tr: seq<State>,
                    n: nat, x: nat, qs: Pages)
    requires IsKeptLog(l, ps, chs, kept, h) && StartsBelow(ps, chs, h) && x < |chs| && !kept[x]
    requires Replays(h, streams, tr) && n < |tr| && Alike(PagesAfter(ps, chs, |chs|), qs)
    ensures !Mirrors(l, tr[n].store, qs)
  {
    hide Replays, Represents, LayoutOk, Version, PagesAfter, StartsBelow, KeptRecords, AllChangesOk;
    NeverRepresents(l, ps, chs, kept, h, streams, tr, n, x);
    var a := chs[x].addr;
    if Mirrors(l, tr[n].store, qs) { RepresentsVersion(l, tr[n].store[a], qs[a]); }
  }
}
