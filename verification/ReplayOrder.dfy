/** The ordering protocol of the replayer, on records. One history of page changes was split over several log
    streams; each stream keeps its own order, and a record may be replayed only on the version just before it. */
module ReplayOrder {
  import opened RedoPage

  /** The records in the order they were logged, the stream each went to, and the pages before them. */
  datatype History = History(recs: seq<Redo>, owner: seq<nat>, start: Store)

  /** The records of the first n that change page p. */
  function LogOfPage(recs: seq<Redo>, n: nat, p: Addr): (r: seq<Redo>)
    requires n <= |recs|
    ensures |r| <= n
  {
    if n == 0 then []
    else if recs[n - 1].page == p then LogOfPage(recs, n - 1, p) + [recs[n - 1]]
    else LogOfPage(recs, n - 1, p)
  }

  /** How many of the first n records went to stream i. */
  function Count(owner: seq<nat>, n: nat, i: nat): (r: nat)
    requires n <= |owner|
    ensures r <= n
  {
    if n == 0 then 0 else Count(owner, n - 1, i) + if owner[n - 1] == i then 1 else 0
  }

  /** The records of stream i, in history order. */
  function StreamLog(h: History, n: nat, i: nat): (r: seq<Redo>)
    requires n <= |h.recs| == |h.owner|
    ensures |r| == Count(h.owner, n, i)
  {
    if n == 0 then []
    else if h.owner[n - 1] == i then StreamLog(h, n - 1, i) + [h.recs[n - 1]]
    else StreamLog(h, n - 1, i)
  }

  predicate NextVersion(h: History, j: nat)
    requires j < |h.recs|
  {
    var r := h.recs[j];
    r.page in h.start && r.version == Version(h.start[r.page]) + |LogOfPage(h.recs, j, r.page)| + 1
  }

  predicate KnownPages(h: History) {
    forall j :: 0 <= j < |h.recs| ==> h.recs[j].page in h.start
  }

  /** Every record is for a known page, and the versions of each page have no gap. */
  predicate HistoryOk(h: History) {
    && |h.owner| == |h.recs| && KnownPages(h)
    && forall j {:trigger NextVersion(h, j)} :: 0 <= j < |h.recs| ==> NextVersion(h, j)
  }

  /** Applying records to one page, in order. */
  function Fold(b: Image, rs: seq<Redo>): Image {
    if rs == [] then b else Apply(Fold(b, rs[..|rs| - 1]), rs[|rs| - 1])
  }

  /** Applying the first n records of the history in order: the pages the replica should end with. */
  function InOrder(h: History, n: nat): (st: Store)
    requires KnownPages(h) && n <= |h.recs|
    ensures st.Keys == h.start.Keys
  {
    if n == 0 then h.start
    else
      var st, r := InOrder(h, n - 1), h.recs[n - 1];
      st[r.page := Apply(st[r.page], r)]
  }

  /** Page by page, the history in order is the fold of that page's records. */
  lemma {:induction false} InOrderIsFold(h: History, n: nat, p: Addr)
    requires KnownPages(h) && n <= |h.recs| && p in h.start
    ensures InOrder(h, n)[p] == Fold(h.start[p], LogOfPage(h.recs, n, p))
  {
    hide Apply, Playable;
    if n > 0 {
      InOrderIsFold(h, n - 1, p);
      if h.recs[n - 1].page == p {
        var l := LogOfPage(h.recs, n, p);
        assert l[..|l| - 1] == LogOfPage(h.recs, n - 1, p);
      }
    }
  }

  lemma {:induction false} PageLogPrefix(recs: seq<Redo>, m: nat, n: nat, p: Addr)
    requires m <= n <= |recs|
    ensures LogOfPage(recs, m, p) <= LogOfPage(recs, n, p)
    decreases n
  {
    if m < n { PageLogPrefix(recs, m, n - 1, p); }
  }

  /** Each page's records carry consecutive versions. */
  lemma {:induction false} PageLogVersions(h: History, n: nat, p: Addr, k: nat)
    requires HistoryOk(h) && n <= |h.recs| && p in h.start && k < |LogOfPage(h.recs, n, p)|
    ensures LogOfPage(h.recs, n, p)[k].version == Version(h.start[p]) + k + 1
  {
    hide Playable;
    if k < |LogOfPage(h.recs, n - 1, p)| { PageLogVersions(h, n - 1, p, k); }
    else { assert NextVersion(h, n - 1); }
  }

  /** Two records of one page are ordered as their versions are. */
  lemma VersionsOrdered(h: History, i: nat, j: nat)
    requires HistoryOk(h) && i < j < |h.recs| && h.recs[i].page == h.recs[j].page
    ensures h.recs[i].version < h.recs[j].version
  {
    hide Playable;
    PageLogPrefix(h.recs, i + 1, j, h.recs[i].page);
    assert NextVersion(h, i) && NextVersion(h, j);
  }

  /* ---- Streams ---- */

  lemma {:induction false} CountMonotone(owner: seq<nat>, m: nat, n: nat, i: nat)
    requires m <= n <= |owner|
    ensures Count(owner, m, i) <= Count(owner, n, i)
    decreases n
  {
    if m < n { CountMonotone(owner, m, n - 1, i); }
  }

  /** Record j of the history sits in its stream after the records of that stream that came before it. */
  lemma {:induction false} StreamAt(h: History, n: nat, j: nat)
    requires j < n <= |h.recs| == |h.owner|
    ensures var i := h.owner[j];
            Count(h.owner, j, i) < Count(h.owner, n, i) && StreamLog(h, n, i)[Count(h.owner, j, i)] == h.recs[j]
    decreases n
  {
    if j + 1 < n { StreamAt(h, n - 1, j); }
  }

  /** Every position of a stream comes from a record of the history. */
  lemma {:induction false} StreamFrom(h: History, n: nat, i: nat, k: nat) returns (j: nat)
    requires n <= |h.recs| == |h.owner| && k < Count(h.owner, n, i)
    ensures j < n && h.owner[j] == i && Count(h.owner, j, i) == k && h.recs[j] == StreamLog(h, n, i)[k]
    decreases n
  {
    if h.owner[n - 1] == i && Count(h.owner, n - 1, i) == k { j := n - 1; }
    else { j := StreamFrom(h, n - 1, i, k); }
  }

  /* ---- The state of a replayer ---- */

  /** How many records of each stream have been delivered and replayed, and the pages. */
  datatype State = State(delivered: seq<nat>, done: seq<nat>, store: Store)

  ghost predicate Done(h: History, s: State, j: nat)
    requires j < |h.recs| == |h.owner| && h.owner[j] < |s.done|
  {
    Count(h.owner, j, h.owner[j]) < s.done[h.owner[j]]
  }

  ghost predicate Delivered(h: History, s: State, j: nat)
    requires j < |h.recs| == |h.owner| && h.owner[j] < |s.delivered|
  {
    Count(h.owner, j, h.owner[j]) < s.delivered[h.owner[j]]
  }

  ghost predicate PageReplayed(h: History, st: Store, p: Addr)
    requires p in h.start
  {
    && p in st
    && var c := Version(st[p]) - Version(h.start[p]);
       0 <= c <= |LogOfPage(h.recs, |h.recs|, p)| && st[p] == Fold(h.start[p], LogOfPage(h.recs, |h.recs|, p)[..c])
  }

  ghost predicate DoneUpToVersion(h: History, s: State, j: nat)
    requires j < |h.recs| == |h.owner| && h.owner[j] < |s.done| && h.recs[j].page in s.store
  {
    Done(h, s, j) <==> h.recs[j].version <= Version(s.store[h.recs[j].page])
  }

  ghost predicate StreamsOk(h: History, s: State) {
    && |s.delivered| == |s.done| && |h.owner| == |h.recs|
    && (forall j :: 0 <= j < |h.owner| ==> h.owner[j] < |s.done|)
    && (forall i :: 0 <= i < |s.done| ==> s.done[i] <= s.delivered[i] <= Count(h.owner, |h.owner|, i))
  }

  /** Every page is a prefix of its own history, and exactly the records up to its version are done. */
  ghost predicate Consistent(h: History, s: State) {
    && HistoryOk(h) && StreamsOk(h, s) && s.store.Keys == h.start.Keys
    && (forall j :: 0 <= j < |h.recs| ==> h.recs[j].page in s.store)
    && (forall p {:trigger PageReplayed(h, s.store, p)} :: p in h.start ==> PageReplayed(h, s.store, p))
    && (forall j {:trigger DoneUpToVersion(h, s, j)} :: 0 <= j < |h.recs| ==> DoneUpToVersion(h, s, j))
  }

  ghost predicate Pending(s: State, i: nat) {
    i < |s.done| == |s.delivered| && s.done[i] < s.delivered[i]
  }

  /** The record stream i offers next. */
  ghost function Head(h: History, s: State, i: nat): Redo
    requires StreamsOk(h, s) && Pending(s, i)
  {
    StreamLog(h, |h.recs|, i)[s.done[i]]
  }

  /** A stale record is never met: what a stream offers next is newer than its page. */
  lemma HeadIsNew(h: History, s: State, i: nat)
    requires Consistent(h, s) && Pending(s, i)
    ensures var r := Head(h, s, i); r.page in s.store && r.version > Version(s.store[r.page])
  {
    hide Playable, PageReplayed;
    var j := StreamFrom(h, |h.recs|, i, s.done[i]);
    assert DoneUpToVersion(h, s, j);
  }

  /** A record may be replayed when its page is just one version behind. */
  ghost predicate Ready(h: History, s: State, i: nat)
    requires StreamsOk(h, s) && Pending(s, i)
  {
    var r := Head(h, s, i); r.page in s.store && r.version == Version(s.store[r.page]) + 1
  }

  ghost function Replay(h: History, s: State, i: nat): (r: State)
    requires StreamsOk(h, s) && Pending(s, i) && Ready(h, s, i)
    ensures StreamsOk(h, r)
  {
    var r := Head(h, s, i);
    s.(done := s.done[i := s.done[i] + 1], store := s.store[r.page := Apply(s.store[r.page], r)])
  }

  /** The record a ready stream offers is the one its page's own log has next. */
  lemma ReadyIsNextOfPage(h: History, s: State, i: nat)
    requires Consistent(h, s) && Pending(s, i) && Ready(h, s, i)
    ensures var r := Head(h, s, i);
            && r.page in h.start
            && var c := Version(s.store[r.page]) - Version(h.start[r.page]);
               0 <= c < |LogOfPage(h.recs, |h.recs|, r.page)| && LogOfPage(h.recs, |h.recs|, r.page)[c] == r
  {
    hide Playable, Fold, Version, Apply, DoneUpToVersion;
    var r := Head(h, s, i);
    var j := StreamFrom(h, |h.recs|, i, s.done[i]);
    assert NextVersion(h, j);
    PageLogPrefix(h.recs, j + 1, |h.recs|, r.page);
  }

  lemma ReplayKeepsPages(h: History, s: State, i: nat, p: Addr)
    requires Consistent(h, s) && Pending(s, i) && Ready(h, s, i) && p in h.start
    ensures PageReplayed(h, Replay(h, s, i).store, p)
  {
    hide Playable, Apply, Version, HistoryOk, StreamsOk, DoneUpToVersion, LogOfPage, StreamLog;
    assert PageReplayed(h, s.store, p);
    var r := Head(h, s, i);
    ReadyIsNextOfPage(h, s, i);
    if p == r.page {
      var l := LogOfPage(h.recs, |h.recs|, p);
      var c := Version(s.store[p]) - Version(h.start[p]);
      assert l[..c + 1][..c] == l[..c];
    }
  }

  /** The replayed record is the next one of its stream. */
  lemma OthersStayDone(h: History, s: State, i: nat, m: nat, j: nat)
    requires StreamsOk(h, s) && Pending(s, i) && Ready(h, s, i) && m < |h.recs| && j < |h.recs| && j != m
    requires h.owner[m] == i && Count(h.owner, m, i) == s.done[i]
    ensures Done(h, Replay(h, s, i), j) <==> Done(h, s, j)
  {
    if h.owner[j] == i {
      if j < m { CountMonotone(h.owner, j + 1, m, i); } else { CountMonotone(h.owner, m + 1, j, i); }
    }
  }

  /** No other record of the page has the replayed version. */
  lemma OthersStayBelow(h: History, s: State, i: nat, m: nat, j: nat)
    requires Consistent(h, s) && Pending(s, i) && Ready(h, s, i) && m < |h.recs| && j < |h.recs| && j != m
    requires h.recs[m] == Head(h, s, i)
    ensures var p := h.recs[j].page;
            h.recs[j].version <= Version(Replay(h, s, i).store[p]) <==> h.recs[j].version <= Version(s.store[p])
  {
    hide Playable, PageReplayed, DoneUpToVersion, LogOfPage, StreamLog;
    if h.recs[j].page == h.recs[m].page {
      if j < m { VersionsOrdered(h, j, m); } else { VersionsOrdered(h, m, j); }
    }
  }

  lemma ReplayKeepsDone(h: History, s: State, i: nat, j: nat)
    requires Consistent(h, s) && Pending(s, i) && Ready(h, s, i) && j < |h.recs| && h.owner[j] < |s.done|
    requires h.recs[j].page in s.store
    ensures DoneUpToVersion(h, Replay(h, s, i), j)
  {
    hide Playable, PageReplayed, HistoryOk, LogOfPage;
    assert DoneUpToVersion(h, s, j);
    var m := StreamFrom(h, |h.recs|, i, s.done[i]);
    if j != m {
      OthersStayDone(h, s, i, m, j);
      OthersStayBelow(h, s, i, m, j);
    }
  }

  /** Replaying a ready record keeps the state consistent. */
  lemma ReplayKeepsConsistent(h: History, s: State, i: nat)
    requires Consistent(h, s) && Pending(s, i) && Ready(h, s, i)
    ensures Consistent(h, Replay(h, s, i))
  {
    hide Playable, PageReplayed, DoneUpToVersion, HistoryOk;
    var s' := Replay(h, s, i);
    forall p {:trigger PageReplayed(h, s'.store, p)} | p in h.start ensures PageReplayed(h, s'.store, p) {
      ReplayKeepsPages(h, s, i, p);
    }
    forall j {:trigger DoneUpToVersion(h, s', j)} | 0 <= j < |h.recs| ensures DoneUpToVersion(h, s', j) {
      ReplayKeepsDone(h, s, i, j);
    }
  }

  /** Before anything arrives. */
  ghost function Start(h: History, streams: nat): State {
    State(seq(streams, i => 0), seq(streams, i => 0), h.start)
  }

  lemma StartIsConsistent(h: History, streams: nat)
    requires HistoryOk(h) && forall j :: 0 <= j < |h.owner| ==> h.owner[j] < streams
    ensures Consistent(h, Start(h, streams))
  {
    hide Playable, Version;
    var s := Start(h, streams);
    forall p {:trigger PageReplayed(h, s.store, p)} | p in h.start ensures PageReplayed(h, s.store, p) {
      assert LogOfPage(h.recs, |h.recs|, p)[..0] == [];
    }
    forall j | 0 <= j < |h.recs| ensures h.recs[j].page in s.store { assert NextVersion(h, j); }
    forall j {:trigger DoneUpToVersion(h, s, j)} | 0 <= j < |h.recs| ensures DoneUpToVersion(h, s, j) {
      assert NextVersion(h, j);
    }
  }

  /** More records arriving keeps the state consistent. */
  lemma DeliveryKeepsConsistent(h: History, s: State, i: nat, n: nat)
    requires Consistent(h, s) && i < |s.delivered| && s.delivered[i] <= n <= Count(h.owner, |h.owner|, i)
    ensures Consistent(h, s.(delivered := s.delivered[i := n]))
  {
    hide Playable, PageReplayed, HistoryOk;
    var s' := s.(delivered := s.delivered[i := n]);
    forall j {:trigger DoneUpToVersion(h, s', j)} | 0 <= j < |h.recs| ensures DoneUpToVersion(h, s', j) {
      assert DoneUpToVersion(h, s, j);
    }
  }

  /* ---- Confluence ---- */

  ghost predicate AllReplayed(h: History, s: State) {
    |s.done| == |s.delivered| && forall i :: 0 <= i < |s.done| ==> s.done[i] == Count(h.owner, |h.owner|, i)
  }

  /** A consistent state with everything replayed has exactly the pages of applying the history in order. */
  lemma CompleteIsInOrder(h: History, s: State)
    requires Consistent(h, s) && AllReplayed(h, s)
    ensures s.store == InOrder(h, |h.recs|)
  {
    hide Playable, HistoryOk;
    forall p | p in h.start ensures s.store[p] == InOrder(h, |h.recs|)[p] {
      PageComplete(h, s, p);
      InOrderIsFold(h, |h.recs|, p);
    }
  }

  lemma PageComplete(h: History, s: State, p: Addr)
    requires Consistent(h, s) && AllReplayed(h, s) && p in h.start
    ensures p in s.store && s.store[p] == Fold(h.start[p], LogOfPage(h.recs, |h.recs|, p))
  {
    hide Playable, Apply, Version, Fold;
    assert PageReplayed(h, s.store, p);
    var l := LogOfPage(h.recs, |h.recs|, p);
    if l != [] {
      var j := LastOfPage(h.recs, |h.recs|, p);
      StreamAt(h, |h.recs|, j);
      assert DoneUpToVersion(h, s, j);
      PageLogVersions(h, |h.recs|, p, |l| - 1);
    }
    assert l[..|l|] == l;
  }

  lemma {:induction false} LastOfPage(recs: seq<Redo>, n: nat, p: Addr) returns (j: nat)
    requires n <= |recs| && LogOfPage(recs, n, p) != []
    ensures j < n && recs[j].page == p && recs[j] == LogOfPage(recs, n, p)[|LogOfPage(recs, n, p)| - 1]
  {
    if recs[n - 1].page == p { j := n - 1; } else { j := LastOfPage(recs, n - 1, p); }
  }

  /* ---- Progress ---- */

  /** Whatever has been delivered, every earlier record of the same page has been delivered too. */
  ghost predicate Closed(h: History, s: State)
    requires StreamsOk(h, s)
  {
    forall i: nat, j: nat {:trigger Delivered(h, s, i), Delivered(h, s, j)} ::
      i < j < |h.recs| && h.recs[i].page == h.recs[j].page && Delivered(h, s, j) ==> Delivered(h, s, i)
  }

  ghost predicate Unplayed(h: History, s: State, j: nat)
    requires StreamsOk(h, s) && j < |h.recs|
  {
    Delivered(h, s, j) && !Done(h, s, j)
  }

  /** The earliest record of the history that is delivered and not yet replayed. */
  lemma {:induction false} EarliestUnplayed(h: History, s: State, j: nat) returns (m: nat)
    requires StreamsOk(h, s) && j < |h.recs| && Unplayed(h, s, j)
    ensures m <= j && Unplayed(h, s, m)
    ensures forall i: nat {:trigger Unplayed(h, s, i)} :: i < m ==> !Unplayed(h, s, i)
    decreases j
  {
    if i: nat {:trigger Unplayed(h, s, i)} :| i < j && Unplayed(h, s, i) { m := EarliestUnplayed(h, s, i); }
    else { m := j; }
  }

  /** The earliest one heads its stream. */
  lemma EarliestIsHead(h: History, s: State, m: nat)
    requires StreamsOk(h, s) && m < |h.recs| && Unplayed(h, s, m)
    requires forall i: nat {:trigger Unplayed(h, s, i)} :: i < m ==> !Unplayed(h, s, i)
    ensures Pending(s, h.owner[m]) && Head(h, s, h.owner[m]) == h.recs[m]
  {
    hide Playable;
    var o := h.owner[m];
    StreamAt(h, |h.recs|, m);
    var i := StreamFrom(h, |h.recs|, o, s.done[o]);
    assert Unplayed(h, s, i);
    if m < i { CountMonotone(h.owner, m + 1, i, o); }
  }

  /** A record whose same-page predecessors are all replayed is ready. */
  lemma PredecessorsDone(h: History, s: State, m: nat)
    requires Consistent(h, s) && m < |h.recs| && !Done(h, s, m)
    requires forall i: nat :: i < m && h.recs[i].page == h.recs[m].page ==> Done(h, s, i)
    ensures h.recs[m].version == Version(s.store[h.recs[m].page]) + 1
  {
    hide Playable, Fold, Version, StreamLog, Count;
    var p := h.recs[m].page;
    assert NextVersion(h, m) && DoneUpToVersion(h, s, m) && PageReplayed(h, s.store, p);
    if LogOfPage(h.recs, m, p) != [] {
      var i := LastOfPage(h.recs, m, p);
      PageLogVersions(h, m, p, |LogOfPage(h.recs, m, p)| - 1);
      assert DoneUpToVersion(h, s, i);
    }
  }

  /** Progress: with something delivered and unplayed, and nothing missing before it, some stream can go on. */
  lemma SomeStreamIsReady(h: History, s: State, i: nat) returns (k: nat)
    requires Consistent(h, s) && Closed(h, s) && Pending(s, i)
    ensures Pending(s, k) && Ready(h, s, k)
  {
    hide Playable, PageReplayed, DoneUpToVersion, Version, StreamLog, HistoryOk;
    var j := StreamFrom(h, |h.recs|, i, s.done[i]);
    var m := EarliestUnplayed(h, s, j);
    EarliestIsHead(h, s, m);
    k := h.owner[m];
    forall x: nat | x < m && h.recs[x].page == h.recs[m].page ensures Done(h, s, x) {
      assert Delivered(h, s, m) && Delivered(h, s, x) && !Unplayed(h, s, x);
    }
    PredecessorsDone(h, s, m);
  }

  /** So when no stream can go on, an earlier record of some delivered record's page is still missing. */
  lemma StuckMeansUndelivered(h: History, s: State, i: nat) returns (x: nat, y: nat)
    requires Consistent(h, s) && Pending(s, i)
    requires forall k: nat :: Pending(s, k) ==> !Ready(h, s, k)
    ensures x < y < |h.recs| && h.recs[x].page == h.recs[y].page && Delivered(h, s, y) && !Delivered(h, s, x)
  {
    hide Playable, PageReplayed, DoneUpToVersion, Version, StreamLog, HistoryOk;
    if Closed(h, s) { var k := SomeStreamIsReady(h, s, i); assert false; }
    x, y :| x < y < |h.recs| && h.recs[x].page == h.recs[y].page && Delivered(h, s, y) && !Delivered(h, s, x);
  }

  /* ---- One turn of one stream ---- */

  /** Stream i goes on as long as its next record is ready, through at most its first n records. */
  ghost function Turn(h: History, s: State, i: nat, n: nat): (r: State)
    requires StreamsOk(h, s) && i < |s.done| && n <= s.delivered[i]
    ensures StreamsOk(h, r) && r.delivered == s.delivered
    ensures |r.done| == |s.done| && s.done[i] <= r.done[i] && r.done == s.done[i := r.done[i]]
    ensures s.done[i] < n && Ready(h, s, i) ==> r.done[i] > s.done[i]
    ensures r.done[i] < n ==> !Ready(h, r, i)
    decreases n - s.done[i]
  {
    if s.done[i] < n && Ready(h, s, i) then Turn(h, Replay(h, s, i), i, n) else s
  }

  lemma {:induction false} TurnKeepsConsistent(h: History, s: State, i: nat, n: nat)
    requires Consistent(h, s) && i < |s.done| && n <= s.delivered[i]
    ensures Consistent(h, Turn(h, s, i, n))
    decreases n - s.done[i]
  {
    hide PageReplayed, DoneUpToVersion, HistoryOk, Playable, Version, StreamLog, Count, Ready;
    if s.done[i] < n && Ready(h, s, i) {
      ReplayKeepsConsistent(h, s, i);
      TurnKeepsConsistent(h, Replay(h, s, i), i, n);
    }
  }
}
