/** Runs of the replayer: any deliveries and any replays of ready records, in any order, from the moment nothing has
    arrived. Which histories a run can complete, and what the pages are then. */
module ReplayRuns {
  import opened RedoPage
  import opened ReplayOrder

  /** More records of stream i arrive: n of them are there now. */
  ghost predicate Delivers(h: History, s: State, s': State, i: nat, n: nat) {
    && |h.owner| == |h.recs| && i < |s.delivered| && s.delivered[i] <= n <= Count(h.owner, |h.owner|, i)
    && s' == s.(delivered := s.delivered[i := n])
  }

  /** Stream i is offered its turn and its next record is ready. */
  ghost predicate Plays(h: History, s: State, s': State, i: nat) {
    StreamsOk(h, s) && Pending(s, i) && Ready(h, s, i) && s' == Replay(h, s, i)
  }

  ghost predicate RunStep(h: History, s: State, s': State) {
    (exists i: nat :: Plays(h, s, s', i)) || (exists i: nat, n: nat :: Delivers(h, s, s', i, n))
  }

  /** The history is spread over that many streams. */
  ghost predicate Spread(h: History, streams: nat) {
    |h.owner| == |h.recs| && forall j :: 0 <= j < |h.owner| ==> h.owner[j] < streams
  }

  ghost predicate Steps(h: History, tr: seq<State>) {
    |tr| > 0 && forall n {:trigger RunStep(h, tr[n - 1], tr[n])} :: 0 < n < |tr| ==> RunStep(h, tr[n - 1], tr[n])
  }

  /** A run. Nothing is asked of the history but that its records have a stream. */
  ghost predicate Replays(h: History, streams: nat, tr: seq<State>) {
    Spread(h, streams) && Steps(h, tr) && tr[0] == Start(h, streams)
  }

  ghost predicate Reaches(h: History, s: State, t: State) {
    exists tr :: Steps(h, tr) && tr[0] == s && tr[|tr| - 1] == t
  }

  lemma StepReaches(h: History, s: State, t: State)
    requires RunStep(h, s, t)
    ensures Reaches(h, s, t)
  {
    hide RunStep;
    var tr := [s, t];
    assert Steps(h, tr) && tr[0] == s && tr[|tr| - 1] == t;
  }

  lemma StaysThere(h: History, s: State)
    ensures Reaches(h, s, s)
  {
    var tr := [s];
    assert Steps(h, tr) && tr[0] == s && tr[|tr| - 1] == s;
  }

  lemma ReachesFurther(h: History, s: State, t: State, u: State)
    requires Reaches(h, s, t) && Reaches(h, t, u)
    ensures Reaches(h, s, u)
  {
    hide RunStep;
    var x :| Steps(h, x) && x[0] == s && x[|x| - 1] == t;
    var y :| Steps(h, y) && y[0] == t && y[|y| - 1] == u;
    var z := x + y[1..];
    forall n {:trigger RunStep(h, z[n - 1], z[n])} | 0 < n < |z| ensures RunStep(h, z[n - 1], z[n]) {
      if n < |x| { assert RunStep(h, x[n - 1], x[n]); }
      else {
        var m := n - |x| + 1;
        assert z[n] == y[m] && z[n - 1] == y[m - 1];
        assert RunStep(h, y[m - 1], y[m]);
      }
    }
    assert z[|z| - 1] == u;
    assert Steps(h, z) && z[0] == s;
  }

  /** A turn of a stream is a stretch of a run. */
  lemma {:induction false} TurnReaches(h: History, s: State, i: nat, n: nat)
    requires StreamsOk(h, s) && i < |s.done| && n <= s.delivered[i]
    ensures Reaches(h, s, Turn(h, s, i, n))
    decreases n - s.done[i]
  {
    hide RunStep, Reaches, Ready, Count, StreamLog;
    if s.done[i] < n && Ready(h, s, i) {
      CanPlay(h, s, i);
      StepReaches(h, s, Replay(h, s, i));
      TurnReaches(h, Replay(h, s, i), i, n);
      ReachesFurther(h, s, Replay(h, s, i), Turn(h, s, i, n));
    } else {
      StaysThere(h, s);
    }
  }

  /* ---- What every state of every run satisfies ---- */

  lemma StepKeepsStreams(h: History, s: State, s': State)
    requires StreamsOk(h, s) && RunStep(h, s, s')
    ensures StreamsOk(h, s')
  {
    hide Replay, Ready, Count;
  }

  lemma {:induction false} RunStreams(h: History, streams: nat, tr: seq<State>, n: nat)
    requires Replays(h, streams, tr) && n < |tr|
    ensures StreamsOk(h, tr[n])
  {
    hide RunStep;
    if n > 0 {
      RunStreams(h, streams, tr, n - 1);
      assert RunStep(h, tr[n - 1], tr[n]);
      StepKeepsStreams(h, tr[n - 1], tr[n]);
    }
  }

  lemma StepKeepsConsistent(h: History, s: State, s': State)
    requires Consistent(h, s) && RunStep(h, s, s')
    ensures Consistent(h, s')
  {
    hide Consistent, StreamsOk, Replay, Ready;
    if i: nat :| Plays(h, s, s', i) { ReplayKeepsConsistent(h, s, i); }
    else {
      var i: nat, n: nat :| Delivers(h, s, s', i, n);
      DeliveryKeepsConsistent(h, s, i, n);
    }
  }

  /** Every state of every run of a gap-free history is consistent with it. */
  lemma {:induction false} RunIsConsistent(h: History, streams: nat, tr: seq<State>, n: nat)
    requires HistoryOk(h) && Replays(h, streams, tr) && n < |tr|
    ensures Consistent(h, tr[n])
  {
    hide RunStep, Consistent, HistoryOk;
    if n == 0 { StartIsConsistent(h, streams); }
    else {
      RunIsConsistent(h, streams, tr, n - 1);
      assert RunStep(h, tr[n - 1], tr[n]);
      StepKeepsConsistent(h, tr[n - 1], tr[n]);
    }
  }

  /** Confluence: whatever arrived when and whatever was replayed when, a run that has replayed everything ends with
      exactly the pages of applying the history in order. */
  lemma Confluence(h: History, streams: nat, tr: seq<State>, n: nat)
    requires HistoryOk(h) && Replays(h, streams, tr) && n < |tr| && AllReplayed(h, tr[n])
    ensures tr[n].store == InOrder(h, |h.recs|)
  {
    hide Consistent, HistoryOk, RunStep;
    RunIsConsistent(h, streams, tr, n);
    CompleteIsInOrder(h, tr[n]);
  }

  /** In no run of a gap-free history does a stream ever offer a stale record. */
  lemma NeverStale(h: History, streams: nat, tr: seq<State>, n: nat, i: nat)
    requires HistoryOk(h) && Replays(h, streams, tr) && n < |tr| && Pending(tr[n], i)
    ensures StreamsOk(h, tr[n])
    ensures var r := Head(h, tr[n], i); r.page in tr[n].store && r.version > Version(tr[n].store[r.page])
  {
    hide Consistent, HistoryOk, RunStep, StreamsOk;
    RunStreams(h, streams, tr, n);
    RunIsConsistent(h, streams, tr, n);
    HeadIsNew(h, tr[n], i);
  }

  /* ---- Completing a run ---- */

  function Total(s: seq<nat>): nat {
    if s == [] then 0 else s[|s| - 1] + Total(s[..|s| - 1])
  }

  lemma {:induction false} TotalGrows(s: seq<nat>, i: nat, x: nat)
    requires i < |s| && s[i] <= x
    ensures Total(s[i := x]) == Total(s) + (x - s[i])
  {
    var n := |s| - 1;
    if i == n { assert s[i := x][..n] == s[..n]; }
    else {
      assert s[i := x][..n] == s[..n][i := x];
      TotalGrows(s[..n], i, x);
    }
  }

  lemma {:induction false} TotalBound(s: seq<nat>, t: seq<nat>)
    requires |s| == |t| && forall i :: 0 <= i < |s| ==> s[i] <= t[i]
    ensures Total(s) <= Total(t)
    ensures Total(s) == Total(t) ==> s == t
  {
    if s != [] {
      var n := |s| - 1;
      TotalBound(s[..n], t[..n]);
      assert s == s[..n] + [s[n]] && t == t[..n] + [t[n]];
    }
  }

  ghost function Counts(h: History, streams: nat): (r: seq<nat>)
    requires |h.owner| == |h.recs|
    ensures |r| == streams && forall i :: 0 <= i < streams ==> r[i] == Count(h.owner, |h.owner|, i)
  {
    seq(streams, i requires 0 <= i < streams => Count(h.owner, |h.owner|, i))
  }

  lemma Extended(h: History, streams: nat, tr: seq<State>, s: State)
    requires Replays(h, streams, tr) && RunStep(h, tr[|tr| - 1], s)
    ensures Replays(h, streams, tr + [s])
  {
    hide RunStep, Start, Spread;
    var us := tr + [s];
    forall n {:trigger RunStep(h, us[n - 1], us[n])} | 0 < n < |us| ensures RunStep(h, us[n - 1], us[n]) {
      if n < |tr| { assert RunStep(h, tr[n - 1], tr[n]) && us[n - 1] == tr[n - 1] && us[n] == tr[n]; }
    }
  }

  lemma CanDeliver(h: History, s: State, i: nat, n: nat)
    requires |h.owner| == |h.recs| && i < |s.delivered| && s.delivered[i] <= n <= Count(h.owner, |h.owner|, i)
    ensures RunStep(h, s, s.(delivered := s.delivered[i := n]))
  {
    assert Delivers(h, s, s.(delivered := s.delivered[i := n]), i, n);
  }

  lemma CanPlay(h: History, s: State, i: nat)
    requires StreamsOk(h, s) && Pending(s, i) && Ready(h, s, i)
    ensures RunStep(h, s, Replay(h, s, i))
  {
    hide Replay, Ready;
    assert Plays(h, s, Replay(h, s, i), i);
  }

  /** Everything can arrive at any moment. */
  lemma {:induction false} DeliverRest(h: History, streams: nat, tr: seq<State>, i: nat) returns (us: seq<State>)
    requires |tr| > 0 && Replays(h, streams, tr) && StreamsOk(h, tr[|tr| - 1])
    requires |tr[|tr| - 1].done| == streams && i <= streams
    requires forall j :: i <= j < streams ==> tr[|tr| - 1].delivered[j] == Count(h.owner, |h.owner|, j)
    ensures |us| > 0 && Replays(h, streams, us) && tr <= us && StreamsOk(h, us[|us| - 1])
    ensures us[|us| - 1].delivered == Counts(h, streams) && |us[|us| - 1].done| == streams
    decreases i
  {
    hide RunStep, Replays, Count;
    var s := tr[|tr| - 1];
    if i == 0 { us := tr; }
    else {
      var n := Count(h.owner, |h.owner|, i - 1);
      CanDeliver(h, s, i - 1, n);
      var s' := s.(delivered := s.delivered[i - 1 := n]);
      Extended(h, streams, tr, s');
      us := DeliverRest(h, streams, tr + [s'], i - 1);
    }
  }

  lemma AllDelivered(h: History, streams: nat, s: State)
    requires StreamsOk(h, s) && s.delivered == Counts(h, streams)
    ensures Closed(h, s)
  {
    hide Count;
    forall i: nat, j: nat {:trigger Delivered(h, s, i), Delivered(h, s, j)} |
      i < j < |h.recs| && h.recs[i].page == h.recs[j].page && Delivered(h, s, j) ensures Delivered(h, s, i) {
      StreamAt(h, |h.recs|, i);
    }
  }

  lemma DoneIsAll(h: History, streams: nat, s: State)
    requires StreamsOk(h, s) && s.delivered == Counts(h, streams) && forall i: nat :: !Pending(s, i)
    ensures AllReplayed(h, s)
  {
    hide Count;
    forall i | 0 <= i < |s.done| ensures s.done[i] == Count(h.owner, |h.owner|, i) { assert !Pending(s, i); }
  }

  lemma DoneWithin(h: History, streams: nat, s: State)
    requires StreamsOk(h, s) && s.delivered == Counts(h, streams)
    ensures Total(s.done) <= Total(Counts(h, streams))
  {
    hide Count, Total;
    TotalBound(s.done, Counts(h, streams));
  }

  /** Once everything has arrived, replaying ready records one after the other completes the run. */
  lemma {:induction false} PlayRest(h: History, streams: nat, tr: seq<State>) returns (us: seq<State>)
    requires HistoryOk(h) && |tr| > 0 && Replays(h, streams, tr) && StreamsOk(h, tr[|tr| - 1])
    requires tr[|tr| - 1].delivered == Counts(h, streams) && |tr[|tr| - 1].done| == streams
    ensures |us| > 0 && Replays(h, streams, us) && tr <= us && AllReplayed(h, us[|us| - 1])
    decreases Total(Counts(h, streams)) - Total(tr[|tr| - 1].done)
  {
    hide RunStep, Replays, Count, HistoryOk, Consistent, Ready, Total, Head, Closed, AllReplayed, StreamsOk, Apply;
    var s := tr[|tr| - 1];
    if i: nat :| Pending(s, i) {
      RunIsConsistent(h, streams, tr, |tr| - 1);
      AllDelivered(h, streams, s);
      var k := SomeStreamIsReady(h, s, i);
      CanPlay(h, s, k);
      var s' := Replay(h, s, k);
      Extended(h, streams, tr, s');
      TotalGrows(s.done, k, s.done[k] + 1);
      DoneWithin(h, streams, s');
      us := PlayRest(h, streams, tr + [s']);
    } else {
      DoneIsAll(h, streams, s);
      us := tr;
    }
  }

  /** Every run of a gap-free history can be completed, from wherever it is. */
  lemma CanComplete(h: History, streams: nat, tr: seq<State>) returns (us: seq<State>)
    requires HistoryOk(h) && Replays(h, streams, tr)
    ensures |us| > 0 && Replays(h, streams, us) && tr <= us && AllReplayed(h, us[|us| - 1])
  {
    hide RunStep, Count, HistoryOk, AllReplayed;
    RunStreams(h, streams, tr, |tr| - 1);
    RunWidth(h, streams, tr, |tr| - 1);
    us := DeliverRest(h, streams, tr, streams);
    us := PlayRest(h, streams, us);
  }

  lemma {:induction false} RunWidth(h: History, streams: nat, tr: seq<State>, n: nat)
    requires Replays(h, streams, tr) && n < |tr|
    ensures |tr[n].done| == |tr[n].delivered| == streams
  {
    hide Ready, Count, StreamsOk, Head;
    if n > 0 {
      RunWidth(h, streams, tr, n - 1);
      assert RunStep(h, tr[n - 1], tr[n]);
    }
  }

  /* ---- Histories with a gap ---- */

  ghost predicate Carried(h: History, p: Addr, v: nat) {
    exists j :: 0 <= j < |h.recs| && h.recs[j].page == p && h.recs[j].version == v
  }

  /** Version g of page p is missing: the page starts below it and no record carries it. */
  ghost predicate Missing(h: History, p: Addr, g: nat) {
    p in h.start && Version(h.start[p]) < g && !Carried(h, p, g)
  }

  lemma StepStaysBelow(h: History, s: State, s': State, p: Addr, g: nat)
    requires Missing(h, p, g) && RunStep(h, s, s') && p in s.store && Version(s.store[p]) < g
    ensures p in s'.store && Version(s'.store[p]) < g
  {
    hide Version, Playable, Apply, Count, StreamLog;
    if i: nat :| Plays(h, s, s', i) {
      var j := StreamFrom(h, |h.recs|, i, s.done[i]);
      assert h.recs[j].page == p ==> h.recs[j].version != g;
    }
  }

  /** A page never gets past a missing version, in any run. */
  lemma {:induction false} StaysBelow(h: History, streams: nat, tr: seq<State>, n: nat, p: Addr, g: nat)
    requires Replays(h, streams, tr) && n < |tr| && Missing(h, p, g)
    ensures p in tr[n].store && Version(tr[n].store[p]) < g
  {
    hide Version, RunStep, Carried;
    if n > 0 {
      StaysBelow(h, streams, tr, n - 1, p, g);
      assert RunStep(h, tr[n - 1], tr[n]);
      StepStaysBelow(h, tr[n - 1], tr[n], p, g);
    }
  }

  /** So every later record of that page parks whenever its stream offers it, not only the first. */
  lemma BehindGapParks(h: History, streams: nat, tr: seq<State>, n: nat, i: nat, g: nat)
    requires Replays(h, streams, tr) && n < |tr| && StreamsOk(h, tr[n]) && Pending(tr[n], i)
    requires var r := Head(h, tr[n], i); Missing(h, r.page, g) && r.version > g
    ensures !Ready(h, tr[n], i)
  {
    hide Version, Playable, Missing, RunStep;
    StaysBelow(h, streams, tr, n, Head(h, tr[n], i).page, g);
  }

  /** And none of them is ever replayed. */
  lemma {:induction false} BehindGapIsNeverDone(h: History, streams: nat, tr: seq<State>, n: nat, j: nat, g: nat)
    requires Replays(h, streams, tr) && n < |tr| && StreamsOk(h, tr[n]) && j < |h.recs|
    requires Missing(h, h.recs[j].page, g) && h.recs[j].version > g
    ensures !Done(h, tr[n], j)
  {
    hide Version, Playable, Missing, RunStep, Count, StreamLog, Apply;
    if n > 0 {
      RunStreams(h, streams, tr, n - 1);
      BehindGapIsNeverDone(h, streams, tr, n - 1, j, g);
      StaysBelow(h, streams, tr, n - 1, h.recs[j].page, g);
      assert RunStep(h, tr[n - 1], tr[n]);
      NotDoneStep(h, tr[n - 1], tr[n], j);
    }
  }

  lemma NotDoneStep(h: History, s: State, s': State, j: nat)
    requires StreamsOk(h, s) && RunStep(h, s, s') && StreamsOk(h, s') && j < |h.recs| && !Done(h, s, j)
    requires h.recs[j].page in s.store && h.recs[j].version != Version(s.store[h.recs[j].page]) + 1
    ensures !Done(h, s', j)
  {
    hide Version, Playable, Apply;
    if i: nat :| Plays(h, s, s', i) { StreamAt(h, |h.recs|, j); }
  }

  lemma GapIsNeverComplete(h: History, streams: nat, tr: seq<State>, n: nat, j: nat, g: nat)
    requires Replays(h, streams, tr) && n < |tr| && j < |h.recs|
    requires Missing(h, h.recs[j].page, g) && h.recs[j].version > g
    ensures !AllReplayed(h, tr[n])
  {
    hide Version, Missing, RunStep, Playable;
    RunStreams(h, streams, tr, n);
    BehindGapIsNeverDone(h, streams, tr, n, j, g);
    StreamAt(h, |h.recs|, j);
  }

  /** The records of each page carry rising versions, above the one the page starts with. */
  ghost predicate Rising(h: History) {
    && KnownPages(h)
    && (forall j :: 0 <= j < |h.recs| ==> h.recs[j].version > Version(h.start[h.recs[j].page]))
    && (forall i, j :: 0 <= i < j < |h.recs| && h.recs[i].page == h.recs[j].page ==>
          h.recs[i].version < h.recs[j].version)
  }

  lemma {:induction false} FirstGap(h: History, n: nat) returns (j: nat)
    requires KnownPages(h) && n <= |h.recs| && exists i :: 0 <= i < n && !NextVersion(h, i)
    ensures j < n && !NextVersion(h, j) && forall i {:trigger NextVersion(h, i)} :: 0 <= i < j ==> NextVersion(h, i)
  {
    hide NextVersion;
    if i :| 0 <= i < n - 1 && !NextVersion(h, i) { j := FirstGap(h, n - 1); }
    else { j := n - 1; }
  }

  /** Before the first gap, the records of a page carry the versions from its start on. */
  lemma {:induction false} VersionsBefore(h: History, j: nat, i: nat)
    requires Rising(h) && i < j <= |h.recs| && forall x {:trigger NextVersion(h, x)} :: 0 <= x < j ==> NextVersion(h, x)
    ensures var p := h.recs[i].page; h.recs[i].version <= Version(h.start[p]) + |LogOfPage(h.recs, j, p)|
  {
    hide Version;
    assert NextVersion(h, i);
    PageLogPrefix(h.recs, i + 1, j, h.recs[i].page);
  }

  /** A rising history that is not gap-free misses a version below one of its records. */
  lemma GapIsMissing(h: History) returns (j: nat, g: nat)
    requires Rising(h) && |h.owner| == |h.recs| && !HistoryOk(h)
    ensures j < |h.recs| && Missing(h, h.recs[j].page, g) && h.recs[j].version > g
  {
    hide Version, Playable;
    assert exists i :: 0 <= i < |h.recs| && !NextVersion(h, i);
    j := FirstGap(h, |h.recs|);
    var p := h.recs[j].page;
    g := Version(h.start[p]) + |LogOfPage(h.recs, j, p)| + 1;
    if LogOfPage(h.recs, j, p) != [] {
      var i := LastBefore(h.recs, j, p);
      assert NextVersion(h, i);
    }
    forall i | 0 <= i < |h.recs| && h.recs[i].page == p ensures h.recs[i].version != g {
      if i < j { VersionsBefore(h, j, i); }
    }
  }

  lemma {:induction false} LastBefore(recs: seq<Redo>, n: nat, p: Addr) returns (i: nat)
    requires n <= |recs| && LogOfPage(recs, n, p) != []
    ensures i < n && recs[i].page == p && |LogOfPage(recs, n, p)| == |LogOfPage(recs, i, p)| + 1
  {
    if recs[n - 1].page == p { i := n - 1; } else { i := LastBefore(recs, n - 1, p); }
  }

  /** Exactly the gap-free ones among the rising histories can be replayed completely. */
  lemma CompleteIffGapFree(h: History, streams: nat)
    requires Rising(h) && Spread(h, streams)
    ensures HistoryOk(h) <==>
            exists tr: seq<State>, n :: Replays(h, streams, tr) && 0 <= n < |tr| && AllReplayed(h, tr[n])
  {
    hide Rising, RunStep, AllReplayed;
    if HistoryOk(h) {
      var tr := [Start(h, streams)];
      var us := CanComplete(h, streams, tr);
      assert AllReplayed(h, us[|us| - 1]);
    } else {
      var j, g := GapIsMissing(h);
      forall tr: seq<State>, n | Replays(h, streams, tr) && 0 <= n < |tr| ensures !AllReplayed(h, tr[n]) {
        GapIsNeverComplete(h, streams, tr, n, j, g);
      }
    }
  }
}
