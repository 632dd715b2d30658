/** The replayer of one logical region: it takes turns over the log streams of all compute nodes. The history that
    the compute nodes logged is ghost; the code sees only bytes. */
module Replayer {
  import opened Arrays
  import opened Endian
  import opened RedoPage
  import opened LogItems
  import opened LogStream
  import opened ReplayOrder
  import opened ReplayRuns

  function RecordIn(it: Item): (r: seq<Rec>)
    ensures |r| <= 1
  {
    match it case Record(c) => [c] case Close => []
  }

  /** The records among the items. */
  function Records(its: seq<Item>): (r: seq<Rec>)
    ensures |r| <= |its|
  {
    if its == [] then []
    else RecordIn(its[0]) + Records(its[1..])
  }

  lemma {:induction false} RecordsConcat(a: seq<Item>, b: seq<Item>)
    ensures Records(a + b) == Records(a) + Records(b)
  {
    if a == [] { assert a + b == b; }
    else {
      RecordsConcat(a[1..], b);
      assert (a + b)[1..] == a[1..] + b && (a + b)[0] == a[0];
      Assoc(RecordIn(a[0]), Records(a[1..]), Records(b));
    }
  }

  /** Offering the next record of a stream: applied when it is ready, parked when it is not. */
  lemma TakeIsReplay(h: History, s: State, c: nat)
    requires Consistent(h, s) && Pending(s, c) && ItemOk(Record(Head(h, s, c)))
    ensures Take(Record(Head(h, s, c)), s.store)
         == if Ready(h, s, c) then Took(Replay(h, s, c).store, 1) else Stop(s.store, Parked)
  {
    hide Consistent, StreamLog, Apply, Version, AllInPage, ApplyOps;
    HeadIsNew(h, s, c);
  }

  /** What counts as applied are the records among the items taken. */
  lemma {:induction false} AppliedRecords(its: seq<Item>, st: Store)
    requires AllOk(its)
    ensures var r := Play(its, st); r.applied == |Records(its[..r.count])|
    decreases |its|
  {
    hide ItemOk;
    if its != [] && Take(its[0], st).Took? {
      AppliedRecords(its[1..], Take(its[0], st).store);
      var n := Play(its, st).count;
      assert its[..n][1..] == its[1..][..n - 1];
    }
  }

  /** Play, one item at a time. */
  lemma PlayFirst(its: seq<Item>, st: Store)
    requires AllOk(its) && its != []
    ensures ItemOk(its[0]) && AllOk(its[1..]) && Records(its) == RecordIn(its[0]) + Records(its[1..])
    ensures var r, k := Play(its, st), Take(its[0], st);
            if k.Stop? then r.count == 0 && r.store == k.store && r.outcome == k.why
            else
              var q := Play(its[1..], k.store);
              && r.count == q.count + 1 && r.store == q.store && r.outcome == q.outcome
              && |Records(its[..r.count])| == |RecordIn(its[0])| + |Records(its[1..][..q.count])|
  {
    hide Take, ItemOk, RecordIn;
    var r := Play(its, st);
    if r.count > 0 { assert its[..r.count][1..] == its[1..][..r.count - 1]; }
  }

  /** On a consistent state, replaying the unreplayed items of a stream is one turn of the ordering protocol: no
      record is stale and none fails. */
  lemma {:induction false} PlayIsTurn(h: History, s: State, c: nat, its: seq<Item>)
    requires Consistent(h, s) && c < |s.done| && AllOk(its)
    requires Records(its) == StreamLog(h, |h.recs|, c)[s.done[c]..s.delivered[c]]
    ensures var r, t := Play(its, s.store), Turn(h, s, c, s.delivered[c]);
            && r.store == t.store && |Records(its[..r.count])| == t.done[c] - s.done[c]
            && (r.outcome == Drained || r.outcome == Parked)
            && (its != [] && (its[0].Close? || Ready(h, s, c)) ==> r.count > 0)
            && (r.count == 0 ==> t == s)
    decreases |its|
  {
    hide StreamLog, HistoryOk, PageReplayed, DoneUpToVersion, Playable, Ready, Take, ItemOk, Count, Version, Apply;
    hide AllOk, Play, Consistent, Records;
    ConsistentStreams(h, s);
    if its == [] { NothingToPlay(s.store); }
    else {
      PlayFirst(its, s.store);
      match its[0] {
        case Close =>
          PlayIsTurn(h, s, c, its[1..]);
        case Record(rec) =>
          assert Pending(s, c) && Head(h, s, c) == rec;
          TakeIsReplay(h, s, c);
          if Ready(h, s, c) {
            ReplayKeepsConsistent(h, s, c);
            ConsistentStreams(h, Replay(h, s, c));
            PlayIsTurn(h, Replay(h, s, c), c, its[1..]);
          }
      }
    }
  }

  lemma NothingToPlay(st: Store)
    ensures AllOk([]) && Play([], st) == Played(0, 0, st, Drained) && Records([]) == []
  {}

  lemma ConsistentStreams(h: History, s: State)
    requires Consistent(h, s)
    ensures StreamsOk(h, s)
  {}

  /** Stream st holds the first delivered records of stream c of the history, and the first done are replayed. */
  ghost predicate Holds(h: History, c: nat, delivered: nat, done: nat, st: Stream)
    reads st
  {
    && |h.recs| == |h.owner| && delivered <= Count(h.owner, |h.owner|, c)
    && st.Valid()
    && Records(st.All()) == StreamLog(h, |h.recs|, c)[..delivered]
    && |Records(st.Past())| == done
  }

  ghost predicate Matches(h: History, s: State, c: nat, st: Stream)
    requires c < |s.done| == |s.delivered|
    reads st
  {
    Holds(h, c, s.delivered[c], s.done[c], st)
  }

  /** The stream can do nothing: it has no unreplayed item, or its next record is not ready. */
  ghost predicate Stuck(h: History, s: State, c: nat, st: Stream)
    requires StreamsOk(h, s) && c < |s.done|
    reads st
  {
    st.Valid() && (|st.Past()| < |st.All()| ==> st.All()[|st.Past()|].Record? && !(Pending(s, c) && Ready(h, s, c)))
  }

  /** What is left of a stream in items is what is left of it in the history. */
  lemma LeftToReplay(h: History, s: State, c: nat, st: Stream)
    requires StreamsOk(h, s) && c < |s.done| && Matches(h, s, c, st)
    ensures Records(Items(st.chunks)[st.pos..]) == StreamLog(h, |h.recs|, c)[s.done[c]..s.delivered[c]]
    ensures AllOk(Items(st.chunks)) && AllOk(Items(st.chunks)[st.pos..])
    ensures st.All() == st.Past() + Items(st.chunks)[st.pos..]
    ensures st.replayed <= st.received
    ensures st.replayed == st.received ==> st.pos == |Items(st.chunks)|
  {
    hide StreamLog, Records, Flat, Items, Count;
    var live := Items(st.chunks);
    st.Accounting();
    FlatOrder(live, st.pos, |live|);
    assert live[..|live|] == live;
    assert st.All() == st.Past() + live[st.pos..];
    RecordsConcat(st.Past(), live[st.pos..]);
    SliceOk(live, st.pos, |live|);
  }

  lemma Advance(past: seq<Item>, its: seq<Item>, count: nat)
    requires count <= |its|
    ensures |Records(past + its[..count])| == |Records(past)| + |Records(its[..count])|
    ensures |Flat(past + its[..count])| >= |Flat(past)|
    ensures count > 0 ==> |Flat(past + its[..count])| > |Flat(past)|
  {
    hide Records, ItemBytes;
    RecordsConcat(past, its[..count]);
    FlatConcat(past, its[..count]);
  }

  /** The turn of one stream in a region pass. */
  method TakeTurn(st: Stream, rep: Replica, ghost h: History, ghost s: State, ghost c: nat) returns (ghost t: State)
    requires Consistent(h, s) && c < |s.done| && Matches(h, s, c, st) && rep.Valid() && rep.Value() == s.store
    modifies st, rep.frames.Values
    ensures t == Turn(h, s, c, s.delivered[c]) && Consistent(h, t) && Matches(h, t, c, st) && rep.Value() == t.store
    ensures st.All() == old(st.All()) && st.received == old(st.received) && st.replayed >= old(st.replayed)
    ensures st.lost == old(st.lost) && st.flying == old(st.flying)
    ensures st.replayed == old(st.replayed) ==> t == s && Stuck(h, s, c, st)
  {
    hide StreamLog, Records, Flat, Items, Joined, Count, Play, ChunksOk, AllOk, Ready;
    hide HistoryOk, PageReplayed, DoneUpToVersion, Turn;
    t := Turn(h, s, c, s.delivered[c]);
    TurnKeepsConsistent(h, s, c, s.delivered[c]);
    LeftToReplay(h, s, c, st);
    st.Accounting();
    ghost var live, p, past := Items(st.chunks), st.pos, st.Past();
    ghost var its := live[p..];
    PlayIsTurn(h, s, c, its);
    ghost var r := Play(its, s.store);
    Advance(past, its, r.count);
    assert live[..|live|] == live && live[p..|live|] == its && live[..p + r.count] == live[..p] + its[..r.count];
    if st.received > st.replayed {
      var _, _ := st.Replay(rep, st.received - st.replayed, |live|);
      assert st.Past() == past + its[..r.count];
      st.Accounting();
    }
  }

  /* ---- The region ---- */

  ghost predicate Distinct(streams: seq<Stream?>) {
    forall i, j :: 0 <= i < j < |streams| && streams[i] != null ==> streams[i] != streams[j]
  }

  ghost predicate StreamMatches(h: History, s: State, streams: seq<Stream?>, c: nat)
    requires StreamsOk(h, s) && c < |streams| == |s.done|
    reads streams
  {
    if streams[c] == null then s.delivered[c] == 0 else Matches(h, s, c, streams[c])
  }

  /** The streams, one per compute node (null before its first segment request), and the pages stand at s. */
  ghost predicate Region(h: History, s: State, streams: seq<Stream?>, rep: Replica)
    reads streams, rep.frames.Values
  {
    && Consistent(h, s) && |streams| == |s.done| && Distinct(streams) && rep.Valid() && rep.Value() == s.store
    && forall c {:trigger StreamMatches(h, s, streams, c)} :: 0 <= c < |streams| ==> StreamMatches(h, s, streams, c)
  }

  ghost predicate StuckAt(h: History, s: State, streams: seq<Stream?>, c: nat)
    requires StreamsOk(h, s) && c < |streams| == |s.done|
    reads streams
  {
    streams[c] != null ==> Stuck(h, s, c, streams[c])
  }

  ghost predicate AllStuck(h: History, s: State, streams: seq<Stream?>, n: nat)
    requires StreamsOk(h, s) && n <= |streams| == |s.done|
    reads streams
  {
    forall c {:trigger StuckAt(h, s, streams, c)} :: 0 <= c < n ==> StuckAt(h, s, streams, c)
  }

  /** Before the first request: no stream, and the pages the history starts from. */
  lemma RegionStarts(h: History, streams: seq<Stream?>, rep: Replica)
    requires HistoryOk(h) && (forall j :: 0 <= j < |h.owner| ==> h.owner[j] < |streams|)
    requires (forall c :: 0 <= c < |streams| ==> streams[c] == null) && rep.Valid() && rep.Value() == h.start
    ensures Region(h, Start(h, |streams|), streams, rep)
  {
    hide HistoryOk, PageReplayed, DoneUpToVersion, Holds;
    StartIsConsistent(h, |streams|);
  }

  /** A write is stored when its stream has an accepted segment. */
  predicate Stores(st: Stream?)
    reads st
  {
    st != null && st.segments != []
  }

  /** The items are the next ones that the compute node of stream c logged. */
  ghost predicate AreNext(h: History, s: State, c: nat, st: Stream, more: seq<Item>)
    requires StreamsOk(h, s) && c < |s.done|
    reads st
  {
    && |st.chunks| > 0 && CloseIsLast(st.chunks[|st.chunks| - 1] + more)
    && s.delivered[c] + |Records(more)| <= Count(h.owner, |h.owner|, c)
    && Records(more) == StreamLog(h, |h.recs|, c)[s.delivered[c]..s.delivered[c] + |Records(more)|]
  }

  /** A write of whole items completes. It delivers them when its stream has a segment; otherwise its bytes are counted
      and lost, or ignored when the stream was never requested. */
  method Deliver(streams: seq<Stream?>, rep: Replica, c: nat, data: Bytes, ghost more: seq<Item>,
                 ghost h: History, ghost s: State) returns (ghost t: State)
    requires Region(h, s, streams, rep) && c < |streams| && data == Flat(more) && AllOk(more)
    requires Stores(streams[c]) ==> AreNext(h, s, c, streams[c], more)
    modifies if streams[c] != null then {streams[c]} else {}
    ensures Region(h, t, streams, rep)
    ensures var n := if old(Stores(streams[c])) then |Records(more)| else 0;
            t == s.(delivered := s.delivered[c := s.delivered[c] + n])
    ensures streams[c] != null ==>
              && streams[c].received == old(streams[c].received) + |data| && streams[c].flying == old(streams[c].flying)
              && streams[c].lost == old(streams[c].lost) + (if old(Stores(streams[c])) then 0 else |data|)
  {
    hide HistoryOk, PageReplayed, DoneUpToVersion, Records, StreamLog, Flat, Items, Joined, ChunksOk, Count;
    t := s;
    if streams[c] != null {
      assert StreamMatches(h, s, streams, c);
      ghost var stored := Stores(streams[c]);
      if stored {
        t := s.(delivered := s.delivered[c := s.delivered[c] + |Records(more)|]);
        DeliveryKeepsConsistent(h, s, c, t.delivered[c]);
        RecordsConcat(streams[c].All(), more);
      }
      streams[c].CountReceived(|data|);
      streams[c].ExtendLast(data, more);
      assert Matches(h, t, c, streams[c]);
      hide Holds;
      forall j {:trigger StreamMatches(h, t, streams, j)} | 0 <= j < |streams| ensures StreamMatches(h, t, streams, j) {
        assert old(StreamMatches(h, s, streams, j));
      }
    }
  }

  /** A turn inside the region. */
  method RegionTurn(streams: seq<Stream?>, rep: Replica, ghost h: History, ghost s: State, c: nat)
    returns (ghost t: State)
    requires Region(h, s, streams, rep) && c < |streams| && streams[c] != null
    modifies streams[c], rep.frames.Values
    ensures Region(h, t, streams, rep) && t.delivered == s.delivered && Reaches(h, s, t)
    ensures StreamsOk(h, s) && StreamsOk(h, t) && |t.done| == |s.done| && t.done == s.done[c := t.done[c]]
    ensures Pending(s, c) && Ready(h, s, c) ==>
              t.done[c] > s.done[c] && streams[c].replayed > old(streams[c].replayed)
    ensures Pending(t, c) ==> !Ready(h, t, c)
    ensures var st := streams[c];
            && st.All() == old(st.All()) && st.received == old(st.received) && st.replayed >= old(st.replayed)
            && st.lost == old(st.lost) && st.flying == old(st.flying)
            && (st.replayed == old(st.replayed) ==> t == s && Matches(h, s, c, st) && Stuck(h, s, c, st))
  {
    hide Holds, Stuck, HistoryOk, PageReplayed, DoneUpToVersion, Turn, Reaches;
    assert StreamMatches(h, s, streams, c);
    TurnReaches(h, s, c, s.delivered[c]);
    label before:
    t := TakeTurn(streams[c], rep, h, s, c);
    forall j {:trigger StreamMatches(h, t, streams, j)} | 0 <= j < |streams| ensures StreamMatches(h, t, streams, j) {
      assert old(StreamMatches(h, s, streams, j));
    }
  }

  lemma RegionShape(h: History, s: State, streams: seq<Stream?>, rep: Replica)
    requires Region(h, s, streams, rep)
    ensures StreamsOk(h, s) && |streams| == |s.done| && Distinct(streams) && rep.Valid() && rep.Value() == s.store
  {
    hide HistoryOk, PageReplayed, DoneUpToVersion, StreamMatches;
  }

  /** One pass of ReplayerThreadFunc over the streams of its region. */
  method Pass(streams: seq<Stream?>, rep: Replica, ghost h: History, ghost s: State)
    returns (progress: bool, ghost t: State)
    requires Region(h, s, streams, rep)
    modifies streams, rep.frames.Values
    ensures Region(h, t, streams, rep) && t.delivered == s.delivered && Reaches(h, s, t)
    ensures forall c :: 0 <= c < |streams| ==> Later(streams[c])
    ensures progress <==> exists c :: 0 <= c < |streams| && Moved(streams[c])
    ensures !progress ==> t == s && AllStuck(h, s, streams, |streams|)
  {
    hide Stuck, Region, Reaches, Items, StreamsOk, Stream.Valid, Stream.All;
    progress, t := false, s;
    StaysThere(h, s);
    RegionShape(h, s, streams, rep);
    for c := 0 to |streams|
      invariant Region(h, t, streams, rep) && t.delivered == s.delivered && Reaches(h, s, t)
      invariant forall j :: 0 <= j < |streams| ==> Later(streams[j]) && (j >= c ==> !Moved(streams[j]))
      invariant progress <==> exists j :: 0 <= j < c && Moved(streams[j])
      invariant !progress ==> t == s && AllStuck(h, s, streams, c)
    {
      var st := streams[c];
      if st != null {
        var before := st.replayed;
        ghost var u := t;
        label turn:
        t := RegionTurn(streams, rep, h, t, c);
        ReachesFurther(h, s, u, t);
        if st.replayed > before { progress := true; }
        else if !progress {
          forall j {:trigger StuckAt(h, s, streams, j)} | 0 <= j < c + 1 ensures StuckAt(h, s, streams, j) {
            if j < c { assert old@turn(StuckAt(h, s, streams, j)); }
          }
        }
      }
    }
  }

  /** The stream kept its items and its counts; at most the position moved on. */
  twostate predicate Later(st: Stream?)
    reads st
  {
    st != null ==>
      && st.All() == old(st.All()) && st.received == old(st.received) && st.replayed >= old(st.replayed)
      && st.lost == old(st.lost) && st.flying == old(st.flying)
  }

  twostate predicate Moved(st: Stream?)
    reads st
  {
    st != null && st.replayed > old(st.replayed)
  }

  /** A stream with an unreplayed record has one in the history. */
  lemma UnreplayedIsPending(h: History, s: State, c: nat, st: Stream)
    requires StreamsOk(h, s) && c < |s.done| && Matches(h, s, c, st)
    ensures st.Valid() && |st.Past()| <= |st.All()|
    ensures |st.Past()| == |st.All()| ==> s.done[c] == s.delivered[c]
    ensures |st.Past()| == |st.All()| <==> st.replayed + st.flying + st.lost == st.received
    ensures |st.Past()| < |st.All()| && st.All()[|st.Past()|].Record? ==> Pending(s, c)
  {
    hide StreamLog, Items, Count;
    LeftToReplay(h, s, c, st);
    st.Accounting();
    var its := Items(st.chunks)[st.pos..];
    Advance(st.Past(), its, |its|);
    assert its[..|its|] == its;
    assert its == [] ==> st.All() == st.Past();
  }

  /** A pass that finds unreplayed items and moves no stream shows that a record is still missing: an earlier record
      of a delivered record's page. */
  lemma NoProgressMeansUndelivered(h: History, s: State, streams: seq<Stream?>, rep: Replica, c: nat)
    returns (x: nat, y: nat)
    requires Region(h, s, streams, rep) && AllStuck(h, s, streams, |streams|)
    requires c < |streams| && streams[c] != null
    requires streams[c].replayed + streams[c].flying + streams[c].lost < streams[c].received
    ensures x < y < |h.recs| && h.recs[x].page == h.recs[y].page && Delivered(h, s, y) && !Delivered(h, s, x)
  {
    hide HistoryOk, PageReplayed, DoneUpToVersion, Holds, Ready;
    assert StreamMatches(h, s, streams, c) && StuckAt(h, s, streams, c);
    UnreplayedIsPending(h, s, c, streams[c]);
    forall k: nat | Pending(s, k) ensures !Ready(h, s, k) {
      assert StreamMatches(h, s, streams, k) && StuckAt(h, s, streams, k);
      UnreplayedIsPending(h, s, k, streams[k]);
    }
    x, y := StuckMeansUndelivered(h, s, c);
  }

  /* ---- Passes until everything is replayed ---- */

  ghost function Left(st: Stream?): nat
    reads st
  {
    if st == null || st.received < st.replayed then 0 else st.received - st.replayed
  }

  ghost function Lefts(streams: seq<Stream?>): (r: seq<nat>)
    reads streams
    ensures |r| == |streams| && forall c :: 0 <= c < |r| ==> r[c] == Left(streams[c])
  {
    seq(|streams|, c requires 0 <= c < |streams| reads streams => Left(streams[c]))
  }

  ghost function Sum(a: seq<nat>): nat {
    if a == [] then 0 else a[0] + Sum(a[1..])
  }

  lemma {:induction false} SumLess(a: seq<nat>, b: seq<nat>)
    requires |a| == |b| && forall i :: 0 <= i < |a| ==> a[i] <= b[i]
    ensures Sum(a) <= Sum(b)
    ensures (exists i :: 0 <= i < |a| && a[i] < b[i]) ==> Sum(a) < Sum(b)
  {
    if a != [] {
      SumLess(a[1..], b[1..]);
      if i :| 0 < i < |a| && a[i] < b[i] { assert a[1..][i - 1] < b[1..][i - 1]; }
    }
  }

  ghost predicate Replayed(streams: seq<Stream?>)
    reads streams
  {
    forall c :: 0 <= c < |streams| && streams[c] != null ==> streams[c].received <= streams[c].replayed
  }

  /** The condition WaitForAllLogsReplayed waits for. */
  method CaughtUp(streams: seq<Stream?>) returns (all: bool)
    ensures all <==> Replayed(streams)
  {
    for i := 0 to |streams|
      invariant forall c :: 0 <= c < i && streams[c] != null ==> streams[c].received <= streams[c].replayed
    {
      if streams[i] != null && streams[i].received > streams[i].replayed { return false; }
    }
    return true;
  }

  /** Nothing of any stream is in flight or lost. */
  ghost predicate Settled(streams: seq<Stream?>)
    reads streams
  {
    forall c :: 0 <= c < |streams| && streams[c] != null ==> streams[c].lost == 0 && streams[c].flying == 0
  }

  lemma CaughtUpIsDone(h: History, s: State, streams: seq<Stream?>, rep: Replica)
    requires Region(h, s, streams, rep) && Settled(streams) && Replayed(streams)
    ensures s.done == s.delivered
    ensures forall c :: 0 <= c < |streams| && streams[c] != null ==> streams[c].replayed == streams[c].received
  {
    hide HistoryOk, PageReplayed, DoneUpToVersion, Holds;
    forall c | 0 <= c < |streams| && streams[c] != null ensures streams[c].replayed == streams[c].received {
      assert StreamMatches(h, s, streams, c);
      LeftToReplay(h, s, c, streams[c]);
    }
    forall c | 0 <= c < |s.done| ensures s.done[c] == s.delivered[c] {
      assert StreamMatches(h, s, streams, c);
      if streams[c] != null { LeftToReplay(h, s, c, streams[c]); UnreplayedIsPending(h, s, c, streams[c]); }
    }
  }

  lemma StillClosed(h: History, s: State, t: State)
    requires StreamsOk(h, s) && StreamsOk(h, t) && t.delivered == s.delivered && Closed(h, s)
    ensures Closed(h, t)
  {
    forall i: nat, j: nat {:trigger Delivered(h, t, i), Delivered(h, t, j)}
      | i < j < |h.recs| && h.recs[i].page == h.recs[j].page && Delivered(h, t, j) ensures Delivered(h, t, i) {
      assert Delivered(h, s, j) && Delivered(h, s, i);
    }
  }

  lemma SumLefts(h: History, s: State, streams: seq<Stream?>, rep: Replica, k: nat, before: seq<nat>)
    requires Region(h, s, streams, rep) && k < |streams| == |before| && streams[k] != null
    requires forall c :: 0 <= c < |streams| ==> Left(streams[c]) <= before[c]
    requires streams[k].received < streams[k].replayed || Left(streams[k]) < before[k]
    ensures Sum(Lefts(streams)) < Sum(before)
  {
    hide HistoryOk, PageReplayed, DoneUpToVersion, Holds;
    assert StreamMatches(h, s, streams, k);
    LeftToReplay(h, s, k, streams[k]);
    assert Lefts(streams)[k] < before[k];
    SumLess(Lefts(streams), before);
  }

  /** Progress: with unreplayed bytes and no predecessor missing, a pass leaves fewer unreplayed bytes. */
  method ProgressPass(streams: seq<Stream?>, rep: Replica, ghost h: History, ghost s: State)
    returns (progress: bool, ghost t: State)
    requires Region(h, s, streams, rep) && Closed(h, s) && Settled(streams) && !Replayed(streams)
    modifies streams, rep.frames.Values
    ensures Region(h, t, streams, rep) && t.delivered == s.delivered && Closed(h, t) && Settled(streams) &&
            Reaches(h, s, t)
    ensures progress && Sum(Lefts(streams)) < old(Sum(Lefts(streams)))
  {
    hide StreamMatches, Distinct, HistoryOk, PageReplayed, DoneUpToVersion, Closed, Sum, AllStuck, Reaches;
    ghost var before := Lefts(streams);
    progress, t := Pass(streams, rep, h, s);
    StillClosed(h, s, t);
    if !progress {
      ghost var c :| 0 <= c < |streams| && streams[c] != null && old(streams[c].received > streams[c].replayed);
      assert !Moved(streams[c]) && Later(streams[c]);
      ghost var x, y := NoProgressMeansUndelivered(h, s, streams, rep, c);
      ClosedMeans(h, s, x, y);
      assert false;
    }
    ghost var k :| 0 <= k < |streams| && Moved(streams[k]);
    assert Later(streams[k]);
    SumLefts(h, t, streams, rep, k, before);
  }

  lemma ClosedMeans(h: History, s: State, x: nat, y: nat)
    requires StreamsOk(h, s) && Closed(h, s)
    requires x < y < |h.recs| && h.recs[x].page == h.recs[y].page && Delivered(h, s, y)
    ensures Delivered(h, s, x)
  {
  }

  ghost predicate WholeHistory(h: History, s: State)
    requires StreamsOk(h, s)
  {
    forall i :: 0 <= i < |s.delivered| ==> s.delivered[i] == Count(h.owner, |h.owner|, i)
  }

  /** Passes are repeated until all streams are caught up. When every record delivered has all its predecessors
      delivered, this ends; and when the whole history is delivered, the pages are then those of the history
      applied in order, whatever the streams and the turns were. */
  method ReplayAll(streams: seq<Stream?>, rep: Replica, ghost h: History, ghost s: State) returns (ghost t: State)
    requires Region(h, s, streams, rep) && Closed(h, s) && Settled(streams)
    modifies streams, rep.frames.Values
    ensures Region(h, t, streams, rep) && t.delivered == s.delivered == t.done && Reaches(h, s, t) && Settled(streams)
    ensures forall c :: 0 <= c < |streams| && streams[c] != null ==> streams[c].replayed == streams[c].received
    ensures WholeHistory(h, s) ==> rep.Value() == InOrder(h, |h.recs|)
  {
    hide StreamMatches, Distinct, HistoryOk, PageReplayed, DoneUpToVersion, Closed, Sum, Lefts, Replayed, Settled,
         Reaches;
    t := s;
    StaysThere(h, s);
    var all := CaughtUp(streams);
    while !all
      invariant Region(h, t, streams, rep) && t.delivered == s.delivered && Settled(streams) && Closed(h, t) &&
                Reaches(h, s, t)
      invariant all <==> Replayed(streams)
      decreases Sum(Lefts(streams))
    {
      var progress;
      ghost var u := t;
      progress, t := ProgressPass(streams, rep, h, t);
      ReachesFurther(h, s, u, t);
      all := CaughtUp(streams);
    }
    CaughtUpIsDone(h, t, streams, rep);
    if WholeHistory(h, s) { CompleteIsInOrder(h, t); }
  }
}
