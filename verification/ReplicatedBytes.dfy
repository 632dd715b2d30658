/** The whole way: from a tree changed by many threads, over the bytes of its log in the segments of a memory node, to
    the frames of the replica. */
module ReplicatedBytes {
  import opened ReplayOrder
  import opened ReplayRuns
  import opened Replayer
  import opened LogicalRegion
  import opened PageBytes
  import opened PartialLog
  import opened ReplicatedTree

  /** A region that was served in any order, has received the whole log of a fully logged run of the tree, and has
      replayed what it received, holds in its frames every page as the log says it; and so the tree itself exactly when
      every row is as it was last logged. */
  lemma FramesMirrorTree(m: Machine, l: Layout, y: Story)
    requires m.Valid() && LogOfRun(l, y, m.h) && AllStepsLogged(y.made, y.logged)
    requires StreamsOk(m.h, m.s) && WholeHistory(m.h, m.s) && Replayed(m.streams) && Settled(m.streams)
    ensures Mirrors(l, m.rep.Value(), SaidAtEnd(y))
    ensures Mirrors(l, m.rep.Value(), Ends(y).pages) <==> AsLogged(Ends(y), RowsAtEnd(y))
  {
    hide AllStepsLogged, Mirrors, Replays, WholeHistory, Replayed, Settled, AllReplayed, Region, Reaches, StreamsOk,
         StoryStep, IsKeptLog, StartsWith, AsLogged, RowsAtEnd;
    m.BytesConverge();
    var rt := m.CallsAreRun();
    EveryReplayMirrors(l, y, m.h, |m.streams|, rt, |rt| - 1);
  }

  /** And it gets there: once the whole log has arrived, passes over the streams end with all that in the frames. */
  method CatchUpWithTree(m: Machine, ghost l: Layout, ghost y: Story)
    requires m.Valid() && LogOfRun(l, y, m.h) && AllStepsLogged(y.made, y.logged)
    requires StreamsOk(m.h, m.s) && WholeHistory(m.h, m.s) && Settled(m.streams)
    modifies m, m.streams, m.rep.frames.Values
    ensures m.Valid() && m.streams == old(m.streams) && Mirrors(l, m.rep.Value(), SaidAtEnd(y))
    ensures Mirrors(l, m.rep.Value(), Ends(y).pages) <==> AsLogged(Ends(y), RowsAtEnd(y))
  {
    hide AllStepsLogged, Mirrors, Reaches, Start, Replayed, Settled, Consistent, StreamMatches, Closed, Count,
         StoryStep, IsKeptLog, StartsWith, AsLogged, RowsAtEnd;
    WholeIsClosed(m.h, m.s);
    m.CatchUp();
    RegionShape(m.h, m.s, m.streams, m.rep);
    FramesMirrorTree(m, l, y);
  }

  lemma WholeIsClosed(h: History, s: State)
    requires StreamsOk(h, s) && WholeHistory(h, s)
    ensures Closed(h, s)
  {
    hide Count;
    assert s.delivered == Counts(h, |s.delivered|);
    AllDelivered(h, |s.delivered|, s);
  }
}
