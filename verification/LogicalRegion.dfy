/** One logical region of a memory node as a running machine: segment requests, completed writes and replay turns may
    come in any order. Whatever the calls were, the bytes stand at a state of a run of the ordering protocol. */
module LogicalRegion {
  import opened Endian
  import opened LogItems
  import opened LogStream
  import opened ReplayOrder
  import opened ReplayRuns
  import opened Replayer

  class Machine {
    var streams: seq<Stream?>
    const rep: Replica
    ghost const h: History
    ghost var s: State

    ghost predicate Valid()
      reads this, streams, rep.frames.Values
    {
      && Region(h, s, streams, rep) && Reaches(h, Start(h, |streams|), s) && Spread(h, |streams|)
    }

    /** Nothing requested, nothing arrived. */
    constructor (nodes: nat, rep: Replica, ghost h: History)
      requires HistoryOk(h) && Spread(h, nodes) && rep.Valid() && rep.Value() == h.start
      ensures Valid() && this.rep == rep && this.h == h && |streams| == nodes
      ensures s == Start(h, nodes) && forall c :: 0 <= c < nodes ==> streams[c] == null
    {
      this.streams, this.rep, this.h, this.s := seq(nodes, _ => null), rep, h, Start(h, nodes);
      new;
      RegionStarts(h, streams, rep);
      StaysThere(h, s);
    }

    /** A segment request for the stream of compute node c. */
    method RequestSegment(c: nat, addr: nat, size: nat, ptr: nat) returns (accepted: bool)
      requires Valid() && c < |streams|
      modifies this, streams
      ensures Valid() && s == old(s) && accepted == (ptr != 0)
      ensures streams[c] != null && (old(streams[c]) != null ==> streams == old(streams))
      ensures streams == old(streams)[c := streams[c]] && (old(streams[c]) == null ==> fresh(streams[c]))
      ensures var was := if old(streams[c]) == null then [] else old(streams[c].segments);
              streams[c].segments == was + (if accepted then [Segment(addr, size, [], ptr)] else [])
    {
      hide Consistent, Reaches, Records, StreamLog, Flat, Items, Joined, ChunksOk, Count, Spread;
      RegionShape(h, s, streams, rep);
      assert StreamMatches(h, s, streams, c);
      if streams[c] == null {
        var st := new Stream();
        assert Records([]) == StreamLog(h, |h.recs|, c)[..0] by { NothingToPlay(h.start); }
        streams := streams[c := st];
        assert Matches(h, s, c, st);
      }
      accepted := streams[c].AddSegment(addr, size, ptr);
      assert Matches(h, s, c, streams[c]);
      hide Holds;
      forall j {:trigger StreamMatches(h, s, streams, j)} | 0 <= j < |streams| ensures StreamMatches(h, s, streams, j) {
        assert old(StreamMatches(h, s, streams, j));
      }
    }

    /** A completed write of whole items to the stream of compute node c. */
    method WriteCompleted(c: nat, data: Bytes, ghost more: seq<Item>)
      requires Valid() && c < |streams| && data == Flat(more) && AllOk(more)
      requires StreamsOk(h, s) && |s.done| == |streams| && (Stores(streams[c]) ==> AreNext(h, s, c, streams[c], more))
      modifies this, streams
      ensures Valid() && streams == old(streams)
      ensures var n := if old(Stores(streams[c])) then |Records(more)| else 0;
              s == old(s).(delivered := old(s).delivered[c := old(s).delivered[c] + n])
      ensures streams[c] != null ==>
                && streams[c].received == old(streams[c].received) + |data|
                && streams[c].flying == old(streams[c].flying)
                && streams[c].lost == old(streams[c].lost) + (if old(Stores(streams[c])) then 0 else |data|)
    {
      hide Region, Consistent, Reaches, Records, StreamLog, Flat, Items, Joined, Spread, RunStep, Start;
      ghost var t := Deliver(streams, rep, c, data, more, h, s);
      CanDeliver(h, s, c, t.delivered[c]);
      StepReaches(h, s, t);
      ReachesFurther(h, Start(h, |streams|), s, t);
      s := t;
    }

    /** The region's thread gives the stream of compute node c its turn: a ready record is replayed, and none is left
        ready at the head of the stream. The other streams stand still. */
    method GiveTurn(c: nat)
      requires Valid() && c < |streams| && streams[c] != null
      modifies this, streams[c], rep.frames.Values
      ensures Valid() && streams == old(streams) && s.delivered == old(s.delivered)
      ensures StreamsOk(h, old(s)) && StreamsOk(h, s) && c < |s.done| == |old(s).done|
      ensures s.done == old(s).done[c := s.done[c]]
      ensures Pending(old(s), c) && Ready(h, old(s), c) ==>
                s.done[c] > old(s).done[c] && streams[c].replayed > old(streams[c].replayed)
      ensures Pending(s, c) ==> !Ready(h, s, c)
    {
      hide Region, Consistent, Reaches, Spread, Start, Ready, StreamsOk;
      RegionShape(h, s, streams, rep);
      ghost var t := RegionTurn(streams, rep, h, s, c);
      ReachesFurther(h, Start(h, |streams|), s, t);
      s := t;
    }

    /** Passes over all streams until everything received is replayed. */
    method CatchUp()
      requires Valid() && StreamsOk(h, s) && Closed(h, s) && Settled(streams)
      modifies this, streams, rep.frames.Values
      ensures Valid() && streams == old(streams) && s.delivered == old(s.delivered) == s.done
      ensures Replayed(streams) && Settled(streams)
    {
      hide Region, Consistent, Reaches, Spread, Start, Closed;
      RegionShape(h, s, streams, rep);
      ghost var t := ReplayAll(streams, rep, h, s);
      ReachesFurther(h, Start(h, |streams|), s, t);
      s := t;
    }

    /** The calls so far are a run of the ordering protocol that ends where the machine stands. */
    lemma CallsAreRun() returns (rt: seq<State>)
      requires Valid()
      ensures |rt| > 0 && Replays(h, |streams|, rt) && rt[|rt| - 1] == s && rep.Valid() && rep.Value() == s.store
    {
      hide Region, RunStep, Start, Spread;
      RegionShape(h, s, streams, rep);
      rt :| Steps(h, rt) && rt[0] == Start(h, |streams|) && rt[|rt| - 1] == s;
    }

    /** Whatever calls came before, once the whole history has arrived and every stream has replayed what it received,
        the frames hold exactly the history applied in order. */
    lemma BytesConverge()
      requires Valid() && StreamsOk(h, s) && WholeHistory(h, s) && Replayed(streams) && Settled(streams)
      ensures AllReplayed(h, s) && KnownPages(h) && rep.Value() == InOrder(h, |h.recs|)
    {
      hide Reaches, PageReplayed, DoneUpToVersion, StreamMatches, Replayed, Settled;
      CaughtUpIsDone(h, s, streams, rep);
      CompleteIsInOrder(h, s);
    }
  }
}
