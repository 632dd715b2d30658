/** The table of log streams of a memory node, indexed by compute node and logical region. */
module StreamTable {
  import opened Endian
  import opened LogItems
  import opened LogStream

  const MAX_COMPUTE_NODES: nat := 32
  const MAX_LOGICAL_REGIONS: nat := 32
  const MAX_STREAMS: nat := MAX_COMPUTE_NODES * MAX_LOGICAL_REGIONS

  function StreamIndex(compute: nat, region: nat): nat {
    compute * MAX_LOGICAL_REGIONS + region
  }

  /** Every one of the 32 compute nodes has a slot for every one of the 32 logical regions, and there are no others. */
  lemma SlotForAll(compute: nat, region: nat)
    requires region < 32
    ensures StreamIndex(compute, region) < MAX_STREAMS <==> compute < 32
    ensures StreamIndex(compute, region) == 32 * compute + region && MAX_STREAMS == 1024
  {}

  /** Streams of regions below the maximum do not share a slot; every other accepted region shares its slot with
      such a stream of another compute node. */
  lemma SlotIsOwn(compute: nat, region: nat)
    requires StreamIndex(compute, region) < MAX_STREAMS
    ensures region < 32 <==>
            forall c: nat, r: nat {:trigger StreamIndex(c, r)} ::
              r < 32 && StreamIndex(c, r) == StreamIndex(compute, region) ==>
                c == compute && r == region
  {
    if region >= MAX_LOGICAL_REGIONS {
      var c, r := compute + region / MAX_LOGICAL_REGIONS, region % MAX_LOGICAL_REGIONS;
      assert StreamIndex(c, r) == StreamIndex(compute, region);
    }
  }

  class Table {
    const slots: array<Stream?>

    constructor ()
      ensures Valid() && fresh(slots) && forall i :: 0 <= i < MAX_STREAMS ==> slots[i] == null
    {
      slots := new Stream?[MAX_STREAMS](i => null);
    }

    ghost predicate Valid()
      reads slots, slots[..]
    {
      && slots.Length == MAX_STREAMS
      && (forall i :: 0 <= i < MAX_STREAMS && slots[i] != null ==> slots[i].Valid())
      && (forall i, j :: 0 <= i < j < MAX_STREAMS && slots[i] != null ==> slots[i] != slots[j])
    }

    /** The stream in slot n, if there is one. */
    ghost function At(n: nat): set<object>
      reads slots
    {
      if n < slots.Length && slots[n] != null then {slots[n]} else {}
    }

    /** HandleLogSegmentRequest: the slot is filled even when the segment is then refused. */
    method SegmentRequest(compute: nat, region: nat, addr: nat, size: nat, ptr: nat) returns (accepted: bool)
      requires Valid()
      modifies slots, At(StreamIndex(compute, region))
      ensures Valid() && (accepted <==> StreamIndex(compute, region) < MAX_STREAMS && ptr != 0)
      ensures region < 32 ==> (accepted <==> compute < 32 && ptr != 0)
      ensures var n := StreamIndex(compute, region);
              var added := if accepted then [Segment(addr, size, [], ptr)] else [];
              && (forall i :: 0 <= i < MAX_STREAMS && i != n ==> slots[i] == old(slots[i]))
              && (n < MAX_STREAMS ==>
                    && slots[n] != null
                    && (old(slots[n]) == null ==>
                          && fresh(slots[n]) && slots[n].segments == added
                          && slots[n].All() == [] && slots[n].received == slots[n].replayed == 0)
                    && (old(slots[n]) != null ==>
                          && slots[n] == old(slots[n]) && slots[n].segments == old(slots[n].segments) + added
                          && slots[n].All() == old(slots[n].All()) && slots[n].Past() == old(slots[n].Past())
                          && slots[n].received == old(slots[n].received)
                          && slots[n].replayed == old(slots[n].replayed)))
    {
      hide Flat, Joined, Items, AllOk, ChunksOk;
      var n := StreamIndex(compute, region);
      if n >= MAX_STREAMS { return false; }
      if slots[n] == null { slots[n] := new Stream(); }
      accepted := slots[n].AddSegment(addr, size, ptr);
    }

    /** HandleWriteWithImm: a completion for a stream never requested is dropped. */
    method WriteCompleted(compute: nat, region: nat, data: Bytes, ghost more: seq<Item>) returns (known: bool)
      requires Valid() && data == Flat(more) && AllOk(more)
      requires var n := StreamIndex(compute, region);
               n < MAX_STREAMS && slots[n] != null && slots[n].segments != [] ==>
                 CloseIsLast(slots[n].chunks[|slots[n].chunks| - 1] + more)
      modifies At(StreamIndex(compute, region))
      ensures Valid() && slots[..] == old(slots[..])
      ensures var n := StreamIndex(compute, region);
              && (known <==> n < MAX_STREAMS && slots[n] != null)
              && (known ==>
                    && slots[n].received == old(slots[n].received) + |data| && slots[n].flying == old(slots[n].flying)
                    && slots[n].All() == old(slots[n].All()) + (if old(slots[n].segments) == [] then [] else more)
                    && slots[n].lost == old(slots[n].lost) + (if old(slots[n].segments) == [] then |data| else 0)
                    && slots[n].Past() == old(slots[n].Past()))
    {
      hide Flat, Joined, Items, AllOk, ChunksOk, CloseIsLast;
      var n := StreamIndex(compute, region);
      if n >= MAX_STREAMS || slots[n] == null { return false; }
      slots[n].CountReceived(|data|);
      slots[n].ExtendLast(data, more);
      known := true;
    }
  }
}
