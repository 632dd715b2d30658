/** Joining sequences, and moving and copying ranges of arrays. */
module Arrays {
  lemma Assoc<T>(x: seq<T>, y: seq<T>, z: seq<T>)
    ensures x + (y + z) == x + y + z
  {}

  /** memmove or std::copy_backward within one array: elements from up to to move c places up. */
  method MoveUp<T>(a: array<T>, from: nat, to: nat, c: nat)
    requires from <= to && to + c <= a.Length
    modifies a
    ensures forall k :: 0 <= k < a.Length ==> a[k] == if from + c <= k < to + c then old(a[k - c]) else old(a[k])
  {
    for j := to downto from
      invariant forall k :: 0 <= k < a.Length ==> a[k] == if j + c <= k < to + c then old(a[k - c]) else old(a[k])
    {
      a[j + c] := a[j];
    }
  }

  /** memmove or std::copy within one array: elements from up to to move c places down. */
  method MoveDown<T>(a: array<T>, from: nat, to: nat, c: nat)
    requires c <= from <= to <= a.Length
    modifies a
    ensures forall k :: 0 <= k < a.Length ==> a[k] == if from - c <= k < to - c then old(a[k + c]) else old(a[k])
  {
    for j := from to to
      invariant forall k :: 0 <= k < a.Length ==> a[k] == if from - c <= k < j - c then old(a[k + c]) else old(a[k])
    {
      a[j - c] := a[j];
    }
  }

  /** memcpy or std::copy from one array to another. */
  method Copy<T>(r: array<T>, from: nat, to: nat, a: array<T>, at: nat)
    requires r != a && from <= to <= r.Length && at + (to - from) <= a.Length
    modifies a
    ensures forall k :: 0 <= k < a.Length ==>
            a[k] == if at <= k < at + (to - from) then r[from + (k - at)] else old(a[k])
  {
    for j := 0 to to - from
      invariant forall k :: 0 <= k < a.Length ==> a[k] == if at <= k < at + j then r[from + (k - at)] else old(a[k])
    {
      a[at + j] := r[from + j];
    }
  }
}
