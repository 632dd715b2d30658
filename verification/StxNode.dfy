/** Nodes of the B+ tree as the code keeps them: slot arrays of fixed size, changed in place. The key and the datum of
    one leaf slot are one array element here, and a child pointer stands for the subtree below it. */
module StxNode {
  import opened Options
  import opened Arrays
  import opened StxTree
  import opened StxInsert
  import opened StxErase

  /** The used part of a slot array. */
  class Slots<T> {
    const a: array<T>
    var n: nat
    ghost var s: seq<T>

    constructor (max: nat, filler: T)
      ensures Valid() && s == [] && a.Length == max && fresh(a)
    {
      a := new T[max](_ => filler);
      n := 0;
      s := [];
    }

    ghost predicate Valid()
      reads this, a
    {
      n == |s| <= a.Length && Holds()
    }

    ghost predicate Holds()
      requires |s| <= a.Length
      reads this, a
    {
      forall i :: 0 <= i < |s| ==> a[i] == s[i]
    }

    method Get(i: nat) returns (x: T)
      requires Valid() && i < n
      ensures x == s[i]
    {
      x := a[i];
    }

    method Set(i: nat, x: T)
      requires Valid() && i < n
      modifies this, a
      ensures Valid() && s == old(s)[i := x]
    {
      a[i] := x;
      s := s[i := x];
    }

    method Insert(i: nat, x: T)
      requires Valid() && i <= n < a.Length
      modifies this, a
      ensures Valid() && s == InsertAt(old(s), i, x)
    {
      MoveUp(a, i, n, 1);
      a[i] := x;
      n := n + 1;
      s := InsertAt(s, i, x);
    }

    method Remove(i: nat)
      requires Valid() && i < n
      modifies this, a
      ensures Valid() && s == RemoveAt(old(s), i)
    {
      MoveDown(a, i + 1, n, 1);
      n := n - 1;
      s := RemoveAt(s, i);
    }

    method Append(x: T)
      requires Valid() && n < a.Length
      modifies this, a
      ensures Valid() && s == old(s) + [x]
    {
      a[n] := x;
      n := n + 1;
      s := s + [x];
    }

    method Truncate(m: nat)
      requires Valid() && m <= n
      modifies this
      ensures Valid() && s == old(s)[..m]
    {
      n := m;
      s := s[..m];
    }

    method AppendFrom(r: Slots<T>, from: nat, to: nat)
      requires Valid() && r.Valid() && r != this && r.a != a && from <= to <= r.n && n + (to - from) <= a.Length
      modifies this, a
      ensures Valid() && s == old(s) + r.s[from..to]
    {
      Copy(r.a, from, to, a, n);
      n := n + (to - from);
      s := s + r.s[from..to];
    }

    method DropFront(c: nat)
      requires Valid() && c <= n
      modifies this, a
      ensures Valid() && s == old(s)[c..]
    {
      MoveDown(a, c, n, c);
      n := n - c;
      s := s[c..];
    }

    /** An empty array gets the elements of r from position from on. */
    method CopyTail(r: Slots<T>, from: nat)
      requires Valid() && r.Valid() && r != this && r.a != a && from <= r.n && n == 0 && r.n - from <= a.Length
      modifies this, a
      ensures Valid() && s == r.s[from..]
    {
      Copy(r.a, from, r.n, a, 0);
      n := r.n - from;
      s := r.s[from..];
    }

    /** The elements of l from position from on go in front. */
    method PrependTail(l: Slots<T>, from: nat)
      requires Valid() && l.Valid() && l != this && l.a != a && from <= l.n && n + (l.n - from) <= a.Length
      modifies this, a
      ensures Valid() && s == l.s[from..] + old(s)
    {
      var c := l.n - from;
      MoveUp(a, 0, n, c);
      Copy(l.a, from, l.n, a, 0);
      n := n + c;
      s := l.s[from..] + s;
    }

    /** The elements of l from position from on, then x, go in front. */
    method PrependTailAnd(l: Slots<T>, from: nat, x: T)
      requires Valid() && l.Valid() && l != this && l.a != a && from <= l.n && n + 1 + (l.n - from) <= a.Length
      modifies this, a
      ensures Valid() && s == l.s[from..] + [x] + old(s)
    {
      var c := l.n - from + 1;
      MoveUp(a, 0, n, c);
      a[c - 1] := x;
      Copy(l.a, from, l.n, a, 0);
      n := n + c;
      s := l.s[from..] + [x] + s;
    }
  }

  /** The first slot whose key is not below k, by linear search. */
  method FindLowerItem<V>(slots: Slots<Item<V>>, k: Key) returns (slot: nat)
    requires slots.Valid()
    ensures slot <= slots.n && slot == LowerItem(slots.s, k)
  {
    slot := 0;
    while slot < slots.n && slots.a[slot].key < k
      invariant slot <= slots.n && forall i :: 0 <= i < slot ==> slots.s[i].key < k
    {
      slot := slot + 1;
    }
    LowerUnique(slots.s, k, slot, LowerItem(slots.s, k));
  }

  method FindLowerKey(keys: Slots<Key>, k: Key) returns (slot: nat)
    requires keys.Valid()
    ensures slot <= keys.n && slot == Lower(keys.s, k)
  {
    slot := 0;
    while slot < keys.n && keys.a[slot] < k
      invariant slot <= keys.n && forall i :: 0 <= i < slot ==> keys.s[i] < k
    {
      slot := slot + 1;
    }
  }

  ghost predicate Apart<T>(l: Slots<T>, r: Slots<T>) {
    l != r && l.a != r.a
  }

  function LeafAt<V>(order: seq<LeafNode<V>>, i: int): LeafNode?<V> {
    if 0 <= i < |order| then order[i] else null
  }

  /** m_headleaf, m_tailleaf and the leaves between them, in chain order. */
  class LeafList<V> {
    var head: LeafNode?<V>
    var tail: LeafNode?<V>
    ghost var order: seq<LeafNode<V>>

    ghost predicate Valid()
      reads this, order
    {
      Once(order) && forall i {:trigger LinkOk(order, i)} :: 0 <= i < |order| ==> LinkOk(order, i)
    }

    /** The link updates of split_leaf_node. */
    method LinkAfter(leaf: LeafNode<V>, right: LeafNode<V>, ghost i: nat)
      requires Valid() && i < |order| && order[i] == leaf && right !in order
      modifies this, order, right
      ensures Valid() && order == InsertAt(old(order), i + 1, right) && head == old(head)
      ensures tail == if i + 1 == |old(order)| then right else old(tail)
    {
      ghost var was := order;
      assert LinkOk(was, i);
      right.next := leaf.next;
      if right.next == null { tail := right; } else { right.next.prev := right; }
      leaf.next := right;
      right.prev := leaf;
      order := InsertAt(order, i + 1, right);
      InsertOnce(was, i + 1, right);
      forall j {:trigger LinkOk(order, j)} | 0 <= j < |order| ensures LinkOk(order, j) {
        if j <= i { assert old(LinkOk(was, j)) && order[j] == was[j]; }
        else if j > i + 1 { assert old(LinkOk(was, j - 1)) && order[j] == was[j - 1]; }
      }
    }

    /** The link updates of merge_leaves. */
    method Unlink(left: LeafNode<V>, right: LeafNode<V>, ghost i: nat)
      requires Valid() && i + 1 < |order| && order[i] == left && order[i + 1] == right
      modifies this, order
      ensures Valid() && order == RemoveAt(old(order), i + 1) && head == old(head)
      ensures tail == if i + 2 == |old(order)| then left else old(tail)
    {
      ghost var was := order;
      assert LinkOk(was, i) && LinkOk(was, i + 1);
      left.next := right.next;
      if left.next != null { left.next.prev := left; } else { tail := left; }
      order := RemoveAt(order, i + 1);
      RemoveOnce(was, i + 1);
      forall j {:trigger LinkOk(order, j)} | 0 <= j < |order| ensures LinkOk(order, j) {
        if j <= i { assert old(LinkOk(was, j)) && order[j] == was[j]; }
        else { assert old(LinkOk(was, j + 1)) && order[j] == was[j + 1]; }
      }
    }
  }

  ghost predicate Once<T>(order: seq<T>) {
    forall i, j :: 0 <= i < j < |order| ==> order[i] != order[j]
  }

  ghost predicate LinkOk<V>(order: seq<LeafNode<V>>, i: nat)
    requires i < |order|
    reads order
  {
    order[i].next == LeafAt(order, i + 1) && order[i].prev == LeafAt(order, i - 1)
  }

  lemma InsertOnce<T>(s: seq<T>, i: nat, x: T)
    requires Once(s) && i <= |s| && x !in s
    ensures Once(InsertAt(s, i, x))
  {
    var r := InsertAt(s, i, x);
    forall j, k | 0 <= j < k < |r| ensures r[j] != r[k] {
      if j == i { assert r[k] == s[k - 1]; } else if k == i { assert r[j] == s[j]; }
      else { assert r[j] == s[if j < i then j else j - 1] && r[k] == s[if k < i then k else k - 1]; }
    }
  }

  lemma RemoveOnce<T>(s: seq<T>, i: nat)
    requires Once(s) && i < |s|
    ensures Once(RemoveAt(s, i))
  {
    var r := RemoveAt(s, i);
    forall j, k | 0 <= j < k < |r| ensures r[j] != r[k] {
      assert r[j] == s[if j < i then j else j + 1] && r[k] == s[if k < i then k else k + 1];
    }
  }

  class LeafNode<V> {
    const id: Id
    const slots: Slots<Item<V>>
    var next: LeafNode?<V>
    var prev: LeafNode?<V>

    constructor (id: Id, filler: V)
      ensures Valid() && fresh(slots) && fresh(slots.a) && slots.s == [] && this.id == id && next == null &&
              prev == null
    {
      this.id, next, prev := id, null, null;
      slots := new Slots(LEAF_MAX, Item(0, filler));
    }

    ghost predicate Valid()
      reads slots, slots.a
    {
      slots.Valid() && slots.a.Length == LEAF_MAX
    }

    ghost function Value(): Node<V>
      reads slots
    {
      Leaf(id, slots.s)
    }

    /** split_leaf_node: the upper half goes to a new leaf, which is linked in behind this one. */
    method SplitInto(right: LeafNode<V>, list: LeafList<V>, ghost i: nat) returns (key: Key)
      requires Valid() && right.Valid() && slots.n == LEAF_MAX && right.slots.s == [] && Apart(slots, right.slots)
      requires list.Valid() && i < |list.order| && list.order[i] == this && right !in list.order
      modifies slots, right.slots, right.slots.a, list, list.order, right
      ensures Valid() && right.Valid() && list.Valid() && list.order == InsertAt(old(list.order), i + 1, right)
      ensures list.head == old(list.head) && list.tail == if i + 1 == |old(list.order)| then right else old(list.tail)
      ensures var mid, s := LEAF_MAX / 2, old(slots.s);
              slots.s == s[..mid] && right.slots.s == s[mid..] && key == s[mid - 1].key
    {
      var mid := slots.n / 2;
      list.LinkAfter(this, right, i);
      right.slots.CopyTail(slots, mid);
      slots.Truncate(mid);
      key := slots.a[mid - 1].key;
    }

    /** insert_descend at a leaf; right is the fresh leaf for a split. */
    method Insert(k: Key, v: V, right: LeafNode<V>, list: LeafList<V>, ghost i: nat)
      returns (split: bool, key: Key, added: bool)
      requires Valid() && right.Valid() && right.slots.s == [] && Apart(slots, right.slots)
      requires list.Valid() && i < |list.order| && list.order[i] == this && right !in list.order
      modifies slots, slots.a, right.slots, right.slots.a, list, list.order, right
      ensures Valid() && right.Valid() && list.Valid()
      ensures list.order == if split then InsertAt(old(list.order), i + 1, right) else old(list.order)
      ensures split ==> added && old(slots.n) == LEAF_MAX
      ensures InsertLeaf(id, old(slots.s), k, v, right.id)
           == if !added then Kept else if split then Two(Value(), key, right.Value()) else One(Value())
      ensures !added ==> Value() == old(Value())
    {
      hide InsertAt, LowerItem;
      split, key, added := false, k, false;
      var slot := FindLowerItem(slots, k);
      if !ALLOW_DUPLICATES && slot < slots.n && slots.a[slot].key == k { return; }
      added := true;
      if slots.n < LEAF_MAX { slots.Insert(slot, Item(k, v)); return; }
      key := SplitInto(right, list, i);
      split := true;
      if slot >= slots.n { right.slots.Insert(slot - slots.n, Item(k, v)); } else { slots.Insert(slot, Item(k, v)); }
    }

    /** erase_one_descend at a leaf, before any repair; changed says that the last key is another one now. */
    method Erase(k: Key) returns (found: bool, changed: bool)
      requires Valid()
      modifies slots, slots.a
      ensures Valid() && (!found ==> Value() == old(Value()))
      ensures EraseLeaf(id, old(slots.s), k)
           == if !found then Missing
              else Gone(Value(), if changed && slots.s != [] then Some(slots.s[|slots.s| - 1].key) else None, None)
    {
      hide LowerItem;
      var slot := FindLowerItem(slots, k);
      if slot >= slots.n || slots.a[slot].key != k { return false, false; }
      slots.Remove(slot);
      return true, slot == slots.n && slots.n >= 1;
    }

    /** merge_leaves: the right leaf is emptied and left out of the chain. */
    method MergeFrom(right: LeafNode<V>, ghost key: Key, list: LeafList<V>, ghost i: nat)
      requires Valid() && right.Valid() && slots.n + right.slots.n <= LEAF_MAX && Apart(slots, right.slots)
      requires list.Valid() && i + 1 < |list.order| && list.order[i] == this && list.order[i + 1] == right
      modifies slots, slots.a, right.slots, list, list.order
      ensures Valid() && right.Valid() && right.slots.s == [] && Value() == Join(old(Value()), key, old(right.Value()))
      ensures list.Valid() && list.order == RemoveAt(old(list.order), i + 1)
      ensures list.head == old(list.head) && list.tail == if i + 2 == |old(list.order)| then this else old(list.tail)
    {
      list.Unlink(this, right, i);
      slots.AppendFrom(right.slots, 0, right.slots.n);
      right.slots.Truncate(0);
    }

    /** shift_left_leaf. */
    method TakeFromRight(right: LeafNode<V>, ghost key: Key) returns (up: Key)
      requires Valid() && right.Valid() && slots.n + 2 <= right.slots.n && Apart(slots, right.slots)
      modifies slots, slots.a, right.slots, right.slots.a
      ensures Valid() && right.Valid()
      ensures (Value(), up, right.Value()) == ShiftLeft(old(Value()), key, old(right.Value()))
    {
      var n := (right.slots.n - slots.n) / 2;
      slots.AppendFrom(right.slots, 0, n);
      right.slots.DropFront(n);
      up := slots.a[slots.n - 1].key;
    }

    /** shift_right_leaf. */
    method GiveToRight(right: LeafNode<V>, ghost key: Key) returns (up: Key)
      requires Valid() && right.Valid() && right.slots.n + 2 <= slots.n && Apart(slots, right.slots)
      modifies slots, right.slots, right.slots.a
      ensures Valid() && right.Valid()
      ensures (Value(), up, right.Value()) == ShiftRight(old(Value()), key, old(right.Value()))
    {
      var n := (slots.n - right.slots.n) / 2;
      right.slots.PrependTail(slots, slots.n - n);
      slots.Truncate(slots.n - n);
      up := slots.a[slots.n - 1].key;
    }
  }

  /** The slots from m on move to an empty node. */
  method MoveTail<T>(from: Slots<T>, right: Slots<T>, m: nat)
    requires from.Valid() && right.Valid() && right.s == [] && Apart(from, right)
    requires m <= from.n && from.n - m <= right.a.Length
    modifies from, right, right.a
    ensures from.Valid() && right.Valid() && from.s == old(from.s)[..m] && right.s == old(from.s)[m..]
  {
    hide Slots.Holds;
    right.CopyTail(from, m);
    from.Truncate(m);
  }

  /** The keys of shift_right_inner. */
  method GiveKeys(keys: Slots<Key>, right: Slots<Key>, m: nat, key: Key) returns (up: Key)
    requires keys.Valid() && right.Valid() && Apart(keys, right) && m < keys.n && keys.n - m + right.n <= right.a.Length
    modifies keys, right, right.a
    ensures keys.Valid() && right.Valid() && up == old(keys.s)[m] && keys.s == old(keys.s)[..m]
    ensures right.s == old(keys.s)[m + 1..] + [key] + old(right.s)
  {
    hide Slots.Holds;
    right.PrependTailAnd(keys, m + 1, key);
    up := keys.Get(m);
    keys.Truncate(m);
  }

  /** Its children. */
  method GiveKids<T>(kids: Slots<T>, right: Slots<T>, m: nat)
    requires kids.Valid() && right.Valid() && Apart(kids, right) && m <= kids.n &&
             kids.n - m + right.n <= right.a.Length
    modifies kids, right, right.a
    ensures kids.Valid() && right.Valid() && kids.s == old(kids.s)[..m] && right.s == old(kids.s)[m..] + old(right.s)
  {
    hide Slots.Holds;
    right.PrependTail(kids, m);
    kids.Truncate(m);
  }

  /** The keys of shift_left_inner. */
  method TakeKeys(keys: Slots<Key>, right: Slots<Key>, key: Key, n: nat) returns (up: Key)
    requires keys.Valid() && right.Valid() && Apart(keys, right) && 0 < n <= right.n && keys.n + n <= keys.a.Length
    modifies keys, keys.a, right, right.a
    ensures keys.Valid() && right.Valid()
    ensures up == old(right.s)[n - 1] && keys.s == old(keys.s) + [key] + old(right.s)[..n - 1]
    ensures right.s == old(right.s)[n..]
  {
    hide Slots.Holds;
    keys.Append(key);
    keys.AppendFrom(right, 0, n - 1);
    up := right.Get(n - 1);
    right.DropFront(n);
  }

  /** Its children. */
  method TakeKids<T>(kids: Slots<T>, right: Slots<T>, n: nat)
    requires kids.Valid() && right.Valid() && Apart(kids, right) && n <= right.n && kids.n + n <= kids.a.Length
    modifies kids, kids.a, right, right.a
    ensures kids.Valid() && right.Valid()
    ensures kids.s == old(kids.s) + old(right.s)[..n] && right.s == old(right.s)[n..]
  {
    hide Slots.Holds;
    kids.AppendFrom(right, 0, n);
    right.DropFront(n);
  }

  class InnerNode<V> {
    const keys: Slots<Key>
    const kids: Slots<Node<V>>

    constructor ()
      ensures fresh(keys) && fresh(kids) && fresh(keys.a) && fresh(kids.a) && keys.s == [] && kids.s == []
      ensures keys.Valid() && kids.Valid() && keys.a.Length == INNER_MAX && kids.a.Length == INNER_MAX + 1
    {
      keys := new Slots(INNER_MAX, 0);
      kids := new Slots(INNER_MAX + 1, Leaf(NONE, []));
    }

    ghost predicate Arrays()
      reads keys, keys.a, kids, kids.a
    {
      keys.Valid() && kids.Valid() && keys.a.Length == INNER_MAX && kids.a.Length == INNER_MAX + 1
    }

    ghost predicate Valid()
      reads keys, keys.a, kids, kids.a
    {
      Arrays() && kids.n == keys.n + 1
    }

    ghost function Value(): Node<V>
      reads keys, kids
    {
      Inner(keys.s, kids.s)
    }

    /** split_inner_node. */
    method SplitInto(right: InnerNode<V>, slot: nat) returns (key: Key)
      requires Valid() && keys.n == INNER_MAX && right.Arrays() && right.keys.s == [] && right.kids.s == []
      requires Apart(keys, right.keys) && Apart(kids, right.kids)
      modifies keys, kids, right.keys, right.keys.a, right.kids, right.kids.a
      ensures Valid() && right.Valid()
      ensures var mid := Middle(INNER_MAX, slot); var s, t := old(keys.s), old(kids.s);
              && keys.s == s[..mid] && kids.s == t[..mid + 1] && key == s[mid]
              && right.keys.s == s[mid + 1..] && right.kids.s == t[mid + 1..]
    {
      hide Slots.Holds;
      var mid := keys.n / 2;
      if slot <= mid && mid > keys.n - (mid + 1) { mid := mid - 1; }
      key := keys.Get(mid);
      MoveTail(keys, right.keys, mid + 1);
      keys.Truncate(mid);
      MoveTail(kids, right.kids, mid + 1);
    }

    /** The inner part of insert_descend: a new child behind child slot; right is the fresh node for a split. */
    method InsertChild(slot: nat, key: Key, kid: Node<V>, right: InnerNode<V>) returns (split: bool, up: Key)
      requires Valid() && slot <= keys.n && right.Arrays() && right.keys.s == [] && right.kids.s == []
      requires Apart(keys, right.keys) && Apart(kids, right.kids)
      modifies keys, keys.a, kids, kids.a, right.keys, right.keys.a, right.kids, right.kids.a
      ensures Valid() && (split ==> right.Valid())
      ensures InsertInner(old(keys.s), old(kids.s), slot, key, kid)
           == if split then Two(Value(), up, right.Value()) else One(Value())
    {
      hide InsertAt, Slots.Holds;
      split, up := keys.n == INNER_MAX, key;
      if split { up := SplitAndInsert(slot, key, kid, right); } else { PutChild(slot, key, kid); }
    }

    method PutChild(slot: nat, key: Key, kid: Node<V>)
      requires Valid() && slot <= keys.n < INNER_MAX
      modifies keys, keys.a, kids, kids.a
      ensures Valid() && keys.s == InsertAt(old(keys.s), slot, key) && kids.s == InsertAt(old(kids.s), slot + 1, kid)
    {
      hide InsertAt, Slots.Holds;
      keys.Insert(slot, key);
      kids.Insert(slot + 1, kid);
    }

    /** The new child falls right between the halves: the split key moves down on the left. */
    method PutBetween(right: InnerNode<V>, up: Key, kid: Node<V>)
      requires Valid() && right.Valid() && keys.n < INNER_MAX && Apart(keys, right.keys) && Apart(kids, right.kids)
      modifies keys, keys.a, kids, kids.a, right.kids, right.kids.a
      ensures Valid() && right.Valid()
      ensures keys.s == old(keys.s) + [up] && kids.s == old(kids.s) + [old(right.kids.s)[0]]
      ensures right.kids.s == old(right.kids.s)[0 := kid]
    {
      hide Slots.Holds;
      var first := right.kids.Get(0);
      keys.Append(up);
      kids.Append(first);
      right.kids.Set(0, kid);
    }

    method SplitAndInsert(slot: nat, key: Key, kid: Node<V>, right: InnerNode<V>) returns (up: Key)
      requires Valid() && slot <= keys.n == INNER_MAX && right.Arrays() && right.keys.s == [] && right.kids.s == []
      requires Apart(keys, right.keys) && Apart(kids, right.kids)
      modifies keys, keys.a, kids, kids.a, right.keys, right.keys.a, right.kids, right.kids.a
      ensures Valid() && right.Valid()
      ensures Two(Value(), up, right.Value()) == InsertInner(old(keys.s), old(kids.s), slot, key, kid)
    {
      hide InsertAt, Slots.Holds;
      up := SplitInto(right, slot);
      if slot == keys.n + 1 && keys.n < right.keys.n {
        PutBetween(right, up, kid);
        up := key;
      } else if slot >= keys.n + 1 {
        right.PutChild(slot - (keys.n + 1), key, kid);
      } else {
        PutChild(slot, key, kid);
      }
    }

    /** merge_inner. */
    method MergeFrom(right: InnerNode<V>, key: Key)
      requires Valid() && right.Valid() && keys.n + 1 + right.keys.n <= INNER_MAX
      requires Apart(keys, right.keys) && Apart(kids, right.kids)
      modifies keys, keys.a, kids, kids.a, right.keys
      ensures Valid() && right.keys.s == [] && Value() == Join(old(Value()), key, old(right.Value()))
    {
      hide Slots.Holds;
      keys.Append(key);
      keys.AppendFrom(right.keys, 0, right.keys.n);
      kids.AppendFrom(right.kids, 0, right.kids.n);
      right.keys.Truncate(0);
    }

    /** shift_left_inner: the parent's key goes in, and its new key comes back. */
    method TakeFromRight(right: InnerNode<V>, key: Key) returns (up: Key)
      requires Valid() && right.Valid() && keys.n + 2 <= right.keys.n
      requires Apart(keys, right.keys) && Apart(kids, right.kids)
      modifies keys, keys.a, kids, kids.a, right.keys, right.keys.a, right.kids, right.kids.a
      ensures Valid() && right.Valid()
      ensures (Value(), up, right.Value()) == ShiftLeft(old(Value()), key, old(right.Value()))
    {
      hide Slots.Holds;
      var n := (right.keys.n - keys.n) / 2;
      up := TakeKeys(keys, right.keys, key, n);
      TakeKids(kids, right.kids, n);
    }

    /** shift_right_inner. */
    method GiveToRight(right: InnerNode<V>, key: Key) returns (up: Key)
      requires Valid() && right.Valid() && right.keys.n + 2 <= keys.n
      requires Apart(keys, right.keys) && Apart(kids, right.kids)
      modifies keys, kids, right.keys, right.keys.a, right.kids, right.kids.a
      ensures Valid() && right.Valid()
      ensures (Value(), up, right.Value()) == ShiftRight(old(Value()), key, old(right.Value()))
    {
      hide Slots.Holds;
      var m := keys.n - (keys.n - right.keys.n) / 2;
      up := GiveKeys(keys, right.keys, m, key);
      GiveKids(kids, right.kids, m + 1);
    }
  }
}
