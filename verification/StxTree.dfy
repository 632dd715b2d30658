/** The in-memory B+ tree: what a tree is, and what it holds. Keys stand for their rank in the key order. */
module StxTree {
  type SlotMax = n: nat | n >= 8 witness 8

  const LEAF_MAX: SlotMax
  const INNER_MAX: SlotMax
  const ALLOW_DUPLICATES: bool

  type Key = int

  datatype Item<V> = Item(key: Key, val: V)

  /** The address of a leaf. */
  type Id = nat
  const NONE: Id := 0

  /** A leaf with its address and its items, or an inner node whose key i separates children i and i + 1. */
  datatype Node<V> = Leaf(id: Id, items: seq<Item<V>>) | Inner(keys: seq<Key>, kids: seq<Node<V>>)

  function Use<V>(n: Node<V>): nat {
    match n
    case Leaf(_, items) => |items|
    case Inner(keys, _) => |keys|
  }

  function MinUse(h: nat): nat {
    if h == 0 then LEAF_MAX / 2 else INNER_MAX / 2
  }

  function MaxUse(h: nat): nat {
    if h == 0 then LEAF_MAX else INNER_MAX
  }

  /** The items of a node of height h, in order, and of a list of such nodes. */
  function Flatten<V>(n: Node<V>, h: nat): seq<Item<V>>
    decreases h, 0
  {
    match n
    case Leaf(_, items) => items
    case Inner(_, kids) => if h == 0 then [] else FlatAll(kids, h - 1)
  }

  function FlatAll<V>(kids: seq<Node<V>>, h: nat): seq<Item<V>>
    decreases h, |kids|
  {
    if kids == [] then [] else Flatten(kids[0], h) + FlatAll(kids[1..], h)
  }

  /** The last key below a node. */
  function MaxKey<V>(n: Node<V>, h: nat): Key {
    match n
    case Leaf(_, items) => if items == [] then 0 else items[|items| - 1].key
    case Inner(_, kids) => if kids == [] || h == 0 then 0 else MaxKey(kids[|kids| - 1], h - 1)
  }

  /** Uniform height, no overfull node, no underfull node below n, and each separator the last key to its left. */
  predicate Fits<V>(n: Node<V>, h: nat)
    decreases h, 0
  {
    && Use(n) <= MaxUse(h)
    && match n
       case Leaf(_, items) => h == 0 && items != []
       case Inner(keys, kids) => h > 0 && KidsOk(kids, h - 1) && KeysOk(keys, kids, h - 1)
  }

  predicate KidOk<V>(n: Node<V>, h: nat)
    decreases h, 1
  {
    Fits(n, h) && Use(n) >= MinUse(h)
  }

  predicate KidsOk<V>(kids: seq<Node<V>>, h: nat)
    decreases h, 2
  {
    forall i {:trigger kids[i]} :: 0 <= i < |kids| ==> KidOk(kids[i], h)
  }

  predicate KeysOk<V>(keys: seq<Key>, kids: seq<Node<V>>, h: nat) {
    |kids| == |keys| + 1 && forall i {:trigger keys[i]} :: 0 <= i < |keys| ==> keys[i] == MaxKey(kids[i], h)
  }

  predicate Sorted<V>(s: seq<Item<V>>) {
    forall i, j {:trigger s[i], s[j]} :: 0 <= i <= j < |s| ==> s[i].key <= s[j].key
  }

  /** A tree that satisfies verify(), apart from the leaf links and the counters. */
  predicate Valid<V>(n: Node<V>, h: nat) {
    Fits(n, h) && Use(n) >= 1 && Sorted(Flatten(n, h))
  }

  /** The empty root leaf a tree starts with. verify() accepts it only once it holds a pair. */
  predicate IsFresh<V>(n: Node<V>, h: nat) {
    h == 0 && n.Leaf? && n.items == []
  }

  predicate Distinct<V>(s: seq<Item<V>>) {
    forall i, j {:trigger s[i], s[j]} :: 0 <= i < j < |s| ==> s[i].key < s[j].key
  }

  /* ---- Lists of nodes ---- */

  lemma {:induction false} FlatConcat<V>(a: seq<Node<V>>, b: seq<Node<V>>, h: nat)
    ensures FlatAll(a + b, h) == FlatAll(a, h) + FlatAll(b, h)
    decreases |a|
  {
    hide Flatten;
    if a == [] { assert a + b == b; }
    else {
      FlatConcat(a[1..], b, h);
      assert (a + b)[1..] == a[1..] + b;
    }
  }

  lemma FlatOne<V>(n: Node<V>, h: nat)
    ensures FlatAll([n], h) == Flatten(n, h)
  {
    hide Flatten;
    assert FlatAll([n], h) == Flatten(n, h) + FlatAll([], h);
  }

  /** The items of a list, around its i-th node. */
  lemma FlatAround<V>(kids: seq<Node<V>>, i: nat, h: nat)
    requires i < |kids|
    ensures FlatAll(kids, h) == FlatAll(kids[..i], h) + Flatten(kids[i], h) + FlatAll(kids[i + 1..], h)
  {
    hide Flatten, FlatAll;
    FlatConcat(kids[..i], kids[i..], h);
    assert kids[..i] + kids[i..] == kids;
    FlatConcat([kids[i]], kids[i + 1..], h);
    assert [kids[i]] + kids[i + 1..] == kids[i..];
    FlatOne(kids[i], h);
  }

  /** The last key is the key of the last item. */
  lemma {:induction false} MaxIsLast<V>(n: Node<V>, h: nat)
    requires Fits(n, h)
    ensures var f := Flatten(n, h); f != [] && f[|f| - 1].key == MaxKey(n, h)
    decreases h
  {
    hide KidsOk, FlatAll;
    if n.Inner? {
      var m := |n.kids| - 1;
      LastKidOk(n.kids, h - 1);
      MaxIsLast(n.kids[m], h - 1);
      FlatAround(n.kids, m, h - 1);
      assert n.kids[m + 1..] == [];
      FlatNone<V>(h - 1);
    }
  }

  lemma LastKidOk<V>(kids: seq<Node<V>>, h: nat)
    requires kids != [] && KidsOk(kids, h)
    ensures Fits(kids[|kids| - 1], h)
  {
    assert KidOk(kids[|kids| - 1], h);
  }

  lemma FlatNone<V>(h: nat)
    ensures FlatAll<V>([], h) == []
  {
  }

  /* ---- Where a key goes ---- */

  /** find_lower on separators: the first one not below k. */
  function Lower(keys: seq<Key>, k: Key): (r: nat)
    ensures r <= |keys| && (forall i :: 0 <= i < r ==> keys[i] < k) && (r < |keys| ==> keys[r] >= k)
  {
    if keys == [] || keys[0] >= k then 0
    else
      var r := Lower(keys[1..], k);
      assert forall i :: 0 < i < r + 1 ==> keys[i] == keys[1..][i - 1];
      r + 1
  }

  /** find_lower on items. */
  function LowerItem<V>(s: seq<Item<V>>, k: Key): (r: nat)
    ensures IsLower(s, k, r)
  {
    if s == [] || s[0].key >= k then 0
    else
      var r := LowerItem(s[1..], k);
      assert forall i :: 0 < i < r + 1 ==> s[i] == s[1..][i - 1];
      r + 1
  }

  predicate IsLower<V>(s: seq<Item<V>>, k: Key, p: nat) {
    p <= |s| && (forall i :: 0 <= i < p ==> s[i].key < k) && (p < |s| ==> s[p].key >= k)
  }

  lemma LowerUnique<V>(s: seq<Item<V>>, k: Key, p: nat, q: nat)
    requires IsLower(s, k, p) && IsLower(s, k, q)
    ensures p == q
  {
  }

  /** The child that find_lower picks holds the place of the key. */
  lemma LowerInChild<V>(n: Node<V>, h: nat, k: Key)
    requires n.Inner? && Fits(n, h) && Sorted(Flatten(n, h))
    ensures var i := Lower(n.keys, k); var c := n.kids[i];
            && Sorted(Flatten(c, h - 1)) && KidOk(c, h - 1)
            && Flatten(n, h) == FlatAll(n.kids[..i], h - 1) + Flatten(c, h - 1) + FlatAll(n.kids[i + 1..], h - 1)
            && IsLower(Flatten(n, h), k, |FlatAll(n.kids[..i], h - 1)| + LowerItem(Flatten(c, h - 1), k))
            && (i == |n.keys| ==> FlatAll(n.kids[i + 1..], h - 1) == [])
            && (i < |n.keys| ==> LowerItem(Flatten(c, h - 1), k) < |Flatten(c, h - 1)| && n.keys[i] == MaxKey(c, h - 1))
  {
    hide FlatAll, Fits, MaxKey, KidsOk, Lower, LowerItem, IsLower, Sorted, Flatten;
    var f, i := Flatten(n, h), Lower(n.keys, k);
    FitsInner(n, h);
    var c := n.kids[i];
    KidAt(n.kids, i, h - 1);
    var a, b, d := FlatAll(n.kids[..i], h - 1), Flatten(c, h - 1), FlatAll(n.kids[i + 1..], h - 1);
    FlatAround(n.kids, i, h - 1);
    assert f == a + b + d by { InnerFlat(n, h); }
    MaxIsLast(c, h - 1);
    SortedParts(a, b, d);
    if i > 0 {
      var e := n.kids[i - 1];
      KidAt(n.kids, i - 1, h - 1);
      MaxIsLast(e, h - 1);
      FlatAround(n.kids[..i], i - 1, h - 1);
      assert n.kids[..i][i - 1] == e && n.kids[..i][i - 1 + 1..] == [];
      FlatNone<V>(h - 1);
      assert a[|a| - 1].key == n.keys[i - 1];
    } else {
      assert n.kids[..i] == [];
      FlatNone<V>(h - 1);
    }
    if i == |n.keys| { assert n.kids[i + 1..] == []; FlatNone<V>(h - 1); }
    LowerBetween(a, b, d, k);
  }

  lemma FitsInner<V>(n: Node<V>, h: nat)
    requires n.Inner? && Fits(n, h)
    ensures h > 0 && KidsOk(n.kids, h - 1) && KeysOk(n.keys, n.kids, h - 1) && |n.kids| - 1 == |n.keys| <= INNER_MAX
  {
  }

  lemma InnerFlat<V>(n: Node<V>, h: nat)
    requires n.Inner? && h > 0
    ensures Flatten(n, h) == FlatAll(n.kids, h - 1)
  {
  }

  lemma KidAt<V>(kids: seq<Node<V>>, i: nat, h: nat)
    requires KidsOk(kids, h) && i < |kids|
    ensures KidOk(kids[i], h) && Fits(kids[i], h) && Use(kids[i]) >= MinUse(h)
  {
  }

  lemma SortedParts<V>(a: seq<Item<V>>, b: seq<Item<V>>, d: seq<Item<V>>)
    requires Sorted(a + b + d)
    ensures Sorted(a) && Sorted(b) && Sorted(d)
  {
    var s := a + b + d;
    assert forall i :: 0 <= i < |a| ==> a[i] == s[i];
    assert forall i :: 0 <= i < |b| ==> b[i] == s[|a| + i];
    assert forall i :: 0 <= i < |d| ==> d[i] == s[|a| + |b| + i];
  }

  lemma InThree<T>(a: seq<T>, b: seq<T>, d: seq<T>, i: nat)
    requires i < |a| + |b|
    ensures (a + b + d)[i] == if i < |a| then a[i] else b[i - |a|]
  {}

  lemma AllBelow<V>(a: seq<Item<V>>, k: Key)
    requires Sorted(a) && (a != [] ==> a[|a| - 1].key < k)
    ensures forall i :: 0 <= i < |a| ==> a[i].key < k
  {}

  lemma LowerBetween<V>(a: seq<Item<V>>, b: seq<Item<V>>, d: seq<Item<V>>, k: Key)
    requires Sorted(a) && (a != [] ==> a[|a| - 1].key < k)
    requires (b != [] && b[|b| - 1].key >= k) || d == []
    ensures IsLower(a + b + d, k, |a| + LowerItem(b, k))
    ensures b != [] && b[|b| - 1].key >= k ==> LowerItem(b, k) < |b|
  {
    hide LowerItem, Sorted;
    var s := a + b + d;
    var q := LowerItem(b, k);
    AllBelow(a, k);
    forall i | 0 <= i < |a| + q ensures s[i].key < k {
      InThree(a, b, d, i);
    }
    if q < |b| { InThree(a, b, d, |a| + q); }
    else if b != [] { assert b[|b| - 1].key < k; }
  }
}
