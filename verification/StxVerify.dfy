/** The tree's own check, verify(), against the meaning of a valid tree. */
module StxVerify {
  import opened StxTree

  /** The first key below a node. */
  function MinKey<V>(n: Node<V>, h: nat): Key {
    match n
    case Leaf(_, items) => if items == [] then 0 else items[0].key
    case Inner(_, kids) => if kids == [] || h == 0 then 0 else MinKey(kids[0], h - 1)
  }

  /** verify_node: local checks only. That a node has no more slots than its arrays is part of its type there. */
  predicate Verify<V>(n: Node<V>, h: nat, root: bool)
    decreases h, 0
  {
    && 0 < Use(n) <= (if h == 0 then LEAF_MAX else INNER_MAX)
    && (root || Use(n) >= (if h == 0 then LEAF_MAX / 2 else INNER_MAX / 2))
    && match n
       case Leaf(_, items) => h == 0 && forall i :: 0 <= i < |items| - 1 ==> items[i].key <= items[i + 1].key
       case Inner(keys, kids) =>
         && h > 0 && |kids| == |keys| + 1
         && (forall i :: 0 <= i < |keys| - 1 ==> keys[i] <= keys[i + 1])
         && (forall i :: 0 <= i < |kids| ==> Verify(kids[i], h - 1, false))
         && (forall i :: 0 < i < |kids| ==> MinKey(kids[i], h - 1) >= keys[i - 1])
         && (forall i :: 0 <= i < |keys| ==> keys[i] == MaxKey(kids[i], h - 1))
  }

  lemma {:induction false} MinIsFirst<V>(n: Node<V>, h: nat)
    requires Fits(n, h)
    ensures Flatten(n, h) != [] && Flatten(n, h)[0].key == MinKey(n, h)
    decreases h
  {
    hide KidsOk, FlatAll;
    if n.Inner? {
      FitsInner(n, h);
      KidAt(n.kids, 0, h - 1);
      MinIsFirst(n.kids[0], h - 1);
      FlatAround(n.kids, 0, h - 1);
      assert n.kids[..0] == [];
      FlatNone<V>(h - 1);
    }
  }

  lemma SortedJoin<V>(a: seq<Item<V>>, b: seq<Item<V>>)
    requires Sorted(a) && Sorted(b) && (a != [] && b != [] ==> a[|a| - 1].key <= b[0].key)
    ensures Sorted(a + b)
  {
    var s := a + b;
    forall i, j {:trigger s[i], s[j]} | 0 <= i <= j < |s| ensures s[i].key <= s[j].key {
      if j < |a| { assert s[i] == a[i] && s[j] == a[j]; }
      else if i >= |a| { assert s[i] == b[i - |a|] && s[j] == b[j - |a|]; }
      else { assert a[i].key <= a[|a| - 1].key && b[0].key <= b[j - |a|].key; }
    }
  }

  lemma {:induction false} AdjacentSorted<V>(s: seq<Item<V>>)
    requires forall i :: 0 <= i < |s| - 1 ==> s[i].key <= s[i + 1].key
    ensures Sorted(s)
    decreases |s|
  {
    if |s| > 1 {
      var t := s[..|s| - 1];
      AdjacentSorted(t);
      SortedJoin(t, [s[|s| - 1]]);
      assert t + [s[|s| - 1]] == s;
    }
  }

  /** Sorted children whose neighbours do not overlap are sorted together. */
  /** Every child begins at or after the last key of the one before it. */
  ghost predicate Ascending<V>(kids: seq<Node<V>>, h: nat) {
    forall i {:trigger MinKey(kids[i], h)} :: 0 < i < |kids| ==> MaxKey(kids[i - 1], h) <= MinKey(kids[i], h)
  }

  lemma {:induction false} KidsSorted<V>(kids: seq<Node<V>>, m: nat, h: nat)
    requires KidsOk(kids, h) && m <= |kids|
    requires forall i :: 0 <= i < |kids| ==> Sorted(Flatten(kids[i], h))
    requires Ascending(kids, h)
    ensures Sorted(FlatAll(kids[..m], h))
    ensures m > 0 ==>
              && FlatAll(kids[..m], h) != []
              && FlatAll(kids[..m], h)[|FlatAll(kids[..m], h)| - 1].key == MaxKey(kids[m - 1], h)
    decreases m
  {
    hide FlatAll, Flatten, MaxKey, Fits, KidsOk, Sorted;
    FlatNone<V>(h);
    if m == 0 { assert kids[..0] == []; EmptySorted<V>(); }
    else {
      KidsSorted(kids, m - 1, h);
      FlatAround(kids[..m], m - 1, h);
      assert kids[..m][..m - 1] == kids[..m - 1] && kids[..m][m - 1 + 1..] == [];
      KidAt(kids, m - 1, h);
      MinIsFirst(kids[m - 1], h);
      MaxIsLast(kids[m - 1], h);
      var a, b := FlatAll(kids[..m - 1], h), Flatten(kids[m - 1], h);
      assert FlatAll(kids[..m], h) == a + b + [] == a + b;
      SortedJoin(a, b);
    }
  }

  lemma EmptySorted<V>()
    ensures Sorted<V>([])
  {
  }

  /** The local checks suffice: a tree that passes verify_node is valid. */
  lemma {:induction false} VerifiedIsValid<V>(n: Node<V>, h: nat, root: bool)
    requires Verify(n, h, root)
    ensures Valid(n, h) && (root || KidOk(n, h))
    decreases h
  {
    hide Verify, MaxKey, MinKey, FlatAll, Sorted, Fits, Flatten, MinUse, MaxUse, KeysOk, Ascending;
    if n.Leaf? { LeafIsValid(n, h, root); }
    else {
      VerifiedInner(n, h, root);
      forall i | 0 <= i < |n.kids| ensures KidOk(n.kids[i], h - 1) && Sorted(Flatten(n.kids[i], h - 1)) {
        VerifiedIsValid(n.kids[i], h - 1, false);
      }
      InnerIsValid(n, h);
    }
  }

  lemma LeafIsValid<V>(n: Node<V>, h: nat, root: bool)
    requires n.Leaf? && Verify(n, h, root)
    ensures Valid(n, h) && (root || KidOk(n, h))
  {
    hide Sorted;
    AdjacentSorted(n.items);
  }

  lemma VerifiedInner<V>(n: Node<V>, h: nat, root: bool)
    requires n.Inner? && Verify(n, h, root)
    ensures h > 0 && 1 <= Use(n) <= MaxUse(h) && (root || Use(n) >= MinUse(h)) && KeysOk(n.keys, n.kids, h - 1)
    ensures forall i :: 0 <= i < |n.kids| ==> Verify(n.kids[i], h - 1, false)
    ensures Ascending(n.kids, h - 1)
  {
    hide MaxKey, MinKey;
  }

  lemma InnerIsValid<V>(n: Node<V>, h: nat)
    requires n.Inner? && h > 0 && 1 <= Use(n) <= MaxUse(h) && KeysOk(n.keys, n.kids, h - 1) && Ascending(n.kids, h - 1)
    requires forall i :: 0 <= i < |n.kids| ==> KidOk(n.kids[i], h - 1) && Sorted(Flatten(n.kids[i], h - 1))
    ensures Valid(n, h)
  {
    hide KidOk, KeysOk, FlatAll, Sorted, Ascending, MaxKey, MinKey;
    KidsSorted(n.kids, |n.kids|, h - 1);
    assert n.kids[..|n.kids|] == n.kids;
  }

  /** And they are necessary: a valid tree passes verify_node. */
  lemma {:induction false} ValidIsVerified<V>(n: Node<V>, h: nat, root: bool)
    requires Valid(n, h) && (root || KidOk(n, h))
    ensures Verify(n, h, root)
    decreases h
  {
    hide MaxKey, MinKey, FlatAll, Flatten, LowerItem;
    match n
    case Leaf(_, items) => LeafFlat(n, h);
    case Inner(keys, kids) =>
      forall i | 0 <= i < |kids| ensures Verify(kids[i], h - 1, false) {
        KidInOrder(n, h, i);
        ValidIsVerified(kids[i], h - 1, false);
      }
      forall i | 0 < i < |kids|
        ensures keys[i - 1] <= MinKey(kids[i], h - 1) <= MaxKey(kids[i], h - 1)
      {
        KidInOrder(n, h, i);
      }
  }

  lemma LeafFlat<V>(n: Node<V>, h: nat)
    requires n.Leaf?
    ensures Flatten(n, h) == n.items
  {
  }

  /** Each child of a valid node is valid, and begins at or after the separator before it. */
  lemma KidInOrder<V>(n: Node<V>, h: nat, i: nat)
    requires n.Inner? && Valid(n, h) && i < |n.kids|
    ensures KidOk(n.kids[i], h - 1) && Valid(n.kids[i], h - 1)
    ensures MinKey(n.kids[i], h - 1) <= MaxKey(n.kids[i], h - 1)
    ensures i > 0 ==> n.keys[i - 1] <= MinKey(n.kids[i], h - 1)
  {
    hide MaxKey, MinKey, FlatAll, Fits;
    FitsInner(n, h);
    InnerFlat(n, h);
    hide Flatten;
    var kids, g := n.kids, h - 1;
    KidAt(kids, i, g);
    MinIsFirst(kids[i], g);
    MaxIsLast(kids[i], g);
    FlatAround(kids, i, g);
    var a, b, d := FlatAll(kids[..i], g), Flatten(kids[i], g), FlatAll(kids[i + 1..], g);
    SortedParts(a, b, d);
    if i > 0 {
      KidAt(kids, i - 1, g);
      MaxIsLast(kids[i - 1], g);
      FlatAround(kids[..i], i - 1, g);
      assert kids[..i][i - 1 + 1..] == [];
      FlatNone<V>(g);
      var s := a + b + d;
      assert s[|a| - 1] == a[|a| - 1] && s[|a|] == b[0];
    }
  }
}
