/** verify() in full: the nodes, the links between neighbouring leaves, the counters, and the walk along the chain. When
    exactly a tree passes it, and when exactly inserting and erasing keep it passing. */
module StxCheck {
  import opened Options
  import opened StxTree
  import opened StxInsert
  import opened StxErase
  import opened StxVerify
  import opened StxChain
  import opened StxDb

  /* ---- Counting nodes ---- */

  function Inners<V>(n: Node<V>, h: nat): nat
    decreases h, 0
  {
    match n
    case Leaf(_, _) => 0
    case Inner(_, kids) => if h == 0 then 1 else 1 + InnersAll(kids, h - 1)
  }

  function InnersAll<V>(kids: seq<Node<V>>, h: nat): nat
    decreases h, |kids|
  {
    if kids == [] then 0 else Inners(kids[0], h) + InnersAll(kids[1..], h)
  }

  lemma {:induction false} InnersConcat<V>(a: seq<Node<V>>, b: seq<Node<V>>, h: nat)
    ensures InnersAll(a + b, h) == InnersAll(a, h) + InnersAll(b, h)
    decreases |a|
  {
    hide Inners;
    if a == [] { assert a + b == b; }
    else {
      InnersConcat(a[1..], b, h);
      assert (a + b)[1..] == a[1..] + b;
    }
  }

  lemma InnersOne<V>(n: Node<V>, h: nat)
    ensures InnersAll([n], h) == Inners(n, h)
  {
    hide Inners;
    assert [n][1..] == [];
  }

  lemma InnersAround<V>(kids: seq<Node<V>>, i: nat, c: Node<V>, h: nat)
    requires i < |kids|
    ensures InnersAll(kids[i := c], h) == InnersAll(kids[..i], h) + Inners(c, h) + InnersAll(kids[i + 1..], h)
  {
    hide Inners, InnersAll;
    InnersConcat(kids[..i] + [c], kids[i + 1..], h);
    InnersConcat(kids[..i], [c], h);
    InnersOne(c, h);
    assert kids[i := c] == kids[..i] + [c] + kids[i + 1..];
  }

  lemma InnersWith<V>(kids: seq<Node<V>>, i: nat, l: Node<V>, r: Node<V>, h: nat)
    requires i < |kids|
    ensures InnersAll(InsertAt(kids[i := l], i + 1, r), h)
         == InnersAll(kids[..i], h) + Inners(l, h) + Inners(r, h) + InnersAll(kids[i + 1..], h)
  {
    hide Inners, InnersAll;
    InnersConcat(kids[..i] + [l, r], kids[i + 1..], h);
    InnersConcat(kids[..i], [l, r], h);
    InnersConcat([l], [r], h);
    InnersOne(l, h);
    InnersOne(r, h);
    assert [l] + [r] == [l, r];
    assert InsertAt(kids[i := l], i + 1, r) == kids[..i] + [l, r] + kids[i + 1..];
  }

  /* ---- The leaves themselves, in order ---- */

  function Leaves<V>(n: Node<V>, h: nat): seq<Node<V>>
    decreases h, 0
  {
    match n
    case Leaf(_, _) => [n]
    case Inner(_, kids) => if h == 0 then [] else LeavesAll(kids, h - 1)
  }

  function LeavesAll<V>(kids: seq<Node<V>>, h: nat): seq<Node<V>>
    decreases h, |kids|
  {
    if kids == [] then [] else Leaves(kids[0], h) + LeavesAll(kids[1..], h)
  }

  function Joined<V>(ls: seq<Node<V>>): seq<Item<V>> {
    if ls == [] then [] else (match ls[0] case Leaf(_, items) => items case Inner(_, _) => []) + Joined(ls[1..])
  }

  lemma {:induction false} JoinedConcat<V>(a: seq<Node<V>>, b: seq<Node<V>>)
    ensures Joined(a + b) == Joined(a) + Joined(b)
  {
    if a == [] { assert a + b == b; }
    else {
      JoinedConcat(a[1..], b);
      assert (a + b)[1..] == a[1..] + b;
    }
  }

  ghost predicate LeavesAre<V>(ls: seq<Node<V>>, ids: seq<Id>, f: seq<Item<V>>) {
    && |ls| == |ids| && (forall i :: 0 <= i < |ls| ==> ls[i].Leaf? && ls[i].id == ids[i]) && Joined(ls) == f
  }

  /** The leaves carry the addresses, and together hold the items. */
  lemma {:induction false} LeavesOf<V>(n: Node<V>, h: nat)
    ensures LeavesAre(Leaves(n, h), Ids(n, h), Flatten(n, h))
    decreases h, 0
  {
    if n.Inner? && h > 0 { LeavesOfAll(n.kids, h - 1); }
  }

  lemma {:induction false} LeavesOfAll<V>(kids: seq<Node<V>>, h: nat)
    ensures LeavesAre(LeavesAll(kids, h), IdsAll(kids, h), FlatAll(kids, h))
    decreases h, |kids|
  {
    hide Leaves, Ids, Flatten, Joined;
    if kids == [] { JoinedNone<V>(); }
    else {
      LeavesOf(kids[0], h);
      LeavesOfAll(kids[1..], h);
      JoinedConcat(Leaves(kids[0], h), LeavesAll(kids[1..], h));
    }
  }

  lemma JoinedNone<V>()
    ensures Joined<V>([]) == []
  {}

  /* ---- The links that verify_node checks ---- */

  predicate Adjacent(c: Chain, x: Id, y: Id) {
    x in c.next && c.next[x] == y && y in c.prev && c.prev[y] == x
  }

  function LastLeaf<V>(n: Node<V>): Id { if n.Inner? && n.kids != [] then IdOf(n.kids[|n.kids| - 1]) else NONE }

  function FirstLeaf<V>(n: Node<V>): Id { if n.Inner? && n.kids != [] then IdOf(n.kids[0]) else NONE }

  /** verify_node looks at neighbouring leaves below one node of level 1, and below neighbours of one of level 2. */
  predicate NodeLinks<V>(n: Node<V>, h: nat, c: Chain)
    decreases h
  {
    n.Inner? && h > 0 ==>
      && (forall i :: 0 <= i < |n.kids| ==> NodeLinks(n.kids[i], h - 1, c))
      && (h == 1 ==> forall i {:trigger n.kids[i]} :: 0 <= i < |n.kids| - 1 ==>
            Adjacent(c, IdOf(n.kids[i]), IdOf(n.kids[i + 1])))
      && (h == 2 ==> forall i {:trigger n.kids[i]} :: 0 <= i < |n.kids| - 1 ==>
            Adjacent(c, LastLeaf(n.kids[i]), FirstLeaf(n.kids[i + 1])))
  }

  /** verify_leaflinks: from the head along the next links, over leaves of the tree, to the tail. */
  ghost predicate IsWalk<V>(ls: seq<Node<V>>, d: Db<V>, path: seq<nat>) {
    && |path| > 0 && (forall i {:trigger OnLeaf(ls, path, i)} :: 0 <= i < |path| ==> OnLeaf(ls, path, i))
    && (forall i {:trigger GoesOn(ls, d.chain, path, i)} :: 0 <= i < |path| - 1 ==> GoesOn(ls, d.chain, path, i))
    && StartsAndEnds(ls, d.chain, path) && Visited(ls, path) == d.stats.items
  }

  predicate OnLeaf<V>(ls: seq<Node<V>>, path: seq<nat>, i: nat)
    requires i < |path|
  {
    path[i] < |ls| && LeafOk(ls[path[i]])
  }

  predicate GoesOn<V>(ls: seq<Node<V>>, c: Chain, path: seq<nat>, i: nat)
    requires i + 1 < |path|
  {
    && OnLeaf(ls, path, i) && OnLeaf(ls, path, i + 1)
    && var a, b := ls[path[i]], ls[path[i + 1]];
       Adjacent(c, a.id, b.id) && a.items[|a.items| - 1].key <= b.items[0].key
  }

  predicate StartsAndEnds<V>(ls: seq<Node<V>>, c: Chain, path: seq<nat>)
    requires |path| > 0
  {
    && OnLeaf(ls, path, 0) && OnLeaf(ls, path, |path| - 1)
    && c.head == ls[path[0]].id && c.head in c.prev && c.prev[c.head] == NONE
    && c.tail == ls[path[|path| - 1]].id && c.tail in c.next && c.next[c.tail] == NONE
  }

  predicate LeafOk<V>(n: Node<V>) {
    n.Leaf? && n.items != [] && forall i :: 0 <= i < |n.items| - 1 ==> n.items[i].key <= n.items[i + 1].key
  }

  /** How many items a walk passes. */
  ghost function Visited<V>(ls: seq<Node<V>>, path: seq<nat>): nat {
    if path == [] then 0 else (if path[0] < |ls| then Use(ls[path[0]]) else 0) + Visited(ls, path[1..])
  }

  /** verify() on a tree with nodes. */
  ghost predicate VerifyTree<V>(n: Node<V>, h: nat, d: Db<V>) {
    && Verify(n, h, true) && NodeLinks(n, h, d.chain)
    && |Flatten(n, h)| == d.stats.items && |Ids(n, h)| == d.stats.leaves && Inners(n, h) == d.stats.inners
    && exists path :: IsWalk(Leaves(n, h), d, path)
  }

  /** verify(), which takes its root from the member. In the freed leaf, as it was left, verify_node misses a pair. */
  ghost predicate VerifyDb<V>(d: Db<V>) {
    match d.member
    case Null => true
    case Freed(_) => false
    case Root => d.tree.Tree? ==> VerifyTree(d.tree.root, d.tree.height, d)
  }

  /* ---- Links of neighbours ---- */

  predicate AllAdjacent(ids: seq<Id>, c: Chain) {
    forall i {:trigger ids[i]} :: 0 <= i < |ids| - 1 ==> Adjacent(c, ids[i], ids[i + 1])
  }

  lemma ChainedIsAdjacent(ids: seq<Id>, c: Chain)
    requires Chained(ids, c)
    ensures AllAdjacent(ids, c)
  {
    forall i {:trigger ids[i]} | 0 <= i < |ids| - 1 ensures Adjacent(c, ids[i], ids[i + 1]) {
      assert LinkedAt(ids, c, i) && LinkedAt(ids, c, i + 1);
    }
  }

  lemma AdjacentInside(a: seq<Id>, b: seq<Id>, d: seq<Id>, c: Chain)
    requires AllAdjacent(a + b + d, c)
    ensures AllAdjacent(b, c)
  {
    var s := a + b + d;
    forall i {:trigger b[i]} | 0 <= i < |b| - 1 ensures Adjacent(c, b[i], b[i + 1]) {
      assert s[|a| + i] == b[i] && s[|a| + i + 1] == b[i + 1];
    }
  }

  lemma AdjacentJoin(a: seq<Id>, b: seq<Id>, c: Chain)
    requires AllAdjacent(a, c) && AllAdjacent(b, c) && (a != [] && b != [] ==> Adjacent(c, a[|a| - 1], b[0]))
    ensures AllAdjacent(a + b, c)
  {
    var s := a + b;
    forall i {:trigger s[i]} | 0 <= i < |s| - 1 ensures Adjacent(c, s[i], s[i + 1]) {
      if i + 1 < |a| { assert s[i] == a[i] && s[i + 1] == a[i + 1]; }
      else if i >= |a| { assert s[i] == b[i - |a|] && s[i + 1] == b[i + 1 - |a|]; }
    }
  }

  lemma Boundary<V>(kids: seq<Node<V>>, i: nat, h: nat, c: Chain)
    requires i + 1 < |kids| && AllAdjacent(IdsAll(kids, h), c) && Ids(kids[i], h) != [] && Ids(kids[i + 1], h) != []
    ensures Adjacent(c, Ids(kids[i], h)[|Ids(kids[i], h)| - 1], Ids(kids[i + 1], h)[0])
  {
    hide Ids, IdsAll;
    IdsPair(kids, i, h);
    var x, y := Ids(kids[i], h), Ids(kids[i + 1], h);
    AdjacentInside(IdsAll(kids[..i], h), x + y, IdsAll(kids[i + 2..], h), c);
    var z := x + y;
    assert z[|x| - 1] == x[|x| - 1] && z[|x|] == y[0];
  }

  /** The first and the last leaf below a node of level 1. */
  lemma EdgeIds<V>(n: Node<V>)
    requires Fits(n, 1)
    ensures Ids(n, 1) != [] && Ids(n, 1)[0] == FirstLeaf(n) && Ids(n, 1)[|Ids(n, 1)| - 1] == LastLeaf(n)
  {
    FitsInner(n, 1);
    var kids := n.kids;
    var m := |kids| - 1;
    KidAt(kids, 0, 0);
    KidAt(kids, m, 0);
    hide IdsAll;
    IdsConcat([kids[0]], kids[1..], 0);
    assert [kids[0]] + kids[1..] == kids;
    IdsOne(kids[0], 0);
    IdsConcat(kids[..m], [kids[m]], 0);
    assert kids[..m] + [kids[m]] == kids;
    IdsOne(kids[m], 0);
  }

  lemma LevelLinks<V>(kids: seq<Node<V>>, i: nat, h: nat, c: Chain)
    requires KidsOk(kids, h) && i + 1 < |kids| && h <= 1
    ensures var x, y := Ids(kids[i], h), Ids(kids[i + 1], h);
            && x != [] && y != []
            && x[|x| - 1] == (if h == 0 then IdOf(kids[i]) else LastLeaf(kids[i]))
            && y[0] == (if h == 0 then IdOf(kids[i + 1]) else FirstLeaf(kids[i + 1]))
  {
    hide LastLeaf, FirstLeaf;
    KidAt(kids, i, h);
    KidAt(kids, i + 1, h);
    if h == 1 { EdgeIds(kids[i]); EdgeIds(kids[i + 1]); }
  }

  /** Where all neighbouring leaves are linked, verify_node finds them linked. */
  lemma {:induction false} NodeLinksHold<V>(n: Node<V>, h: nat, c: Chain)
    requires Fits(n, h) && AllAdjacent(Ids(n, h), c)
    ensures NodeLinks(n, h, c)
    decreases h
  {
    hide Fits, KidOk, KidsOk, KeysOk, LastLeaf, FirstLeaf, IdOf, Adjacent, AllAdjacent, Ids, IdsAll;
    if n.Inner? {
      FitsInner(n, h);
      IdsInner(n, h);
      forall i | 0 <= i < |n.kids| ensures NodeLinks(n.kids[i], h - 1, c) {
        KidAt(n.kids, i, h - 1);
        IdsAround(n.kids, i, n.kids[i], h - 1);
        assert n.kids[i := n.kids[i]] == n.kids;
        AdjacentInside(IdsAll(n.kids[..i], h - 1), Ids(n.kids[i], h - 1), IdsAll(n.kids[i + 1..], h - 1), c);
        NodeLinksHold(n.kids[i], h - 1, c);
      }
      if h <= 2 {
        forall i {:trigger n.kids[i]} | 0 <= i < |n.kids| - 1
          ensures if h == 1 then Adjacent(c, IdOf(n.kids[i]), IdOf(n.kids[i + 1]))
                  else Adjacent(c, LastLeaf(n.kids[i]), FirstLeaf(n.kids[i + 1])) {
          LevelLinks(n.kids, i, h - 1, c);
          Boundary(n.kids, i, h - 1, c);
        }
      }
    }
  }

  /** Up to level 2 the checks of verify_node are all there is to check. */
  lemma {:induction false} LinkedUpTo<V>(kids: seq<Node<V>>, m: nat, h: nat, c: Chain)
    requires KidsOk(kids, h) && m <= |kids| && h <= 1
    requires forall i :: 0 <= i < |kids| ==> AllAdjacent(Ids(kids[i], h), c)
    requires forall i {:trigger kids[i]} :: 0 <= i < |kids| - 1 ==>
               if h == 0 then Adjacent(c, IdOf(kids[i]), IdOf(kids[i + 1]))
               else Adjacent(c, LastLeaf(kids[i]), FirstLeaf(kids[i + 1]))
    ensures AllAdjacent(IdsAll(kids[..m], h), c)
    ensures m > 0 ==> var x, y := IdsAll(kids[..m], h), Ids(kids[m - 1], h);
            x != [] && y != [] && x[|x| - 1] == y[|y| - 1]
    decreases m
  {
    hide LastLeaf, FirstLeaf, IdOf, Adjacent, Fits, KidOk, Ids;
    if m == 0 { assert kids[..0] == []; NoIds<V>(h); }
    else {
      hide IdsAll;
      LinkedUpTo(kids, m - 1, h, c);
      if m > 1 { LevelLinks(kids, m - 2, h, c); }
      else { KidNotEmpty(kids, 0, h); assert kids[..0] == []; NoIds<V>(h); }
      var a, b := IdsAll(kids[..m - 1], h), Ids(kids[m - 1], h);
      IdsConcat(kids[..m - 1], [kids[m - 1]], h);
      IdsOne(kids[m - 1], h);
      assert kids[..m - 1] + [kids[m - 1]] == kids[..m];
      AdjacentJoin(a, b, c);
    }
  }

  lemma KidNotEmpty<V>(kids: seq<Node<V>>, i: nat, h: nat)
    requires KidsOk(kids, h) && i < |kids|
    ensures Ids(kids[i], h) != []
  {
    KidAt(kids, i, h);
    IdsNotEmpty(kids[i], h);
  }

  lemma NoIds<V>(h: nat)
    ensures IdsAll<V>([], h) == [] && forall c :: AllAdjacent([], c)
  {}

  lemma {:induction false} NodeLinksSuffice<V>(n: Node<V>, h: nat, c: Chain)
    requires Fits(n, h) && h <= 2 && NodeLinks(n, h, c)
    ensures AllAdjacent(Ids(n, h), c)
    decreases h
  {
    hide Fits, KidOk, KidsOk, KeysOk, LastLeaf, FirstLeaf, IdOf, Adjacent, IdsAll;
    if n.Inner? {
      FitsInner(n, h);
      forall i | 0 <= i < |n.kids| ensures AllAdjacent(Ids(n.kids[i], h - 1), c) {
        KidAt(n.kids, i, h - 1);
        NodeLinksSuffice(n.kids[i], h - 1, c);
      }
      LinkedUpTo(n.kids, |n.kids|, h - 1, c);
      assert n.kids[..|n.kids|] == n.kids;
      IdsInner(n, h);
    }
  }

  /* ---- The walk ---- */

  lemma {:induction false} LeavesFit<V>(n: Node<V>, h: nat, i: nat)
    requires Fits(n, h) && i < |Leaves(n, h)|
    ensures Leaves(n, h)[i].Leaf? && |Leaves(n, h)[i].items| >= if h == 0 then 1 else 2
    decreases h, 0
  {
    if n.Inner? {
      FitsInner(n, h);
      LeavesFitAll(n.kids, h - 1, i);
    }
  }

  lemma {:induction false} KidLeaves<V>(n: Node<V>, h: nat, i: nat)
    requires KidOk(n, h) && i < |Leaves(n, h)|
    ensures Leaves(n, h)[i].Leaf? && |Leaves(n, h)[i].items| >= 2
    decreases h, 1
  {
    hide KidsOk, KeysOk;
    LeavesFit(n, h, i);
  }

  lemma {:induction false} LeavesFitAll<V>(kids: seq<Node<V>>, h: nat, i: nat)
    requires KidsOk(kids, h) && i < |LeavesAll(kids, h)|
    ensures LeavesAll(kids, h)[i].Leaf? && |LeavesAll(kids, h)[i].items| >= 2
    decreases h, |kids| + 2
  {
    hide Leaves, Fits;
    KidAt(kids, 0, h);
    var m := |Leaves(kids[0], h)|;
    if i < m { KidLeaves(kids[0], h, i); }
    else {
      assert KidsOk(kids[1..], h) by {
        var rest := kids[1..];
        forall j {:trigger rest[j]} | 0 <= j < |rest| ensures KidOk(rest[j], h) { assert rest[j] == kids[j + 1]; }
      }
      LeavesFitAll(kids[1..], h, i - m);
    }
  }

  lemma JoinedAround<V>(ls: seq<Node<V>>, i: nat)
    requires i < |ls| && ls[i].Leaf?
    ensures Joined(ls) == Joined(ls[..i]) + ls[i].items + Joined(ls[i + 1..])
  {
    hide Joined;
    JoinedConcat(ls[..i] + [ls[i]], ls[i + 1..]);
    JoinedConcat(ls[..i], [ls[i]]);
    JoinedOne(ls[i]);
    assert ls == ls[..i] + [ls[i]] + ls[i + 1..];
  }

  lemma JoinedOne<V>(n: Node<V>)
    requires n.Leaf?
    ensures Joined([n]) == n.items
  {
    assert [n][1..] == [];
  }

  lemma LeavesInOrder<V>(ls: seq<Node<V>>, i: nat)
    requires Sorted(Joined(ls)) && i < |ls| && ls[i].Leaf? && ls[i].items != []
    ensures LeafOk(ls[i])
    ensures i + 1 < |ls| && ls[i + 1].Leaf? && ls[i + 1].items != [] ==>
            ls[i].items[|ls[i].items| - 1].key <= ls[i + 1].items[0].key
  {
    JoinedAround(ls, i);
    var a, b := Joined(ls[..i]), ls[i].items;
    SortedParts(a, b, Joined(ls[i + 1..]));
    if i + 1 < |ls| && ls[i + 1].Leaf? && ls[i + 1].items != [] {
      JoinedAround(ls[i + 1..], 0);
      assert ls[i + 1..][..0] == [] && ls[i + 1..][0] == ls[i + 1];
      var s := Joined(ls);
      assert s[|a| + |b| - 1] == b[|b| - 1] && s[|a| + |b|] == ls[i + 1].items[0];
    }
  }

  function UpTo(m: nat, n: nat): (r: seq<nat>)
    requires m <= n
    ensures |r| == n - m && forall i :: 0 <= i < n - m ==> r[i] == m + i
  {
    seq(n - m, i requires 0 <= i < n - m => m + i)
  }

  lemma {:induction false} VisitsAll<V>(ls: seq<Node<V>>, m: nat)
    requires m <= |ls| && forall i :: 0 <= i < |ls| ==> ls[i].Leaf?
    ensures Visited(ls, UpTo(m, |ls|)) == |Joined(ls[m..])|
    decreases |ls| - m
  {
    if m < |ls| {
      VisitsAll(ls, m + 1);
      assert UpTo(m, |ls|)[1..] == UpTo(m + 1, |ls|);
      assert ls[m..][1..] == ls[m + 1..];
    }
  }

  ghost predicate EndsRight(ids: seq<Id>, c: Chain) {
    ids != [] && c.head == ids[0] && c.tail == ids[|ids| - 1]
  }

  lemma LeafInTree<V>(n: Node<V>, h: nat, i: nat)
    requires Valid(n, h) && i < |Ids(n, h)|
    ensures var ls := Leaves(n, h);
            && |ls| == |Ids(n, h)| && LeafOk(ls[i]) && ls[i].id == Ids(n, h)[i]
            && (i + 1 < |ls| ==> LeafOk(ls[i + 1]) && ls[i].items[|ls[i].items| - 1].key <= ls[i + 1].items[0].key)
  {
    hide Leaves, Ids, Flatten, Fits, Joined, Sorted, LeafOk;
    var ls := Leaves(n, h);
    LeavesOf(n, h);
    LeavesFit(n, h, i);
    LeavesInOrder(ls, i);
    if i + 1 < |ls| { LeavesFit(n, h, i + 1); LeavesInOrder(ls, i + 1); }
  }

  /** Walking along the chain of a valid tree passes verify_leaflinks. */
  lemma WalkHolds<V>(d: Db<V>, n: Node<V>, h: nat)
    requires Valid(n, h) && Chained(Ids(n, h), d.chain) && EndsRight(Ids(n, h), d.chain) &&
             d.stats.items == |Flatten(n, h)|
    ensures IsWalk(Leaves(n, h), d, UpTo(0, |Ids(n, h)|))
  {
    hide Leaves, Ids, Flatten, Valid, Joined, Visited, LeafOk, Chained;
    var ls, ids, c := Leaves(n, h), Ids(n, h), d.chain;
    var path := UpTo(0, |ids|);
    LeavesOf(n, h);
    ChainedIsAdjacent(ids, c);
    forall i {:trigger OnLeaf(ls, path, i)} | 0 <= i < |path| ensures OnLeaf(ls, path, i) { LeafInTree(n, h, i); }
    forall i {:trigger GoesOn(ls, c, path, i)} | 0 <= i < |path| - 1 ensures GoesOn(ls, c, path, i) {
      LeafInTree(n, h, i);
      LeafInTree(n, h, i + 1);
      assert Adjacent(c, ids[i], ids[i + 1]);
    }
    assert StartsAndEnds(ls, c, path) by {
      ChainEnds(ids, c);
      assert OnLeaf(ls, path, 0) && OnLeaf(ls, path, |path| - 1);
      LeafInTree(n, h, |ids| - 1);
      LeafInTree(n, h, 0);
    }
    VisitsAll(ls, 0);
    assert ls[0..] == ls;
  }

  lemma ChainEnds(ids: seq<Id>, c: Chain)
    requires Chained(ids, c) && ids != []
    ensures ids[0] in c.prev && c.prev[ids[0]] == NONE && ids[|ids| - 1] in c.next && c.next[ids[|ids| - 1]] == NONE
  {
    assert LinkedAt(ids, c, 0) && LinkedAt(ids, c, |ids| - 1);
  }

  /** Only the first leaf has none before it, and only the last none behind it. */
  lemma OnlyEnds(ids: seq<Id>, c: Chain, x: nat, y: nat)
    requires Chained(ids, c) && x < |ids| && y < |ids|
    requires ids[x] in c.prev && c.prev[ids[x]] == NONE && ids[y] in c.next && c.next[ids[y]] == NONE
    ensures x == 0 && y == |ids| - 1
  {
    var p, q := if x > 0 then x - 1 else 0, if y + 1 < |ids| then y + 1 else y;
    assert LinkedAt(ids, c, x) && LinkedAt(ids, c, y) && LinkedAt(ids, c, p) && LinkedAt(ids, c, q);
  }

  /** And a walk that passes starts at the first leaf and ends at the last one. */
  lemma WalkMeansEnds<V>(d: Db<V>, n: Node<V>, h: nat, path: seq<nat>)
    requires Chained(Ids(n, h), d.chain) && IsWalk(Leaves(n, h), d, path)
    ensures EndsRight(Ids(n, h), d.chain)
  {
    hide Leaves, Ids, Flatten, Joined, Visited, LeafOk;
    LeavesOf(n, h);
    var ids := Ids(n, h);
    var x, y := path[0], path[|path| - 1];
    assert LinkedAt(ids, d.chain, x) && LinkedAt(ids, d.chain, y);
    OnlyEnds(ids, d.chain, x, y);
  }

  /** Exactly when verify() passes, for a tree whose leaves are chained and whose items are counted. */
  lemma VerifyIff<V>(d: Db<V>)
    requires Sound(d) && d.tree.Tree?
    ensures var Tree(n, h) := d.tree;
            VerifyDb(d) <==>
            Valid(n, h) && EndsRight(Ids(n, h), d.chain) && d.stats.leaves == |Ids(n, h)| &&
              d.stats.inners == Inners(n, h)
  {
    hide Leaves, Ids, Flatten, Inners, IsWalk, Verify, NodeLinks, Chained;
    var Tree(n, h) := d.tree;
    if VerifyDb(d) {
      VerifiedIsValid(n, h, true);
      var path :| IsWalk(Leaves(n, h), d, path);
      WalkMeansEnds(d, n, h, path);
    }
    if Valid(n, h) && EndsRight(Ids(n, h), d.chain) && d.stats.leaves == |Ids(n, h)| && d.stats.inners == Inners(n, h) {
      ValidIsVerified(n, h, true);
      ChainedIsAdjacent(Ids(n, h), d.chain);
      NodeLinksHold(n, h, d.chain);
      WalkHolds(d, n, h);
    }
  }

  lemma AdjacentIsChained(ids: seq<Id>, c: Chain, i: nat, j: nat)
    requires NoRepeat(ids) && NONE !in ids && AllAdjacent(ids, c) && i < |ids| && j < |ids|
    requires ids[i] in c.prev && c.prev[ids[i]] == NONE && ids[j] in c.next && c.next[ids[j]] == NONE
    ensures Chained(ids, c) && i == 0 && j == |ids| - 1
  {
    var p, q := if i > 0 then i - 1 else 0, if j + 1 < |ids| then j else 0;
    assert |ids| > 1 ==> Adjacent(c, ids[p], ids[p + 1]) && Adjacent(c, ids[q], ids[q + 1]);
    assert ids[p] in ids && ids[j] in ids;
    forall m {:trigger LinkedAt(ids, c, m)} | 0 <= m < |ids| ensures LinkedAt(ids, c, m) {
      assert ids[m] in ids;
      if m > 0 { assert Adjacent(c, ids[m - 1], ids[m]); }
      if m < |ids| - 1 { assert Adjacent(c, ids[m], ids[m + 1]); }
    }
  }

  /* ---- A walk over distinct keys ---- */

  /** Leaf by leaf, the keys of distinct items rise. */
  lemma LeavesRise<V>(ls: seq<Node<V>>, x: nat, y: nat)
    requires Distinct(Joined(ls)) && x <= y < |ls| && ls[x].Leaf? && ls[y].Leaf? && |ls[x].items| > 0
    requires |ls[y].items| > if x == y then 1 else 0
    ensures ls[x].items[0].key < ls[y].items[|ls[y].items| - 1].key
  {
    hide Joined;
    var f := Joined(ls);
    JoinedAround(ls, x);
    JoinedAround(ls, y);
    var i, j := |Joined(ls[..x])|, |Joined(ls[..y])| + |ls[y].items| - 1;
    if x < y {
      JoinedAround(ls[..y], x);
      assert ls[..y][..x] == ls[..x];
    }
    assert f[i] == ls[x].items[0] && f[j] == ls[y].items[|ls[y].items| - 1];
  }

  ghost predicate Filled<V>(ls: seq<Node<V>>, m: nat) {
    forall i :: 0 <= i < |ls| ==> ls[i].Leaf? && |ls[i].items| >= m
  }

  ghost predicate Ascends(ls: nat, path: seq<nat>) {
    && (forall i :: 0 <= i < |path| ==> path[i] < ls)
    && (forall i {:trigger path[i]} :: 0 <= i < |path| - 1 ==> path[i] < path[i + 1])
  }

  lemma {:induction false} JoinedDrop<V>(ls: seq<Node<V>>, a: nat, b: nat)
    requires Filled(ls, 1) && a <= b <= |ls|
    ensures |Joined(ls[a..])| >= |Joined(ls[b..])| + (b - a)
    decreases b - a
  {
    if a < b {
      JoinedDrop(ls, a + 1, b);
      assert ls[a..][1..] == ls[a + 1..];
    }
  }

  /** A rising walk passes every item only when it passes every leaf. */
  lemma {:induction false} VisitsSome<V>(ls: seq<Node<V>>, path: seq<nat>)
    requires Filled(ls, 1) && path != [] && Ascends(|ls|, path)
    ensures Visited(ls, path) <= |Joined(ls[path[0]..])|
    ensures Visited(ls, path) == |Joined(ls[path[0]..])| ==> path == UpTo(path[0], |ls|)
  {
    hide Joined, Visited, Filled, Ascends;
    var a, rest := path[0], path[1..];
    FirstVisited(ls, path);
    if rest == [] {
      JoinedDrop(ls, a + 1, |ls|);
    } else {
      AscendsFurther(|ls|, path);
      VisitsSome(ls, rest);
      JoinedDrop(ls, a + 1, rest[0]);
    }
    if a + 1 == |ls| || (rest != [] && rest == UpTo(a + 1, |ls|)) { assert path == UpTo(a, |ls|); }
  }

  lemma FirstVisited<V>(ls: seq<Node<V>>, path: seq<nat>)
    requires Filled(ls, 1) && path != [] && Ascends(|ls|, path)
    ensures path[0] < |ls| && Visited<V>(ls, []) == 0
    ensures Visited(ls, path) == |ls[path[0]].items| + Visited(ls, path[1..])
    ensures |Joined(ls[path[0]..])| == |ls[path[0]].items| + |Joined(ls[path[0] + 1..])|
  {
    assert ls[path[0]..][1..] == ls[path[0] + 1..];
  }

  lemma AscendsFurther(ls: nat, path: seq<nat>)
    requires Ascends(ls, path) && |path| > 1
    ensures Ascends(ls, path[1..]) && path[0] < path[1]
  {
    var rest := path[1..];
    forall i {:trigger rest[i]} | 0 <= i < |rest| - 1 ensures rest[i] < rest[i + 1] {
      assert path[i + 1] < path[i + 2];
    }
  }

  lemma WalkRises<V>(ls: seq<Node<V>>, d: Db<V>, path: seq<nat>)
    requires IsWalk(ls, d, path) && Filled(ls, 2) && Distinct(Joined(ls))
    ensures Ascends(|ls|, path)
  {
    hide Joined, Visited, Adjacent, Distinct;
    forall i | 0 <= i < |path| ensures path[i] < |ls| { assert OnLeaf(ls, path, i); }
    forall i {:trigger path[i]} | 0 <= i < |path| - 1 ensures path[i] < path[i + 1] {
      assert GoesOn(ls, d.chain, path, i);
      if path[i + 1] <= path[i] { LeavesRise(ls, path[i + 1], path[i]); }
    }
  }

  /** Over distinct keys the walk of verify() passes all leaves, in order. */
  lemma WalkIsInOrder<V>(d: Db<V>, n: Node<V>, h: nat, path: seq<nat>)
    requires Fits(n, h) && h > 0 && Distinct(Flatten(n, h)) && d.stats.items == |Flatten(n, h)|
    requires IsWalk(Leaves(n, h), d, path)
    ensures AllAdjacent(Ids(n, h), d.chain)
  {
    hide Leaves, Ids, Flatten, Fits, Joined, Visited, Adjacent, Distinct, LeafOk;
    var ls, ids := Leaves(n, h), Ids(n, h);
    LeavesOf(n, h);
    forall i | 0 <= i < |ls| ensures ls[i].Leaf? && |ls[i].items| >= 2 { LeavesFit(n, h, i); }
    WalkRises(ls, d, path);
    VisitsSome(ls, path);
    JoinedDrop(ls, 0, path[0]);
    assert ls[0..] == ls;
    forall i {:trigger ids[i]} | 0 <= i < |ids| - 1 ensures Adjacent(d.chain, ids[i], ids[i + 1]) {
      assert GoesOn(ls, d.chain, path, i);
    }
  }

  /** A tree that passes verify() is valid and counted right. Its leaves are chained in order when it has at most two
      levels above them, or distinct keys: higher up verify() compares links between subtrees only in its walk, and that
      by key. */
  lemma VerifiedIsSound<V>(d: Db<V>)
    requires VerifyDb(d) && d.tree.Tree? && RootsOk(d) && NoRepeat(LeafIds(d.tree)) && NONE !in LeafIds(d.tree)
    ensures var Tree(n, h) := d.tree;
            && Valid(n, h) && d.stats == Stats(|Flatten(n, h)|, |Ids(n, h)|, Inners(n, h))
            && (h <= 2 || Distinct(Flatten(n, h)) ==> Sound(d) && EndsRight(Ids(n, h), d.chain))
  {
    hide Leaves, Ids, Flatten, Inners, Verify, NodeLinks, Chained, IsWalk, Fits, NoRepeat, Distinct;
    var Tree(n, h) := d.tree;
    VerifiedIsValid(n, h, true);
    var path :| IsWalk(Leaves(n, h), d, path);
    if h <= 2 || Distinct(Flatten(n, h)) {
      if h <= 2 { NodeLinksSuffice(n, h, d.chain); } else { WalkIsInOrder(d, n, h, path); }
      WalkChains(d, n, h, path);
    }
  }

  lemma WalkChains<V>(d: Db<V>, n: Node<V>, h: nat, path: seq<nat>)
    requires AllAdjacent(Ids(n, h), d.chain) && NoRepeat(Ids(n, h)) && NONE !in Ids(n, h) &&
             IsWalk(Leaves(n, h), d, path)
    ensures Chained(Ids(n, h), d.chain) && EndsRight(Ids(n, h), d.chain)
  {
    hide Leaves, Ids, Flatten, Joined, Visited, LeafOk, NoRepeat, AllAdjacent, Chained;
    LeavesOf(n, h);
    AdjacentIsChained(Ids(n, h), d.chain, path[0], path[|path| - 1]);
  }

  /* ---- When inserting and erasing keep verify() passing ---- */

  /** How many inner nodes insert_descend allocates: every full node above a split child is split. */
  function Allocated<V>(n: Node<V>, h: nat, k: Key, v: V, spare: Id): nat
    requires Fits(n, h) || IsFresh(n, h)
    decreases h
  {
    match n
    case Leaf(_, _) => 0
    case Inner(keys, kids) =>
      var slot := Lower(keys, k);
      KidAt(kids, slot, h - 1);
      Allocated(kids[slot], h - 1, k, v, spare)
      + if Insert(kids[slot], h - 1, k, v, spare).Two? && |keys| == INNER_MAX then 1 else 0
  }

  function InnersOf<V>(r: Ins<V>, n: Node<V>, h: nat): nat {
    match r
    case Kept => Inners(n, h)
    case One(c) => Inners(c, h)
    case Two(l, _, c) => Inners(l, h) + Inners(c, h)
  }

  lemma {:induction false} InsertInners<V>(n: Node<V>, h: nat, k: Key, v: V, spare: Id)
    requires Fits(n, h) || IsFresh(n, h)
    ensures InnersOf(Insert(n, h, k, v, spare), n, h) == Inners(n, h) + Allocated(n, h, k, v, spare)
    decreases h
  {
    hide LowerItem, Lower, InsertAt, KidsOk, KeysOk, InsertInner;
    if n.Leaf? { hide InsertLeaf; LeafInners(n.id, n.items, k, v, spare); }
    else {
      FitsInner(n, h);
      var slot := Lower(n.keys, k);
      KidAt(n.kids, slot, h - 1);
      InsertInners(n.kids[slot], h - 1, k, v, spare);
      InsertedInners(n, h, slot, Insert(n.kids[slot], h - 1, k, v, spare));
    }
  }

  lemma LeafInners<V>(id: Id, items: seq<Item<V>>, k: Key, v: V, spare: Id)
    ensures InnersOf(InsertLeaf(id, items, k, v, spare), Leaf(id, items), 0) == 0
  {
    hide LowerItem, InsertAt;
  }

  lemma InsertedInners<V>(n: Node<V>, h: nat, slot: nat, r: Ins<V>)
    requires n.Inner? && h > 0 && slot <= |n.keys| <= INNER_MAX && |n.kids| == |n.keys| + 1
    ensures InnersOf(match r
                     case Kept => Kept
                     case One(c) => One(Inner(n.keys, n.kids[slot := c]))
                     case Two(l, key, c) => InsertInner(n.keys, n.kids[slot := l], slot, key, c), n, h)
         == Inners(n, h) - Inners(n.kids[slot], h - 1) + InnersOf(r, n.kids[slot], h - 1)
            + if r.Two? && |n.keys| == INNER_MAX then 1 else 0
  {
    hide InnersAll, InsertAt;
    InnersAround(n.kids, slot, n.kids[slot], h - 1);
    assert n.kids[slot := n.kids[slot]] == n.kids;
    match r
    case Kept =>
    case One(c) => InnersAround(n.kids, slot, c, h - 1);
    case Two(l, key, c) =>
      InnersWith(n.kids, slot, l, c, h - 1);
      InnerInners(n.keys, n.kids[slot := l], slot, key, c, n, h);
  }

  lemma InnerInners<V>(keys: seq<Key>, kids: seq<Node<V>>, slot: nat, key: Key, kid: Node<V>, n: Node<V>, h: nat)
    requires slot <= |keys| <= INNER_MAX && |kids| == |keys| + 1 && h > 0
    ensures InnersOf(InsertInner(keys, kids, slot, key, kid), n, h)
         == InnersAll(InsertAt(kids, slot + 1, kid), h - 1) + (if |keys| == INNER_MAX then 2 else 1)
  {
    hide InnersAll, InsertAt;
    if |keys| == INNER_MAX {
      var m := SplitIsCut(keys, kids, slot, key, kid);
      hide InsertInner;
      var all := InsertAt(kids, slot + 1, kid);
      InnersConcat(all[..m + 1], all[m + 1..], h - 1);
      assert all[..m + 1] + all[m + 1..] == all;
    }
  }

  /** How many inner nodes insert allocates in all: a split root gets a new one above it. */
  function RootAllocated<V>(n: Node<V>, h: nat, k: Key, v: V, spare: Id): nat
    requires Fits(n, h) || IsFresh(n, h)
  {
    Allocated(n, h, k, v, spare) + if Insert(n, h, k, v, spare).Two? then 1 else 0
  }

  lemma RootInners<V>(n: Node<V>, h: nat, k: Key, v: V, spare: Id)
    requires Fits(n, h) || IsFresh(n, h)
    ensures var (m, g) := InsertRoot(n, h, k, v, spare); Inners(m, g) == Inners(n, h) + RootAllocated(n, h, k, v, spare)
  {
    hide Insert, Allocated;
    InsertInners(n, h, k, v, spare);
    match Insert(n, h, k, v, spare)
    case Kept =>
    case One(_) =>
    case Two(l, key, r) =>
      InnersConcat([l], [r], h);
      InnersOne(l, h);
      InnersOne(r, h);
      assert [l] + [r] == [l, r];
  }

  /** A tree that passes verify() passes it again after an insert if and only if the insert allocated no inner node: the
      code never counts those. */
  lemma InsertReverifies<V>(d: Db<V>, k: Key, v: V, spare: Id)
    requires Sound(d) && d.tree.Tree? && VerifyDb(d) && spare !in LeafIds(d.tree) && spare != NONE
    ensures var Tree(n, h) := d.tree;
            && (Fits(n, h) || IsFresh(n, h)) && Sound(InsertDb(d, k, v, spare))
            && (VerifyDb(InsertDb(d, k, v, spare)) <==> RootAllocated(n, h, k, v, spare) == 0)
  {
    hide VerifyDb, Inners, Ids, Chained, Valid, IsFresh, Fits, RootAllocated, Splits, LeafFor, Insert;
    VerifyIff(d);
    InsertSound(d, k, v, spare);
    VerifyIff(InsertDb(d, k, v, spare));
    var Tree(n, h) := d.tree;
    ValidFits(n, h);
    RootInners(n, h, k, v, spare);
  }

  /** An erasure that merges no leaf frees no inner node. */
  lemma {:induction false} NoMergeKeepsInners<V>(n: Node<V>, h: nat, k: Key, left: Option<Node<V>>,
                                                 right: Option<Node<V>>)
    requires Erasable(n, h)
    requires Erase(n, h, k, left, right).Gone? && Erase(n, h, k, left, right).merged.None?
    ensures var m := Erase(n, h, k, left, right).node;
            Inners(m, h) == Inners(n, h) && (n.Inner? ==> m.Inner? && Use(m) == Use(n))
    decreases h
  {
    hide Erase, Fits, Flatten, Sorted, InnersAll, MergedLeaves, Erased, AfterErase, Repaired, TakeLast;
    if n.Leaf? { ErasedLeaf(n, h, k, left, right); return; }
    var slot, l, r, far, fir := EraseInner(n, h, k, left, right);
    var e := Erase(n.kids[slot], h - 1, k, l, r);
    NoMergeKeepsInners(n.kids[slot], h - 1, k, l, r) by { KidUse(n.kids[slot], h - 1); }
    var keys', kids' := TakeLast(n.keys, slot, e.last), n.kids[slot := e.node];
    InnersAround(n.kids, slot, n.kids[slot], h - 1);
    assert n.kids[slot := n.kids[slot]] == n.kids;
    InnersAround(n.kids, slot, e.node, h - 1);
    UnmergedRepair(keys', kids', slot, h - 1, far, fir) by { SameUse(n.kids[slot], h - 1, e.node); }
  }

  lemma KidUse<V>(n: Node<V>, h: nat)
    requires Use(n) >= MinUse(h)
    ensures Use(n) >= if h == 0 then 2 else 1
  {}

  lemma SameUse<V>(n: Node<V>, h: nat, m: Node<V>)
    requires Fits(n, h) && Use(n) >= MinUse(h) && (n.Inner? ==> Use(m) == Use(n))
    ensures h > 0 ==> Use(m) >= MinUse(h)
  {}

  lemma ErasedLeaf<V>(n: Node<V>, h: nat, k: Key, left: Option<Node<V>>, right: Option<Node<V>>)
    requires n.Leaf? && Erasable(n, h)
    requires Erase(n, h, k, left, right).Gone?
    ensures Erase(n, h, k, left, right).node.Leaf?
  {
    hide LowerItem, Erased;
  }

  lemma {:induction false} LeavesHaveNoInners<V>(kids: seq<Node<V>>)
    requires forall i :: 0 <= i < |kids| ==> kids[i].Leaf?
    ensures InnersAll(kids, 0) == 0
  {
    if kids != [] { LeavesHaveNoInners(kids[1..]); }
  }

  lemma UnmergedRepair<V>(keys: seq<Key>, kids: seq<Node<V>>, slot: nat, h: nat, far: Option<Node<V>>,
                          fir: Option<Node<V>>)
    requires AfterErase(keys, kids, slot, h) && MergedLeaves(kids, slot, h, far, fir).None? &&
             (h > 0 ==> Use(kids[slot]) >= MinUse(h))
    ensures var m := Repaired(keys, kids, slot, h, far, fir);
            |m.keys| == |keys| && InnersAll(m.kids, h) == InnersAll(kids, h)
  {
    hide InnersAll, MaxKey, FlatAll, Flatten;
    if Use(kids[slot]) < MinUse(h) {
      RebalanceReady(keys, kids, slot, h);
      var ls, rs := SideOf(KidAtSlot(kids, slot - 1), far), SideOf(KidAtSlot(kids, slot + 1), fir);
      RepairIsLocal(ls, rs, MinUse(h));
      var m := Repaired(keys, kids, slot, h, far, fir);
      AllLeaves(kids, slot);
      LeavesHaveNoInners(kids);
      forall i | 0 <= i < |m.kids| ensures m.kids[i].Leaf? { KidAt(m.kids, i, 0); }
      LeavesHaveNoInners(m.kids);
    }
  }

  lemma AllLeaves<V>(kids: seq<Node<V>>, slot: nat)
    requires slot < |kids| && Fits(kids[slot], 0) && KidsOk(kids[..slot], 0) && KidsOk(kids[slot + 1..], 0)
    ensures forall i :: 0 <= i < |kids| ==> kids[i].Leaf?
  {
    forall i | 0 <= i < |kids| ensures kids[i].Leaf? {
      if i < slot { KidAt(kids[..slot], i, 0); } else if i > slot { KidAt(kids[slot + 1..], i - slot - 1, 0); }
    }
  }

  /** A tree that passes verify() passes it again after an erasure that leaves a pair if and only if the erasure merged
      no leaf: the code never uncounts a leaf. A tree it empties passes; one that was empty already does not. */
  lemma EraseReverifies<V>(d: Db<V>, k: Key)
    requires Sound(d) && VerifyDb(d)
    ensures var (e, found) := EraseDb(d, k);
            Sound(e) && (VerifyDb(e) <==> d.tree.Tree? && (!found || e.tree.Empty? || Merged(d.tree, k).None?))
  {
    hide Inners, Ids, Chained, Valid, IsFresh, Fits, Merged, EraseOne, Verify, NodeLinks, IsWalk, Leaves;
    EraseSound(d, k);
    var (e, found) := EraseDb(d, k);
    if found && e.tree.Tree? {
      VerifyIff(d);
      VerifyIff(e);
      ErasedValid(d, k);
      if Merged(d.tree, k).None? { NoMergeSameInners(d.tree, k); }
    }
  }

  lemma ErasedValid<V>(d: Db<V>, k: Key)
    requires Sound(d) && d.tree.Tree? && EraseOne(d.tree, k).1 && EraseOne(d.tree, k).0.Tree?
    ensures var u := EraseOne(d.tree, k).0; Valid(u.root, u.height)
  {
    hide LowerItem, Sorted, MaxKey, FlatAll, KidsOk, KeysOk, Flatten, Erase;
    EraseIsRemove(d.tree, k);
    var u := EraseOne(d.tree, k).0;
    if IsFresh(u.root, u.height) { ErasedNotFresh(d.tree, k); }
  }

  lemma ErasedNotFresh<V>(t: Tree<V>, k: Key)
    requires TreeOk(t) && t.Tree? && EraseOne(t, k).1 && EraseOne(t, k).0.Tree?
    ensures !IsFresh(EraseOne(t, k).0.root, EraseOne(t, k).0.height)
  {
    hide LowerItem, Sorted, MaxKey, FlatAll, KeysOk, Flatten;
    var Tree(n, h) := t;
    var m := Erase(n, h, k, None, None).node;
    hide Erase;
    if m.Inner? && m.keys == [] { Collapse(m, h); }
  }

  lemma NoMergeSameInners<V>(t: Tree<V>, k: Key)
    requires TreeOk(t) && t.Tree? && EraseOne(t, k).1 && EraseOne(t, k).0.Tree? && Merged(t, k).None?
    ensures var u := EraseOne(t, k).0; Inners(u.root, u.height) == Inners(t.root, t.height)
  {
    hide LowerItem, Sorted, MaxKey, FlatAll, KeysOk, Flatten, Inners;
    var Tree(n, h) := t;
    hide Erase;
    NoMergeKeepsInners(n, h, k, None, None);
  }

  /* ---- Runs ---- */

  datatype Op<V> = Put(k: Key, v: V, spare: Id) | Del(k: Key)

  /** An insert that does not start from a live root writes into a freed page; what becomes of it is not modelled. */
  ghost predicate DbStep<V>(d: Db<V>, op: Op<V>, e: Db<V>) {
    && Sound(d)
    && match op
       case Put(k, v, spare) =>
         StartsLive(d) && spare !in LeafIds(d.tree) && spare != NONE && e == InsertDb(d, k, v, spare)
       case Del(k) => e == EraseDb(d, k).0
  }

  ghost predicate DbRun<V>(ds: seq<Db<V>>, ops: seq<Op<V>>, id: Id) {
    && |ds| == |ops| + 1 && id != NONE && ds[0] == NewDb(id)
    && forall i :: 0 <= i < |ops| ==> DbStep(ds[i], ops[i], ds[i + 1])
  }

  lemma StepSound<V>(d: Db<V>, op: Op<V>, e: Db<V>)
    requires DbStep(d, op, e)
    ensures Sound(e) && e.stats.inners == d.stats.inners && (d.chain.head == NONE ==> e.chain.head == NONE)
    ensures (d.stats.leaves >= |LeafIds(d.tree)| ==> e.stats.leaves >= |LeafIds(e.tree)|)
    ensures d.tree.Empty? ==> e.tree.Empty? && e.member.Freed?
    ensures d.tree.Tree? && e.tree.Empty? ==> e.member.Null?
  {
    hide Sound, InsertDb, EraseDb, LeafIds;
    match op
    case Put(k, v, spare) => LiveIsTree(d); InsertSound(d, k, v, spare);
    case Del(k) =>
      EraseSound(d, k);
      HeadAfterErase(d, k);
  }

  lemma LiveIsTree<V>(d: Db<V>)
    requires Sound(d)
    ensures StartsLive(d) <==> d.tree.Tree?
  {
    hide TreeOk, Chained;
  }

  lemma HeadAfterErase<V>(d: Db<V>, k: Key)
    requires Sound(d)
    ensures var e := EraseDb(d, k).0; e.chain.head == d.chain.head || e.chain.head == NONE
    ensures var e := EraseDb(d, k).0; d.tree.Empty? ==> e == d.(member := d.catalog) && e.member.Freed?
    ensures var e := EraseDb(d, k).0; d.tree.Tree? && e.tree.Empty? ==> e.member.Null?
    ensures var e := EraseDb(d, k).0; e.tree.Empty? ==> LeafIds(e.tree) == []
  {
    hide Chained, TreeOk, Erase;
    if Merged(d.tree, k).Some? { HeadStays(d.chain, Merged(d.tree, k).value.0, Merged(d.tree, k).value.1); }
  }

  /** In every run of inserts and erasures the leaves stay chained in order and the items counted; inner nodes are never
      counted, and the head is never set. */
  lemma {:induction false} RunSound<V>(ds: seq<Db<V>>, ops: seq<Op<V>>, id: Id, i: nat)
    requires DbRun(ds, ops, id) && i < |ds|
    ensures Sound(ds[i]) && ds[i].stats.inners == 0 && ds[i].chain.head == NONE
    ensures ds[i].stats.leaves >= |LeafIds(ds[i].tree)|
  {
    hide Sound, DbStep;
    if i == 0 { NewIsSound<V>(id); }
    else {
      RunSound(ds, ops, id, i - 1);
      assert DbStep(ds[i - 1], ops[i - 1], ds[i]);
      StepSound(ds[i - 1], ops[i - 1], ds[i]);
    }
  }

  /** Step i erased the last pair. */
  ghost predicate Empties<V>(ds: seq<Db<V>>, i: nat) {
    i + 1 < |ds| && ds[i].tree.Tree? && ds[i + 1].tree.Empty?
  }

  /** An operation starts from a live root if and only if no erasure before it has emptied the tree. */
  lemma {:induction false} StartsLiveIff<V>(ds: seq<Db<V>>, ops: seq<Op<V>>, id: Id, i: nat)
    requires DbRun(ds, ops, id) && i < |ds|
    ensures StartsLive(ds[i]) <==> forall j {:trigger Empties(ds, j)} :: 0 <= j < i ==> !Empties(ds, j)
  {
    hide Sound, DbStep, StartsLive;
    RunSound(ds, ops, id, i);
    LiveIsTree(ds[i]);
    if i > 0 {
      StartsLiveIff(ds, ops, id, i - 1);
      RunSound(ds, ops, id, i - 1);
      LiveIsTree(ds[i - 1]);
      assert DbStep(ds[i - 1], ops[i - 1], ds[i]);
      StepSound(ds[i - 1], ops[i - 1], ds[i]);
      if StartsLive(ds[i - 1]) && !StartsLive(ds[i]) { assert Empties(ds, i - 1); }
      if StartsLive(ds[i]) { assert !Empties(ds, i - 1); }
    }
  }

  /** verify() passes in a run exactly right after the erasure that emptied the tree. Before that its walk has no head
      to start from, and after the next operation its root is the freed leaf. */
  lemma RunVerifies<V>(ds: seq<Db<V>>, ops: seq<Op<V>>, id: Id, i: nat)
    requires DbRun(ds, ops, id) && i < |ds|
    ensures VerifyDb(ds[i]) <==> i > 0 && Empties(ds, i - 1)
  {
    hide Sound, DbStep, VerifyTree, Valid, Inners, Ids;
    RunSound(ds, ops, id, i);
    if ds[i].tree.Tree? {
      VerifyIff(ds[i]);
      NoNone(ds[i]);
      RootsAre(ds[i]);
    } else {
      RunSound(ds, ops, id, i - 1);
      assert DbStep(ds[i - 1], ops[i - 1], ds[i]);
      StepSound(ds[i - 1], ops[i - 1], ds[i]);
    }
  }

  lemma RootsAre<V>(d: Db<V>)
    requires Sound(d)
    ensures RootsOk(d)
  {
    hide TreeOk, Chained;
  }

  lemma NoNone<V>(d: Db<V>)
    requires Sound(d) && d.tree.Tree?
    ensures NONE !in Ids(d.tree.root, d.tree.height)
  {
    hide TreeOk, Ids;
    var ids := Ids(d.tree.root, d.tree.height);
    forall i | 0 <= i < |ids| ensures ids[i] != NONE { assert LinkedAt(ids, d.chain, i); }
  }

  /** One insert into a new tree, and verify() fails. */
  lemma FirstInsertFailsVerify<V>(id: Id, k: Key, v: V, spare: Id)
    requires id != NONE && spare != NONE && spare != id
    ensures Sound(InsertDb(NewDb<V>(id), k, v, spare)) && !VerifyDb(InsertDb(NewDb<V>(id), k, v, spare))
  {
    hide VerifyDb, InsertDb;
    NewIsSound<V>(id);
    var d := NewDb<V>(id);
    var e := InsertDb(d, k, v, spare);
    InsertSound(d, k, v, spare);
    assert DbRun([d, e], [Put(k, v, spare)], id);
    RunVerifies([d, e], [Put(k, v, spare)], id, 1);
  }

  /** Insert a key and erase it twice: the second erasure starts from the leaf that the first one freed, and verify(),
      which passed before it, then fails. */
  lemma EraseTwice<V>(id: Id, k: Key, v: V, spare: Id)
    requires id != NONE && spare != NONE && spare != id
    ensures var d := InsertDb(NewDb<V>(id), k, v, spare);
            && Sound(d) && EraseDb(d, k).1
            && var e := EraseDb(d, k).0;
               && Sound(e) && e.catalog == Freed(id) && !StartsLive(e) && VerifyDb(e)
               && !EraseDb(e, k).1 && !VerifyDb(EraseDb(e, k).0)
  {
    NewIsSound<V>(id);
    var d := InsertDb(NewDb<V>(id), k, v, spare);
    InsertSound(NewDb<V>(id), k, v, spare);
    assert d.tree == Tree(Leaf(id, [Item(k, v)]), 0) by { FirstPair(id, k, v, spare); }
    EraseSound(d, k);
  }

  lemma FirstPair<V>(id: Id, k: Key, v: V, spare: Id)
    ensures InsertRoot(Leaf(id, []), 0, k, v, spare) == (Leaf(id, [Item(k, v)]), 0)
  {
    FirstInsert(Leaf(id, []), k, v, spare);
  }
}
