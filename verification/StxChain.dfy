/** The doubly linked chain of the leaves, and what insertion and erasure do to it. */
module StxChain {
  import opened Options
  import opened StxTree
  import opened StxInsert
  import opened StxErase

  /** nextleaf and prevleaf of every leaf, and m_headleaf and m_tailleaf. */
  datatype Chain = Chain(next: map<Id, Id>, prev: map<Id, Id>, head: Id, tail: Id)

  function At(ids: seq<Id>, i: int): Id {
    if 0 <= i < |ids| then ids[i] else NONE
  }

  predicate LinkedAt(ids: seq<Id>, c: Chain, i: nat)
    requires i < |ids|
  {
    && ids[i] != NONE && ids[i] in c.next && ids[i] in c.prev
    && c.next[ids[i]] == At(ids, i + 1) && c.prev[ids[i]] == At(ids, i - 1)
  }

  predicate NoRepeat(ids: seq<Id>) {
    forall i, j :: 0 <= i < j < |ids| ==> ids[i] != ids[j]
  }

  /** The leaves are linked in exactly this order, in both directions. */
  predicate Chained(ids: seq<Id>, c: Chain) {
    NoRepeat(ids) && forall i {:trigger LinkedAt(ids, c, i)} :: 0 <= i < |ids| ==> LinkedAt(ids, c, i)
  }

  /* ---- The two operations ---- */

  function NextOf(c: Chain, id: Id): Id {
    if id in c.next then c.next[id] else NONE
  }

  /** The links of split_leaf_node: leaf `spare` goes in behind leaf `id`. */
  function LinkAfter(c: Chain, id: Id, spare: Id): Chain {
    var n := NextOf(c, id);
    Chain(c.next[spare := n][id := spare],
          (if n == NONE then c.prev else c.prev[n := spare])[spare := id],
          c.head, if n == NONE then spare else c.tail)
  }

  /** The links of merge_leaves: leaf `right` is left out behind leaf `left`. */
  function Unlink(c: Chain, left: Id, right: Id): Chain {
    var n := NextOf(c, right);
    Chain(c.next[left := n], if n == NONE then c.prev else c.prev[n := left],
          c.head, if n == NONE then left else c.tail)
  }

  lemma LinkedAfter(ids: seq<Id>, c: Chain, i: nat, spare: Id)
    requires Chained(ids, c) && i < |ids| && spare !in ids && spare != NONE
    ensures Chained(InsertAt(ids, i + 1, spare), LinkAfter(c, ids[i], spare))
    ensures LinkAfter(c, ids[i], spare).tail == if i + 1 == |ids| then spare else c.tail
  {
    assert LinkedAt(ids, c, i) && (i + 1 < |ids| ==> LinkedAt(ids, c, i + 1));
    var js, d := InsertAt(ids, i + 1, spare), LinkAfter(c, ids[i], spare);
    forall j, k | 0 <= j < k < |js| ensures js[j] != js[k] {
      if j == i + 1 { assert js[k] == ids[k - 1]; } else if k == i + 1 { assert js[j] == ids[j]; }
    }
    forall j {:trigger LinkedAt(js, d, j)} | 0 <= j < |js| ensures LinkedAt(js, d, j) {
      if j <= i { assert LinkedAt(ids, c, j) && js[j] == ids[j]; }
      else if j > i + 1 { assert LinkedAt(ids, c, j - 1) && js[j] == ids[j - 1]; }
    }
  }

  lemma Unlinked(ids: seq<Id>, c: Chain, i: nat)
    requires Chained(ids, c) && i + 1 < |ids|
    ensures Chained(RemoveAt(ids, i + 1), Unlink(c, ids[i], ids[i + 1]))
    ensures Unlink(c, ids[i], ids[i + 1]).tail == if i + 2 == |ids| then ids[i] else c.tail
  {
    var js, d := RemoveAt(ids, i + 1), Unlink(c, ids[i], ids[i + 1]);
    assert LinkedAt(ids, c, i + 1) && (i + 2 < |ids| ==> LinkedAt(ids, c, i + 2));
    forall j, k | 0 <= j < k < |js| ensures js[j] != js[k] {
      assert js[j] == ids[if j <= i then j else j + 1] && js[k] == ids[if k <= i then k else k + 1];
    }
    forall j {:trigger LinkedAt(js, d, j)} | 0 <= j < |js| ensures LinkedAt(js, d, j) { UnlinkedAt(ids, c, i, j); }
  }

  lemma UnlinkedAt(ids: seq<Id>, c: Chain, i: nat, j: nat)
    requires Chained(ids, c) && i + 1 < |ids| && j < |ids| - 1
    ensures LinkedAt(RemoveAt(ids, i + 1), Unlink(c, ids[i], ids[i + 1]), j)
  {
    assert LinkedAt(ids, c, i) && LinkedAt(ids, c, i + 1) && (i + 2 < |ids| ==> LinkedAt(ids, c, i + 2));
    var js := RemoveAt(ids, i + 1);
    if j <= i { assert LinkedAt(ids, c, j) && js[j] == ids[j]; }
    else { assert LinkedAt(ids, c, j + 1) && js[j] == ids[j + 1]; }
  }

  /* ---- The leaves of a tree, in order ---- */

  function Ids<V>(n: Node<V>, h: nat): seq<Id>
    decreases h, 0
  {
    match n
    case Leaf(id, _) => [id]
    case Inner(_, kids) => if h == 0 then [] else IdsAll(kids, h - 1)
  }

  function IdsAll<V>(kids: seq<Node<V>>, h: nat): seq<Id>
    decreases h, |kids|
  {
    if kids == [] then [] else Ids(kids[0], h) + IdsAll(kids[1..], h)
  }

  lemma {:induction false} IdsConcat<V>(a: seq<Node<V>>, b: seq<Node<V>>, h: nat)
    ensures IdsAll(a + b, h) == IdsAll(a, h) + IdsAll(b, h)
    decreases |a|
  {
    hide Ids;
    if a == [] { assert a + b == b; }
    else {
      IdsConcat(a[1..], b, h);
      assert (a + b)[1..] == a[1..] + b;
    }
  }

  lemma IdsOne<V>(n: Node<V>, h: nat)
    ensures IdsAll([n], h) == Ids(n, h) && IdsAll<V>([], h) == []
  {
    hide Ids;
    assert [n][1..] == [];
  }

  lemma IdsAround<V>(kids: seq<Node<V>>, i: nat, c: Node<V>, h: nat)
    requires i < |kids|
    ensures IdsAll(kids[i := c], h) == IdsAll(kids[..i], h) + Ids(c, h) + IdsAll(kids[i + 1..], h)
  {
    hide Ids, IdsAll;
    IdsConcat(kids[..i] + [c], kids[i + 1..], h);
    IdsConcat(kids[..i], [c], h);
    IdsOne(c, h);
    assert kids[i := c] == kids[..i] + [c] + kids[i + 1..];
  }

  lemma IdsWith<V>(kids: seq<Node<V>>, i: nat, l: Node<V>, r: Node<V>, h: nat)
    requires i < |kids|
    ensures IdsAll(InsertAt(kids[i := l], i + 1, r), h)
         == IdsAll(kids[..i], h) + (Ids(l, h) + Ids(r, h)) + IdsAll(kids[i + 1..], h)
  {
    hide Ids, IdsAll;
    IdsConcat(kids[..i] + [l, r], kids[i + 1..], h);
    IdsConcat(kids[..i], [l, r], h);
    IdsConcat([l], [r], h);
    IdsOne(l, h);
    IdsOne(r, h);
    assert [l] + [r] == [l, r];
    assert InsertAt(kids[i := l], i + 1, r) == kids[..i] + [l, r] + kids[i + 1..];
  }

  lemma IdsInner<V>(n: Node<V>, h: nat)
    requires n.Inner? && h > 0
    ensures Ids(n, h) == IdsAll(n.kids, h - 1)
  {}

  /* ---- Insertion ---- */

  /** The leaf insert_descend comes to. */
  function LeafFor<V>(n: Node<V>, h: nat, k: Key): (r: Node<V>)
    requires Fits(n, h) || IsFresh(n, h)
    ensures r.Leaf?
    decreases h
  {
    match n
    case Leaf(_, _) => n
    case Inner(keys, kids) =>
      KidAt(kids, Lower(keys, k), h - 1);
      LeafFor(kids[Lower(keys, k)], h - 1, k)
  }

  /** Whether that leaf is split. */
  predicate Splits<V>(n: Node<V>, h: nat, k: Key)
    requires Fits(n, h) || IsFresh(n, h)
  {
    var items := LeafFor(n, h, k).items;
    |items| == LEAF_MAX && !IsDuplicate(items, k)
  }

  function InsertChain<V>(n: Node<V>, h: nat, k: Key, spare: Id, c: Chain): Chain
    requires Fits(n, h) || IsFresh(n, h)
  {
    if Splits(n, h, k) then LinkAfter(c, LeafFor(n, h, k).id, spare) else c
  }

  function IdsOf<V>(r: Ins<V>, n: Node<V>, h: nat): seq<Id> {
    match r
    case Kept => Ids(n, h)
    case One(c) => Ids(c, h)
    case Two(l, _, c) => Ids(l, h) + Ids(c, h)
  }

  /** Leaf i splits and its new sibling follows it; or the leaves stay the same. */
  ghost predicate Grows(ids: seq<Id>, js: seq<Id>, split: bool, i: nat, id: Id, spare: Id) {
    if split then i < |ids| && ids[i] == id && js == InsertAt(ids, i + 1, spare) else js == ids
  }

  lemma GrowsInside(a: seq<Id>, ids: seq<Id>, d: seq<Id>, js: seq<Id>, split: bool, i: nat, id: Id, spare: Id)
    requires Grows(ids, js, split, i, id, spare)
    ensures Grows(a + ids + d, a + js + d, split, |a| + i, id, spare)
  {
    if split {
      assert InsertAt(a + ids + d, |a| + i + 1, spare) == a + InsertAt(ids, i + 1, spare) + d;
    }
  }

  /** insert_descend adds at most one leaf, right behind the one it splits. */
  lemma {:induction false} InsertIds<V>(n: Node<V>, h: nat, k: Key, v: V, spare: Id) returns (i: nat)
    requires Fits(n, h) || IsFresh(n, h)
    ensures Grows(Ids(n, h), IdsOf(Insert(n, h, k, v, spare), n, h), Splits(n, h, k), i, LeafFor(n, h, k).id, spare)
    decreases h
  {
    hide LowerItem, Lower, InsertAt, KidsOk, KeysOk, InsertInner;
    if n.Leaf? {
      i := 0;
      LeafGrows(n.id, n.items, k, v, spare);
    } else {
      FitsInner(n, h);
      var slot := Lower(n.keys, k);
      var kid := n.kids[slot];
      KidAt(n.kids, slot, h - 1);
      i := InsertIds(kid, h - 1, k, v, spare);
      var r := Insert(kid, h - 1, k, v, spare);
      var a, d := IdsAll(n.kids[..slot], h - 1), IdsAll(n.kids[slot + 1..], h - 1);
      GrowsInside(a, Ids(kid, h - 1), d, IdsOf(r, kid, h - 1), Splits(kid, h - 1, k), i, LeafFor(n, h, k).id, spare);
      i := |a| + i;
      IdsAround(n.kids, slot, kid, h - 1);
      assert n.kids[slot := kid] == n.kids;
      IdsInner(n, h);
      InsertedIds(n, h, slot, r);
    }
  }

  lemma LeafGrows<V>(id: Id, items: seq<Item<V>>, k: Key, v: V, spare: Id)
    requires |items| <= LEAF_MAX
    ensures IdsOf(InsertLeaf(id, items, k, v, spare), Leaf(id, items), 0)
         == if |items| == LEAF_MAX && !IsDuplicate(items, k) then InsertAt([id], 1, spare) else [id]
  {
    hide LowerItem;
    assert InsertAt([id], 1, spare) == [id, spare];
  }

  lemma InsertedIds<V>(n: Node<V>, h: nat, slot: nat, r: Ins<V>)
    requires n.Inner? && h > 0 && slot <= |n.keys| <= INNER_MAX && |n.kids| == |n.keys| + 1
    ensures IdsOf(match r
                  case Kept => Kept
                  case One(c) => One(Inner(n.keys, n.kids[slot := c]))
                  case Two(l, key, c) => InsertInner(n.keys, n.kids[slot := l], slot, key, c), n, h)
         == IdsAll(n.kids[..slot], h - 1) + IdsOf(r, n.kids[slot], h - 1) + IdsAll(n.kids[slot + 1..], h - 1)
  {
    hide IdsAll, InsertAt;
    match r
    case Kept =>
      IdsAround(n.kids, slot, n.kids[slot], h - 1);
      assert n.kids[slot := n.kids[slot]] == n.kids;
    case One(c) => IdsAround(n.kids, slot, c, h - 1);
    case Two(l, key, c) =>
      IdsWith(n.kids, slot, l, c, h - 1);
      InnerIds(n.keys, n.kids[slot := l], slot, key, c, n, h);
  }

  lemma InnerIds<V>(keys: seq<Key>, kids: seq<Node<V>>, slot: nat, key: Key, kid: Node<V>, n: Node<V>, h: nat)
    requires slot <= |keys| <= INNER_MAX && |kids| == |keys| + 1 && h > 0
    ensures IdsOf(InsertInner(keys, kids, slot, key, kid), n, h) == IdsAll(InsertAt(kids, slot + 1, kid), h - 1)
  {
    hide IdsAll, InsertAt;
    if |keys| == INNER_MAX {
      var m := SplitIsCut(keys, kids, slot, key, kid);
      hide InsertInner;
      var all := InsertAt(kids, slot + 1, kid);
      IdsConcat(all[..m + 1], all[m + 1..], h - 1);
      assert all[..m + 1] + all[m + 1..] == all;
    }
  }

  /* ---- Erasure ---- */

  /** The links after an erasure that merged two leaves, or none. */
  function UnlinkMerged(c: Chain, merged: Option<(Id, Id)>): Chain {
    if merged.Some? then Unlink(c, merged.value.0, merged.value.1) else c
  }

  /** Leaf i + 1 is merged into leaf i and left out; or the leaves stay the same. */
  ghost predicate Shrinks(ids: seq<Id>, js: seq<Id>, i: nat, merged: Option<(Id, Id)>) {
    if merged.None? then js == ids
    else i + 1 < |ids| && merged.value == (ids[i], ids[i + 1]) && js == RemoveAt(ids, i + 1)
  }

  lemma ShrinksInside(a: seq<Id>, ids: seq<Id>, b: seq<Id>, js: seq<Id>, i: nat, merged: Option<(Id, Id)>)
    requires Shrinks(ids, js, i, merged)
    ensures Shrinks(a + ids + b, a + js + b, |a| + i, merged)
  {
    if merged.Some? { RemoveInside(a, ids, b, i + 1); }
  }

  lemma IdsPair<V>(kids: seq<Node<V>>, i: nat, h: nat)
    requires i + 1 < |kids|
    ensures IdsAll(kids, h) == IdsAll(kids[..i], h) + (Ids(kids[i], h) + Ids(kids[i + 1], h)) + IdsAll(kids[i + 2..], h)
  {
    hide Ids, IdsAll;
    IdsConcat(kids[..i] + [kids[i], kids[i + 1]], kids[i + 2..], h);
    IdsConcat(kids[..i], [kids[i], kids[i + 1]], h);
    IdsConcat([kids[i]], [kids[i + 1]], h);
    IdsOne(kids[i], h);
    IdsOne(kids[i + 1], h);
    assert [kids[i]] + [kids[i + 1]] == [kids[i], kids[i + 1]];
    assert kids == kids[..i] + [kids[i], kids[i + 1]] + kids[i + 2..];
  }

  lemma IdsMerged<V>(kids: seq<Node<V>>, i: nat, m: Node<V>, h: nat)
    requires i + 1 < |kids|
    ensures IdsAll(kids[..i] + [m] + kids[i + 2..], h) == IdsAll(kids[..i], h) + Ids(m, h) + IdsAll(kids[i + 2..], h)
  {
    hide Ids, IdsAll;
    IdsConcat(kids[..i] + [m], kids[i + 2..], h);
    IdsConcat(kids[..i], [m], h);
    IdsOne(m, h);
  }

  lemma IdsShifted<V>(kids: seq<Node<V>>, i: nat, p: (Node<V>, Key, Node<V>), h: nat)
    requires i + 1 < |kids| && Ids(p.0, h) + Ids(p.2, h) == Ids(kids[i], h) + Ids(kids[i + 1], h)
    ensures IdsAll(kids[i := p.0][i + 1 := p.2], h) == IdsAll(kids, h)
  {
    hide Ids, IdsAll;
    var cs := kids[i := p.0][i + 1 := p.2];
    IdsPair(kids, i, h);
    IdsPair(cs, i, h);
    assert cs[..i] == kids[..i] && cs[i + 2..] == kids[i + 2..];
  }

  lemma JoinCutIds<V>(l: Node<V>, key: Key, r: Node<V>, p: (Node<V>, Key, Node<V>), m: nat, h: nat)
    requires IsJoinCut(l, key, r, p, m) && (l.Leaf? <==> h == 0)
    ensures Ids(p.0, h) + Ids(p.2, h) == Ids(l, h) + Ids(r, h)
  {
    if l.Inner? {
      hide IdsAll, Ids;
      InnerCutIds(l, r, p.0, p.2, m, h);
    }
  }

  lemma InnerCutIds<V>(l: Node<V>, r: Node<V>, l': Node<V>, r': Node<V>, m: nat, h: nat)
    requires l.Inner? && r.Inner? && l'.Inner? && r'.Inner? && h > 0 && m < |l.kids + r.kids|
    requires l'.kids == (l.kids + r.kids)[..m + 1] && r'.kids == (l.kids + r.kids)[m + 1..]
    ensures Ids(l', h) + Ids(r', h) == Ids(l, h) + Ids(r, h)
  {
    hide IdsAll;
    IdsCut(l.kids + r.kids, m + 1, h - 1);
    IdsConcat(l.kids, r.kids, h - 1);
  }

  lemma IdsCut<V>(kids: seq<Node<V>>, m: nat, h: nat)
    requires m <= |kids|
    ensures IdsAll(kids[..m], h) + IdsAll(kids[m..], h) == IdsAll(kids, h)
  {
    hide IdsAll;
    IdsConcat(kids[..m], kids[m..], h);
    assert kids[..m] + kids[m..] == kids;
  }

  lemma MergeIds<V>(keys: seq<Key>, kids: seq<Node<V>>, i: nat, h: nat)
    requires i + 1 < |kids| == |keys| + 1 && (kids[i].Leaf? <==> h == 0) && (kids[i + 1].Leaf? <==> h == 0)
    ensures var merged := if h > 0 then None else Some((IdOf(kids[i]), IdOf(kids[i + 1])));
            Shrinks(IdsAll(kids, h), IdsAll(Merge(keys, kids, i, h).kids, h), |IdsAll(kids[..i], h)|, merged)
  {
    hide IdsAll, MaxKey;
    IdsPair(kids, i, h);
    IdsMerged(kids, i, Join(kids[i], keys[i], kids[i + 1]), h);
    if h > 0 { IdsConcat(kids[i].kids, kids[i + 1].kids, h - 1); }
    else {
      var x, y := kids[i].id, kids[i + 1].id;
      assert RemoveAt([x] + [y], 1) == [x];
      ShrinksInside(IdsAll(kids[..i], h), [x] + [y], IdsAll(kids[i + 2..], h), [x], 0, Some((x, y)));
    }
  }

  /** A repair leaves the leaves alone, or merges two neighbouring ones. */
  lemma RepairIds<V>(keys: seq<Key>, kids: seq<Node<V>>, slot: nat, h: nat, far: Option<Node<V>>, fir: Option<Node<V>>)
    returns (i: nat)
    requires AfterErase(keys, kids, slot, h)
    ensures Shrinks(IdsAll(kids, h), IdsAll(Repaired(keys, kids, slot, h, far, fir).kids, h), i,
                    MergedLeaves(kids, slot, h, far, fir))
  {
    i := 0;
    if Use(kids[slot]) < MinUse(h) {
      RebalanceReady(keys, kids, slot, h);
      i := RebalanceIds(keys, kids, slot, h, far, fir);
    }
  }

  lemma RebalanceIds<V>(keys: seq<Key>, kids: seq<Node<V>>, slot: nat, h: nat, far: Option<Node<V>>,
                        fir: Option<Node<V>>)
    returns (i: nat)
    requires |kids| > 1 && OneUnder(keys, kids, slot, h)
    ensures Shrinks(IdsAll(kids, h), IdsAll(Rebalance(keys, kids, slot, h, far, fir).kids, h), i,
                    MergedLeaves(kids, slot, h, far, fir))
  {
    hide IdsAll, Fits, MaxKey, FlatAll, Merge, Ids, Join, ShiftLeft, ShiftRight, KidsOk;
    i := 0;
    var ls, rs := SideOf(KidAtSlot(kids, slot - 1), far), SideOf(KidAtSlot(kids, slot + 1), fir);
    RepairIsLocal(ls, rs, MinUse(h));
    OneUnderPairs(keys, kids, slot, h);
    FitsUse(kids[slot], h);
    match Choose(ls, rs, MinUse(h)) {
      case MergeLeft =>
        FitsUse(kids[slot - 1], h);
        MergeIds(keys, kids, slot - 1, h);
        i := |IdsAll(kids[..slot - 1], h)|;
      case MergeRight =>
        FitsUse(kids[slot + 1], h);
        MergeIds(keys, kids, slot, h);
        i := |IdsAll(kids[..slot], h)|;
      case TakeLeft =>
        FitsUse(kids[slot - 1], h);
        ShiftRightIds(keys, kids, slot - 1, h);
      case TakeRight =>
        FitsUse(kids[slot + 1], h);
        ShiftLeftIds(keys, kids, slot, h);
    }
  }

  lemma RebalanceReady<V>(keys: seq<Key>, kids: seq<Node<V>>, slot: nat, h: nat)
    requires AfterErase(keys, kids, slot, h) && Use(kids[slot]) < MinUse(h)
    ensures |kids| > 1 && OneUnder(keys, kids, slot, h)
  {
    hide Fits, MaxKey;
  }

  lemma ShiftRightIds<V>(keys: seq<Key>, kids: seq<Node<V>>, i: nat, h: nat)
    requires i + 1 < |kids| == |keys| + 1 && Use(kids[i + 1]) + 2 <= Use(kids[i])
    requires (kids[i].Leaf? <==> h == 0) && (kids[i + 1].Leaf? <==> h == 0)
    requires (kids[i].Inner? ==> |kids[i].kids| == |kids[i].keys| + 1 && |kids[i + 1].kids| == |kids[i + 1].keys| + 1)
    ensures IdsAll(PutPair(keys, kids, i, ShiftRight(kids[i], keys[i], kids[i + 1])).kids, h) == IdsAll(kids, h)
  {
    hide IdsAll, ShiftRight, Ids;
    var l, key, r := kids[i], keys[i], kids[i + 1];
    ShiftRightIsCut(l, key, r);
    JoinCutIds(l, key, r, ShiftRight(l, key, r), Use(l) - (Use(l) - Use(r)) / 2, h);
    IdsShifted(kids, i, ShiftRight(l, key, r), h);
  }

  lemma ShiftLeftIds<V>(keys: seq<Key>, kids: seq<Node<V>>, i: nat, h: nat)
    requires i + 1 < |kids| == |keys| + 1 && Use(kids[i]) + 2 <= Use(kids[i + 1])
    requires (kids[i].Leaf? <==> h == 0) && (kids[i + 1].Leaf? <==> h == 0)
    requires (kids[i].Inner? ==> |kids[i].kids| == |kids[i].keys| + 1 && |kids[i + 1].kids| == |kids[i + 1].keys| + 1)
    ensures IdsAll(PutPair(keys, kids, i, ShiftLeft(kids[i], keys[i], kids[i + 1])).kids, h) == IdsAll(kids, h)
  {
    hide IdsAll, ShiftLeft, Ids;
    var l, key, r := kids[i], keys[i], kids[i + 1];
    ShiftLeftIsCut(l, key, r);
    JoinCutIds(l, key, r, ShiftLeft(l, key, r), Use(l) + (Use(r) - Use(l)) / 2, h);
    IdsShifted(kids, i, ShiftLeft(l, key, r), h);
  }

  lemma BothShrink(ids: seq<Id>, js: seq<Id>, ks: seq<Id>, i: nat, j: nat, v: Option<(Id, Id)>, w: Option<(Id, Id)>)
    requires Shrinks(ids, js, i, v) && Shrinks(js, ks, j, w) && (v.None? || w.None?)
    ensures Shrinks(ids, ks, if v.Some? then i else j, if v.Some? then v else w)
  {}

  /** erase_one_descend merges at most one leaf into its left neighbour. */
  lemma {:induction false} EraseIds<V>(n: Node<V>, h: nat, k: Key, left: Option<Node<V>>, right: Option<Node<V>>)
    returns (i: nat)
    requires Erasable(n, h)
    requires Erase(n, h, k, left, right).Gone?
    ensures var e := Erase(n, h, k, left, right); Shrinks(Ids(n, h), Ids(e.node, h), i, e.merged)
    ensures h == 0 ==> Erase(n, h, k, left, right).merged.None?
    decreases h
  {
    hide Erase, Fits, Flatten, Sorted, IdsAll, Repaired, Shrinks, TakeLast, MergedLeaves, Erased, AfterErase;
    if n.Leaf? { i := EraseLeafIds(n, h, k, left, right); return; }
    var slot, l, r, far, fir := EraseInner(n, h, k, left, right);
    var kids, e := n.kids, Erase(n.kids[slot], h - 1, k, l, r);
    i := EraseIds(kids[slot], h - 1, k, l, r);
    var keys', kids' := TakeLast(n.keys, slot, e.last), kids[slot := e.node];
    var j := RepairIds(keys', kids', slot, h - 1, far, fir);
    NoneAbove(kids', slot, h - 1, far, fir);
    var x, y := IdsAll(kids[..slot], h - 1), IdsAll(kids[slot + 1..], h - 1);
    ShrinksInside(x, Ids(kids[slot], h - 1), y, Ids(e.node, h - 1), i, e.merged);
    IdsAround(kids, slot, kids[slot], h - 1);
    assert kids[slot := kids[slot]] == kids;
    IdsAround(kids, slot, e.node, h - 1);
    var m := Repaired(keys', kids', slot, h - 1, far, fir);
    BothShrink(Ids(n, h), IdsAll(kids', h - 1), Ids(m, h), |x| + i, j, e.merged,
               MergedLeaves(kids', slot, h - 1, far, fir));
    i := if e.merged.Some? then |x| + i else j;
  }

  lemma EraseLeafIds<V>(n: Node<V>, h: nat, k: Key, left: Option<Node<V>>, right: Option<Node<V>>) returns (i: nat)
    requires n.Leaf? && Erasable(n, h)
    requires Erase(n, h, k, left, right).Gone?
    ensures var e := Erase(n, h, k, left, right); e.merged.None? && Shrinks(Ids(n, h), Ids(e.node, h), i, e.merged)
  {
    hide LowerItem, EraseLeaf, Erased;
    i := 0;
    LeafShrinks(n.id, n.items, k);
  }

  lemma NoneAbove<V>(kids: seq<Node<V>>, slot: nat, h: nat, far: Option<Node<V>>, fir: Option<Node<V>>)
    requires slot < |kids|
    ensures h > 0 ==> MergedLeaves(kids, slot, h, far, fir).None?
  {}

  lemma LeafShrinks<V>(id: Id, items: seq<Item<V>>, k: Key)
    requires EraseLeaf(id, items, k).Gone?
    ensures var e := EraseLeaf(id, items, k); e.merged.None? && Shrinks([id], Ids(e.node, 0), 0, e.merged)
  {
    hide LowerItem;
  }
}
