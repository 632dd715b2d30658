/** The whole tree as the code keeps it: the nodes, the chain of the leaves, the counters, and the two pointers to the
    root, one in the tree object and one in the catalogue. */
module StxDb {
  import opened Options
  import opened StxTree
  import opened StxInsert
  import opened StxErase
  import opened StxChain

  /** m_stats. The code counts a leaf when it is allocated and never when it is freed, and inner nodes not at all. */
  datatype Stats = Stats(items: nat, leaves: nat, inners: nat)

  /** What a root pointer names: nothing, the root of the tree, or the leaf that an erasure has emptied and freed. */
  datatype Ref = Null | Root | Freed(id: Id)

  /** `member` is root_gptr, `catalog` the entry of the catalogue page. Every operation first copies the second to the
      first. */
  datatype Db<V> = Db(tree: Tree<V>, chain: Chain, stats: Stats, member: Ref, catalog: Ref)

  function LeafIds<V>(t: Tree<V>): seq<Id> {
    match t
    case Empty => []
    case Tree(n, h) => Ids(n, h)
  }

  /** A tree with nodes is named by both pointers; an emptied one has left the catalogue with the freed leaf. */
  predicate RootsOk<V>(d: Db<V>) {
    if d.tree.Tree? then d.member.Root? && d.catalog.Root?
    else d.catalog.Freed? && (d.member.Null? || d.member == d.catalog)
  }

  /** The leaves are chained in order and the items are counted right. */
  predicate Sound<V>(d: Db<V>) {
    TreeOk(d.tree) && Chained(LeafIds(d.tree), d.chain) && d.stats.items == |Contents(d.tree)| && RootsOk(d)
  }

  /** Whether an operation, which takes its root from the catalogue, starts from a node of the tree. */
  predicate StartsLive<V>(d: Db<V>) { d.catalog.Root? }

  /** initialization: an empty root leaf, and neither head nor tail set. */
  function NewDb<V>(id: Id): Db<V> {
    Db(Tree(Leaf(id, []), 0), Chain(map[id := NONE], map[id := NONE], NONE, NONE), Stats(0, 1, 0), Root, Root)
  }

  /** insert, from a live root; it writes the catalogue. */
  function InsertDb<V>(d: Db<V>, k: Key, v: V, spare: Id): Db<V>
    requires TreeOk(d.tree) && d.tree.Tree?
  {
    var Tree(n, h) := d.tree;
    var (m, g) := InsertRoot(n, h, k, v, spare);
    var added := if Insert(n, h, k, v, spare).Kept? then 0 else 1;
    Db(Tree(m, g), InsertChain(n, h, k, spare, d.chain),
       Stats(d.stats.items + added, d.stats.leaves + if Splits(n, h, k) then 1 else 0, d.stats.inners), Root, Root)
  }

  /** erase_one. A collapsing root is written to the catalogue, but emptying the tree only clears the member. On an
      emptied tree it reads the freed leaf; as long as no one has reused that page, it still has no pair. */
  function EraseDb<V>(d: Db<V>, k: Key): (r: (Db<V>, bool))
    requires Sound(d)
  {
    EraseIsRemove(d.tree, k);
    var (u, found) := EraseOne(d.tree, k);
    if !found then (d.(member := d.catalog), false)
    else
      var stats := d.stats.(items := d.stats.items - 1);
      if u.Empty? then (Db(u, d.chain.(head := NONE, tail := NONE), stats, Null, Freed(RootLeaf(d.tree))), true)
      else (Db(u, UnlinkMerged(d.chain, Merged(d.tree, k)), stats, Root, Root), true)
  }

  /** The address of a root leaf. */
  function RootLeaf<V>(t: Tree<V>): Id {
    match t
    case Tree(Leaf(id, _), _) => id
    case _ => NONE
  }

  /** The leaves that an erasure merges. */
  function Merged<V>(t: Tree<V>, k: Key): Option<(Id, Id)>
    requires TreeOk(t)
  {
    match t
    case Empty => None
    case Tree(n, h) =>
      if n.Leaf? && |n.items| <= 1 then None
      else
        match Erase(n, h, k, None, None)
        case Missing => None
        case Gone(_, _, merged) => merged
  }

  /* ---- The chain and the count of items ---- */

  lemma NewIsSound<V>(id: Id)
    requires id != NONE
    ensures Sound(NewDb<V>(id))
  {
    var d := NewDb<V>(id);
    assert LinkedAt([id], d.chain, 0);
  }

  lemma RootIds<V>(n: Node<V>, h: nat, k: Key, v: V, spare: Id)
    requires Fits(n, h) || IsFresh(n, h)
    ensures var (m, g) := InsertRoot(n, h, k, v, spare); Ids(m, g) == IdsOf(Insert(n, h, k, v, spare), n, h)
  {
    hide Insert;
    match Insert(n, h, k, v, spare)
    case Kept =>
    case One(_) =>
    case Two(l, key, r) =>
      IdsConcat([l], [r], h);
      IdsOne(l, h);
      IdsOne(r, h);
      assert [l] + [r] == [l, r];
  }

  lemma KeptIffDuplicate<V>(n: Node<V>, h: nat, k: Key, v: V, spare: Id)
    requires Valid(n, h) || IsFresh(n, h)
    ensures Insert(n, h, k, v, spare).Kept? <==> IsDuplicate(Flatten(n, h), k)
  {
    hide LowerItem, Fits;
    if IsFresh(n, h) { FirstInsert(n, k, v, spare); } else { hide Insert; InsertKeeps(n, h, k, v, spare); }
  }

  /** The head stays the first leaf; the tail stays the last one, and becomes it when the last leaf splits. */
  ghost predicate EndsKept(ids: seq<Id>, c: Chain, js: seq<Id>, d: Chain) {
    && d.head == c.head && ids != [] && js != [] && js[0] == ids[0]
    && (c.tail == ids[|ids| - 1] ==> d.tail == js[|js| - 1])
  }

  /** insert keeps the leaves chained in order, through every split, and counts the pair. */
  lemma InsertSound<V>(d: Db<V>, k: Key, v: V, spare: Id)
    requires Sound(d) && d.tree.Tree? && spare !in LeafIds(d.tree) && spare != NONE
    ensures var e := InsertDb(d, k, v, spare);
            && Sound(e) && e.tree.Tree? && Valid(e.tree.root, e.tree.height)
            && EndsKept(LeafIds(d.tree), d.chain, LeafIds(e.tree), e.chain)
            && e.stats.leaves - |LeafIds(e.tree)| == d.stats.leaves - |LeafIds(d.tree)|
            && e.stats.inners == d.stats.inners
  {
    hide Insert, InsertAt, LowerItem, Valid, IsFresh, Fits, Chained, LinkAfter, Splits, LeafFor;
    var Tree(n, h) := d.tree;
    InsertIsInsert(n, h, k, v, spare);
    KeptIffDuplicate(n, h, k, v, spare);
    assert Fits(n, h) || IsFresh(n, h) by { ValidFits(n, h); }
    RootIds(n, h, k, v, spare);
    var i := InsertIds(n, h, k, v, spare);
    IdsNotEmpty(n, h);
    var ids := Ids(n, h);
    if Splits(n, h, k) {
      LinkedAfter(ids, d.chain, i, spare);
      InsertEnds(ids, i, spare);
      assert LinkAfter(d.chain, ids[i], spare).head == d.chain.head by { HeadStays(d.chain, ids[i], spare); }
    }
  }

  lemma ValidFits<V>(n: Node<V>, h: nat)
    requires Valid(n, h) || IsFresh(n, h)
    ensures Fits(n, h) || IsFresh(n, h)
  {}

  lemma HeadStays(c: Chain, x: Id, y: Id)
    ensures LinkAfter(c, x, y).head == c.head && Unlink(c, x, y).head == c.head
  {}

  lemma InsertEnds(ids: seq<Id>, i: nat, x: Id)
    requires i < |ids|
    ensures var js := InsertAt(ids, i + 1, x);
            js[0] == ids[0] && js[|js| - 1] == if i + 1 == |ids| then x else ids[|ids| - 1]
  {}

  lemma {:induction false} IdsNotEmpty<V>(n: Node<V>, h: nat)
    requires Fits(n, h) || IsFresh(n, h)
    ensures Ids(n, h) != []
    decreases h
  {
    if n.Inner? {
      FitsInner(n, h);
      KidAt(n.kids, 0, h - 1);
      IdsNotEmpty(n.kids[0], h - 1);
    }
  }

  /** erase_one keeps the leaves chained in order, through every merge, and counts the pair. */
  lemma EraseSound<V>(d: Db<V>, k: Key)
    requires Sound(d)
    ensures var (e, found) := EraseDb(d, k);
            && Sound(e) && e.stats.leaves == d.stats.leaves && e.stats.inners == d.stats.inners
            && Contents(e.tree) == EraseOneContents(d.tree, k)
            && (StartsLive(e) <==> e.tree.Tree?)
            && (e.tree.Tree? ==>
                  && d.tree.Tree? && EndsKept(LeafIds(d.tree), d.chain, LeafIds(e.tree), e.chain)
                  && |LeafIds(e.tree)| == |LeafIds(d.tree)| - (if found && Merged(d.tree, k).Some? then 1 else 0))
  {
    hide EraseOne, LowerItem, Chained, Unlink, Merged, Valid, IsFresh;
    EraseIsRemove(d.tree, k);
    var (u, found) := EraseOne(d.tree, k);
    assert found ==> d.tree.Tree? by { if d.tree.Empty? { EmptyFinds(d.tree, k); } }
    if d.tree.Tree? {
      IdsNotEmpty(d.tree.root, d.tree.height) by {
        assert TreeOk(d.tree);
        ValidFits(d.tree.root, d.tree.height);
      }
    }
    if found && u.Tree? {
      var i := EraseOneIds(d.tree, k);
      var ids := LeafIds(d.tree);
      if Merged(d.tree, k).Some? {
        Unlinked(ids, d.chain, i);
        HeadStays(d.chain, ids[i], ids[i + 1]);
        RemoveEnds(ids, i);
      }
    }
    if u.Empty? { NothingChained(EraseDb(d, k).0.chain); }
  }

  ghost function EraseOneContents<V>(t: Tree<V>, k: Key): seq<Item<V>> {
    var f := Contents(t);
    var p := LowerItem(f, k);
    if p < |f| && f[p].key == k then RemoveAt(f, p) else f
  }

  lemma EmptyFinds<V>(t: Tree<V>, k: Key)
    requires t.Empty?
    ensures EraseOne(t, k) == (t, false)
  {}

  lemma NothingChained(c: Chain)
    ensures Chained([], c)
  {}

  lemma RemoveEnds(ids: seq<Id>, i: nat)
    requires i + 1 < |ids|
    ensures var js := RemoveAt(ids, i + 1);
            js[0] == ids[0] && js[|js| - 1] == if i + 2 == |ids| then ids[i] else ids[|ids| - 1]
  {}

  lemma EraseOneIds<V>(t: Tree<V>, k: Key) returns (i: nat)
    requires TreeOk(t) && t.Tree? && EraseOne(t, k).1 && EraseOne(t, k).0.Tree?
    ensures Shrinks(LeafIds(t), LeafIds(EraseOne(t, k).0), i, Merged(t, k))
  {
    hide LowerItem, Sorted, MaxKey, FlatAll, KidsOk, KeysOk, Shrinks, IdsAll, Flatten;
    var Tree(n, h) := t;
    i := EraseIds(n, h, k, None, None);
    var m := Erase(n, h, k, None, None).node;
    hide Erase;
    if m.Inner? && m.keys == [] { CollapsedIds(m, h); }
  }

  lemma CollapsedIds<V>(m: Node<V>, h: nat)
    requires m.Inner? && Fits(m, h) && m.keys == []
    ensures h > 0 && Ids(m.kids[0], h - 1) == Ids(m, h)
  {
    hide IdsAll;
    FitsInner(m, h);
    assert m.kids == [m.kids[0]];
    IdsOne(m.kids[0], h - 1);
  }
}
