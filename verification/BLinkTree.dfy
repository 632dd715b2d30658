/** The pages of one tree and the three kinds of step that change them: storing a record, splitting a
    full page and putting a new root on top. Each keeps the tree well formed whoever performs it. */
module BLinkTree {
  import opened Options
  import opened Endian
  import opened BLinkPage

  type Pages = map<Addr, Page>

  ghost predicate ChildAt(ps: Pages, level: int, k: Key, c: Addr) {
    c in ps && ps[c].level == level && ps[c].lowest == k
  }

  /** The right link of a page abuts; only the last page of a level has none. */
  ghost predicate RightLinked(ps: Pages, p: Page) {
    if p.sibling == NULL then p.highest == MAX_KEY else ChildAt(ps, p.level, p.highest, p.sibling)
  }

  /** Every child starts exactly at its separator, the leftmost one at the start of the page. */
  ghost predicate ChildrenLinked(ps: Pages, p: Page) {
    p.level > 0 && |p.keys| == |p.vals| ==>
      && ChildAt(ps, p.level - 1, p.lowest, p.leftmost)
      && forall i :: 0 <= i < |p.keys| ==> p.vals[i].Child? && ChildAt(ps, p.level - 1, p.keys[i], p.vals[i].addr)
  }

  ghost predicate IsChild(p: Page, c: Addr) {
    p.level > 0 && (p.leftmost == c || Child(c) in p.vals)
  }

  ghost predicate Linked(ps: Pages, a: Addr) {
    a in ps && PageOk(ps[a]) && RightLinked(ps, ps[a]) && ChildrenLinked(ps, ps[a])
  }

  ghost predicate AllLinked(ps: Pages) {
    NULL !in ps && forall a {:trigger Linked(ps, a)} :: a in ps ==> Linked(ps, a)
  }

  ghost predicate Apart(ps: Pages, a: Addr, b: Addr)
    requires a in ps && b in ps
  {
    a == b || ps[a].level != ps[b].level || ps[a].highest <= ps[b].lowest || ps[b].highest <= ps[a].lowest
  }

  ghost predicate Disjoint(ps: Pages) {
    forall a, b {:trigger Apart(ps, a, b)} :: a in ps && b in ps ==> Apart(ps, a, b)
  }

  ghost predicate RootOnTop(ps: Pages, root: Addr) {
    root in ps && ps[root].lowest == MIN_KEY && forall a :: a in ps ==> ps[a].level <= ps[root].level
  }

  ghost predicate NotLinkedYet(ps: Pages, pend: set<Addr>) {
    forall c :: c in pend ==>
      c in ps && ps[c].lowest > MIN_KEY && forall a {:trigger IsChild(ps[a], c)} :: a in ps ==> !IsChild(ps[a], c)
  }

  ghost predicate HasParent(ps: Pages, c: Addr) {
    exists a :: a in ps && IsChild(ps[a], c)
  }

  ghost predicate NoneLost(ps: Pages, root: Addr, pend: set<Addr>) {
    forall c :: c in ps ==> c == root || c in pend || HasParent(ps, c)
  }

  /** The structural invariant. `pend` holds the new siblings whose separator no one has posted yet. */
  ghost predicate Tree(ps: Pages, root: Addr, pend: set<Addr>) {
    && AllLinked(ps) && Disjoint(ps) && RootOnTop(ps, root)
    && NotLinkedYet(ps, pend) && NoneLost(ps, root, pend)
  }

  /** What a step never does to an existing page: move it to another level, move its start, or widen it. */
  ghost predicate Evolves(ps: Pages, qs: Pages) {
    forall a :: a in ps ==>
      a in qs && qs[a].level == ps[a].level && qs[a].lowest == ps[a].lowest && qs[a].highest <= ps[a].highest
  }

  /* ---- Finding a key ---- */

  /** A page of a level is determined by any key it holds. */
  lemma PageUnique(ps: Pages, a: Addr, b: Addr, k: Key)
    requires Disjoint(ps) && a in ps && b in ps && ps[a].level == ps[b].level
    requires ps[a].Holds(k) && ps[b].Holds(k)
    ensures a == b
  {
    assert Apart(ps, a, b);
  }

  lemma LowestUnique(ps: Pages, a: Addr, b: Addr)
    requires AllLinked(ps) && Disjoint(ps) && a in ps && b in ps
    requires ps[a].level == ps[b].level && ps[a].lowest == ps[b].lowest
    ensures a == b
  {
    assert Linked(ps, a) && Linked(ps, b);
    PageUnique(ps, a, b, ps[a].lowest);
  }

  /** Right moves from any page that starts at or before k end at the page of that level that holds k. */
  function MoveRight(ps: Pages, a: Addr, k: Key): (r: Addr)
    requires AllLinked(ps) && a in ps && ps[a].lowest <= k < MAX_KEY
    ensures r in ps && ps[r].level == ps[a].level && ps[r].Holds(k)
    decreases MAX_KEY - ps[a].lowest
  {
    assert Linked(ps, a);
    if k < ps[a].highest then a
    else
      assert Linked(ps, ps[a].sibling);
      MoveRight(ps, ps[a].sibling, k)
  }

  lemma RouteFollowsRange(ps: Pages, p: Page, k: Key)
    requires PageOk(p) && ChildrenLinked(ps, p) && p.level > 0 && p.Holds(k)
    ensures var c := Route(p, k); c in ps && ps[c].level == p.level - 1 && ps[c].lowest <= k
  {}

  /** A whole search over one snapshot of the tree: right and down moves only. */
  function Descend(ps: Pages, a: Addr, k: Key): (leaf: Addr)
    requires AllLinked(ps) && a in ps && ps[a].lowest <= k < MAX_KEY
    ensures leaf in ps && ps[leaf].level == 0 && ps[leaf].Holds(k)
    decreases ps[a].level
  {
    var b := MoveRight(ps, a, k);
    assert Linked(ps, b);
    if ps[b].level == 0 then b
    else
      RouteFollowsRange(ps, ps[b], k);
      Descend(ps, Route(ps[b], k), k)
  }

  /** The abstract map: what the one leaf that holds k stores under it. */
  ghost function View(ps: Pages, root: Addr, k: Key): Option<Bytes>
    requires AllLinked(ps) && RootOnTop(ps, root) && MIN_KEY <= k < MAX_KEY
  {
    assert Linked(ps, Descend(ps, root, k));
    Get(ps[Descend(ps, root, k)], k)
  }

  /** Every leaf that holds k answers for it. */
  lemma ViewAt(ps: Pages, root: Addr, a: Addr, k: Key)
    requires AllLinked(ps) && Disjoint(ps) && RootOnTop(ps, root)
    requires a in ps && ps[a].level == 0 && ps[a].Holds(k)
    ensures PageOk(ps[a]) && View(ps, root, k) == Get(ps[a], k)
  {
    assert Linked(ps, a);
    PageUnique(ps, a, Descend(ps, root, k), k);
  }

  /* ---- Storing a record ---- */

  function StoreIn(p: Page, k: Key, v: Val): (q: Page)
    requires |p.keys| == |p.vals|
    ensures |q.keys| == |q.vals|
  {
    if v.Row? then LeafPut(p, k, v.row) else InternalPut(p, k, v.addr)
  }

  lemma StoredPageOk(p: Page, k: Key, v: Val)
    requires PageOk(p) && !Full(p) && p.Holds(k)
    requires if p.level == 0 then v.Row? else v.Child? && k > p.lowest && k !in p.keys
    ensures PageOk(StoreIn(p, k, v))
  {
    hide Upper, Sorted;
    if p.level == 0 && Find(p.keys, k).Some? { RowOverwritten(p, k, v.row); }
    else {
      if p.level == 0 && k in p.keys { FindComplete(p.keys, k); }
      WithRecordOk(p, k, v);
    }
  }

  lemma RowOverwritten(p: Page, k: Key, row: Bytes)
    requires PageOk(p) && p.level == 0 && Find(p.keys, k).Some?
    ensures PageOk(LeafPut(p, k, row))
  {
    hide Find, Sorted;
  }

  lemma WithRecordOk(p: Page, k: Key, v: Val)
    requires PageOk(p) && !Full(p) && p.Holds(k) && k !in p.keys
    requires if p.level == 0 then v.Row? else v.Child? && k > p.lowest
    ensures PageOk(WithRecord(p, k, v))
  {
    WithRecordSorted(p, k, v);
    hide Upper, Sorted;
    var u, q := Upper(p.keys, k), WithRecord(p, k, v);
    forall i | 0 <= i < |q.keys|
      ensures q.Holds(q.keys[i])
      ensures if p.level == 0 then q.vals[i].Row? else p.lowest < q.keys[i] && q.vals[i].Child? {
      if i != u {
        var j := if i < u then i else i - 1;
        assert q.keys[i] == p.keys[j] && q.vals[i] == p.vals[j];
      }
    }
  }

  lemma TreeIsLinked(ps: Pages, root: Addr, pend: set<Addr>, a: Addr)
    requires Tree(ps, root, pend) && a in ps
    ensures Linked(ps, a)
  {
  }

  lemma WaitingIsPage(ps: Pages, root: Addr, pend: set<Addr>, c: Addr)
    requires Tree(ps, root, pend) && c in pend
    ensures c in ps
  {
  }

  lemma TreeHasNoNull(ps: Pages, root: Addr, pend: set<Addr>)
    requires Tree(ps, root, pend)
    ensures NULL !in ps
  {}

  lemma LinkedPage(ps: Pages, a: Addr)
    requires Linked(ps, a)
    ensures a in ps && PageOk(ps[a]) && |ps[a].keys| == |ps[a].vals| && ps[a].lowest < ps[a].highest
    ensures RightLinked(ps, ps[a]) && ChildrenLinked(ps, ps[a])
  {
  }

  lemma LinksStable(ps: Pages, qs: Pages, p: Page)
    requires Evolves(ps, qs) && RightLinked(ps, p) && ChildrenLinked(ps, p)
    ensures RightLinked(qs, p) && ChildrenLinked(qs, p)
  {}

  /** Rewriting one page within its range and level. */
  lemma StoreFrame(ps: Pages, a: Addr, q: Page)
    requires AllLinked(ps) && Disjoint(ps) && a in ps
    requires PageOk(q) && q.level == ps[a].level && q.lowest == ps[a].lowest && q.highest == ps[a].highest
    requires RightLinked(ps, q) && ChildrenLinked(ps, q)
    ensures AllLinked(ps[a := q]) && Evolves(ps, ps[a := q]) && Disjoint(ps[a := q])
  {
    var qs := ps[a := q];
    forall x {:trigger Linked(qs, x)} | x in qs ensures Linked(qs, x) {
      assert x != a ==> Linked(ps, x);
      LinksStable(ps, qs, qs[x]);
    }
    forall x, y {:trigger Apart(qs, x, y)} | x in qs && y in qs ensures Apart(qs, x, y) {
      assert Apart(ps, x, y);
    }
  }

  /** A leaf store keeps the tree. */
  lemma StoreRowKeepsTree(ps: Pages, root: Addr, pend: set<Addr>, a: Addr, k: Key, row: Bytes)
    requires Tree(ps, root, pend) && Linked(ps, a) && ps[a].level == 0 && ps[a].Holds(k) && !Full(ps[a])
    ensures var qs := ps[a := StoreIn(ps[a], k, Row(row))]; Tree(qs, root, pend) && Evolves(ps, qs)
  {
    var qs := ps[a := StoreIn(ps[a], k, Row(row))];
    StoredPageOk(ps[a], k, Row(row));
    StoreFrame(ps, a, qs[a]);
    forall c | c in qs ensures c == root || c in pend || HasParent(qs, c) {
      if c != root && c !in pend {
        var x :| x in ps && IsChild(ps[x], c);
        assert IsChild(qs[x], c);
      }
    }
  }

  lemma ChildNamedBy(ps: Pages, a: Addr, i: nat, c: Addr)
    requires AllLinked(ps) && Disjoint(ps) && Linked(ps, a) && c in ps && ps[a].level == ps[c].level + 1
    requires i < |ps[a].keys| && ps[a].keys[i] == ps[c].lowest
    ensures IsChild(ps[a], c)
  {
    LowestUnique(ps, c, ps[a].vals[i].addr);
    assert ps[a].vals[i] == Child(c);
  }

  /** A separator that is still to be posted is not in the page it belongs to, and not its lowest key. */
  lemma SeparatorIsNew(ps: Pages, root: Addr, pend: set<Addr>, a: Addr, c: Addr)
    requires Tree(ps, root, pend) && Linked(ps, a) && c in pend && ps[a].level == ps[c].level + 1
    ensures ps[c].lowest !in ps[a].keys && ps[c].lowest != ps[a].lowest
  {
    var p := ps[a];
    forall i | 0 <= i < |p.keys| ensures p.keys[i] == ps[c].lowest ==> IsChild(p, c) {
      if p.keys[i] == ps[c].lowest { ChildNamedBy(ps, a, i, c); }
    }
    assert p.leftmost != c ==> ps[p.leftmost].lowest != ps[c].lowest by {
      if ps[p.leftmost].lowest == ps[c].lowest { LowestUnique(ps, c, p.leftmost); }
    }
    assert !IsChild(ps[a], c);
  }

  lemma MembersOfInsert<T>(s: seq<T>, i: nat, x: T, y: T)
    requires i <= |s|
    ensures y in Insert(s, i, x) <==> y == x || y in s
  {
    if y in s {
      var j :| 0 <= j < |s| && s[j] == y;
      assert Insert(s, i, x)[if j < i then j else j + 1] == y;
    }
    assert Insert(s, i, x)[i] == x;
  }

  lemma PostedPageLinked(ps: Pages, p: Page, c: Addr)
    requires RightLinked(ps, p) && ChildrenLinked(ps, p) && PageOk(p) && c in ps && p.level == ps[c].level + 1
    ensures RightLinked(ps, InternalPut(p, ps[c].lowest, c)) && ChildrenLinked(ps, InternalPut(p, ps[c].lowest, c))
  {
    var q := InternalPut(p, ps[c].lowest, c);
    var u := Upper(p.keys, ps[c].lowest);
    forall i | 0 <= i < |q.keys| ensures q.vals[i].Child? && ChildAt(ps, q.level - 1, q.keys[i], q.vals[i].addr) {
      if i != u {
        var j := if i < u then i else i - 1;
        assert q.keys[i] == p.keys[j] && q.vals[i] == p.vals[j];
      }
    }
  }

  /** Posting a separator keeps the tree, and its child is no longer waiting. */
  lemma StoreChildKeepsTree(ps: Pages, root: Addr, pend: set<Addr>, a: Addr, c: Addr)
    requires Tree(ps, root, pend) && Linked(ps, a) && c in pend && ps[a].level == ps[c].level + 1
    requires ps[a].Holds(ps[c].lowest) && !Full(ps[a])
    ensures var qs := ps[a := StoreIn(ps[a], ps[c].lowest, Child(c))];
            Tree(qs, root, pend - {c}) && Evolves(ps, qs)
  {
    hide PageOk, Upper, AllLinked, Disjoint, Linked, Evolves, RightLinked, ChildrenLinked;
    LinkedPage(ps, a);
    var k := ps[c].lowest;
    var qs := ps[a := StoreIn(ps[a], k, Child(c))];
    SeparatorIsNew(ps, root, pend, a, c);
    StoredPageOk(ps[a], k, Child(c));
    PostedPageLinked(ps, ps[a], c);
    StoreFrame(ps, a, qs[a]);
    forall y ensures IsChild(qs[a], y) <==> y == c || IsChild(ps[a], y) {
      MembersOfInsert(ps[a].vals, Upper(ps[a].keys, k), Child(c), Child(y));
    }
    forall d | d in qs ensures d == root || d in pend - {c} || HasParent(qs, d) {
      if d == c { assert IsChild(qs[a], d); }
      else if d != root && d !in pend {
        var x :| x in ps && IsChild(ps[x], d);
        assert IsChild(qs[x], d);
      }
    }
  }

  /* ---- Splitting a full page ---- */

  lemma SplitPagesOk(p: Page, b: Addr)
    requires PageOk(p) && Full(p) && b != NULL
    ensures p.lowest < MidKey(p) < p.highest
    ensures PageOk(SplitLeft(p, b)) && PageOk(SplitRight(p))
    ensures !Full(SplitLeft(p, b)) && !Full(SplitRight(p))
  {
    var m := |p.keys| / 2;
    assert p.keys[0] < p.keys[m];
    SortedSlice(p.keys, 0, m);
    SortedSlice(p.keys, if p.level == 0 then m else m + 1, |p.keys|);
    InHalves(p.keys, m);
    hide Sorted;
  }

  lemma SortedSlice(keys: seq<Key>, i: nat, j: nat)
    requires Sorted(keys) && i <= j <= |keys|
    ensures Sorted(keys[i..j])
  {}

  lemma InHalves(keys: seq<Key>, m: nat)
    requires Sorted(keys) && m < |keys|
    ensures forall i :: 0 <= i < m ==> keys[i] < keys[m]
    ensures forall i :: m < i < |keys| ==> keys[m] < keys[i]
  {}

  lemma SplitPagesLinked(ps: Pages, qs: Pages, p: Page, b: Addr)
    requires PageOk(p) && Full(p) && RightLinked(ps, p) && ChildrenLinked(ps, p) && b != NULL
    requires Evolves(ps, qs) && ChildAt(qs, p.level, MidKey(p), b)
    ensures RightLinked(qs, SplitLeft(p, b)) && ChildrenLinked(qs, SplitLeft(p, b))
    ensures RightLinked(qs, SplitRight(p)) && ChildrenLinked(qs, SplitRight(p))
  {
    LinksStable(ps, qs, p);
  }

  function Split(ps: Pages, a: Addr, b: Addr): Pages
    requires a in ps && ps[a].keys != [] && |ps[a].keys| == |ps[a].vals|
  {
    ps[a := SplitLeft(ps[a], b)][b := SplitRight(ps[a])]
  }

  lemma SplitFrame(ps: Pages, a: Addr, b: Addr)
    requires AllLinked(ps) && Disjoint(ps) && Linked(ps, a) && Full(ps[a]) && b !in ps && b != NULL
    ensures var qs := Split(ps, a, b); AllLinked(qs) && Disjoint(qs) && Evolves(ps, qs)
  {
    var qs := Split(ps, a, b);
    SplitPagesOk(ps[a], b);
    SplitPagesLinked(ps, qs, ps[a], b);
    forall x {:trigger Linked(qs, x)} | x in qs ensures Linked(qs, x) {
      if x != a && x != b {
        assert Linked(ps, x);
        LinksStable(ps, qs, qs[x]);
      }
    }
    forall x, y {:trigger Apart(qs, x, y)} | x in qs && y in qs ensures Apart(qs, x, y) {
      assert Apart(ps, if x == b then a else x, if y == b then a else y);
    }
  }

  lemma SplitChildren(p: Page, b: Addr, c: Addr)
    requires PageOk(p) && Full(p)
    ensures IsChild(p, c) <==> IsChild(SplitLeft(p, b), c) || IsChild(SplitRight(p), c)
  {
    var m := |p.keys| / 2;
    assert p.vals == p.vals[..m] + p.vals[m..];
    if p.level > 0 { assert p.vals[m..] == [p.vals[m]] + p.vals[m + 1..]; }
  }

  lemma ChildInside(ps: Pages, a: Addr, c: Addr)
    requires AllLinked(ps) && a in ps && IsChild(ps[a], c)
    ensures c in ps && ps[c].level == ps[a].level - 1
  {
    assert Linked(ps, a);
    if ps[a].leftmost != c {
      var i :| 0 <= i < |ps[a].vals| && ps[a].vals[i] == Child(c);
    }
  }

  lemma SplitStillNotLinked(ps: Pages, pend: set<Addr>, a: Addr, b: Addr)
    requires AllLinked(ps) && NotLinkedYet(ps, pend) && Linked(ps, a) && Full(ps[a]) && b !in ps && b != NULL
    ensures NotLinkedYet(Split(ps, a, b), pend + {b})
  {
    var qs := Split(ps, a, b);
    SplitPagesOk(ps[a], b);
    forall c, x {:trigger IsChild(qs[x], c)} | c in pend + {b} && x in qs ensures !IsChild(qs[x], c) {
      var y := if x == b then a else x;
      SplitChildren(ps[a], b, c);
      assert c in ps ==> !IsChild(ps[y], c);
      if IsChild(ps[y], c) { ChildInside(ps, y, c); }
    }
  }

  lemma SplitNoneLost(ps: Pages, root: Addr, pend: set<Addr>, a: Addr, b: Addr)
    requires NoneLost(ps, root, pend) && Linked(ps, a) && Full(ps[a]) && b !in ps
    ensures NoneLost(Split(ps, a, b), root, pend + {b})
  {
    var qs := Split(ps, a, b);
    forall c | c in ps && c != root && c !in pend ensures HasParent(qs, c) {
      var x :| x in ps && IsChild(ps[x], c);
      SplitChildren(ps[a], b, c);
      assert IsChild(qs[x], c) || IsChild(qs[b], c);
    }
  }

  /** Splitting keeps the tree; the new sibling waits for its separator. */
  lemma SplitKeepsTree(ps: Pages, root: Addr, pend: set<Addr>, a: Addr, b: Addr)
    requires Tree(ps, root, pend) && Linked(ps, a) && Full(ps[a]) && b !in ps && b != NULL
    ensures Tree(Split(ps, a, b), root, pend + {b}) && Evolves(ps, Split(ps, a, b))
  {
    SplitFrame(ps, a, b);
    SplitStillNotLinked(ps, pend, a, b);
    SplitNoneLost(ps, root, pend, a, b);
  }

  /* ---- A new root ---- */

  lemma NewRootFrame(ps: Pages, r: Addr, q: Page)
    requires AllLinked(ps) && Disjoint(ps) && r !in ps && r != NULL
    requires PageOk(q) && RightLinked(ps, q) && ChildrenLinked(ps, q) && forall a :: a in ps ==> ps[a].level < q.level
    ensures AllLinked(ps[r := q]) && Evolves(ps, ps[r := q]) && Disjoint(ps[r := q])
  {
    var qs := ps[r := q];
    forall x {:trigger Linked(qs, x)} | x in qs ensures Linked(qs, x) {
      assert x != r ==> Linked(ps, x);
      LinksStable(ps, qs, qs[x]);
    }
    forall x, y {:trigger Apart(qs, x, y)} | x in qs && y in qs ensures Apart(qs, x, y) {
      if x != r && y != r { assert Apart(ps, x, y); }
    }
  }

  /** A new root over the old one and one waiting sibling keeps the tree and raises it by one level. */
  lemma NewRootKeepsTree(ps: Pages, root: Addr, pend: set<Addr>, c: Addr, r: Addr)
    requires Tree(ps, root, pend) && c in pend && ps[c].level == ps[root].level && r !in ps && r != NULL
    ensures var qs := ps[r := NewRoot(root, ps[c].lowest, c, ps[root].level + 1)];
            Tree(qs, r, pend - {c}) && Evolves(ps, qs)
  {
    var q := NewRoot(root, ps[c].lowest, c, ps[root].level + 1);
    var qs := ps[r := q];
    assert Linked(ps, c);
    NewRootFrame(ps, r, q);
    assert forall y :: IsChild(q, y) <==> y == root || y == c;
    forall d | d in qs ensures d == r || d in pend - {c} || HasParent(qs, d) {
      if d == root || d == c { assert IsChild(qs[r], d); }
      else if d != r && d !in pend {
        var x :| x in ps && IsChild(ps[x], d);
        assert IsChild(qs[x], d);
      }
    }
    forall d, a | d in pend - {c} && a in qs ensures !IsChild(qs[a], d) {
      assert d in ps && ps[d].lowest > MIN_KEY;
    }
  }
}
