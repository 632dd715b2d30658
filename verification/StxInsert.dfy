/** Insertion into the B+ tree: leaf splits, inner splits, and growth at the root. */
module StxInsert {
  import opened StxTree

  function InsertAt<T>(s: seq<T>, i: nat, x: T): (r: seq<T>)
    requires i <= |s|
    ensures |r| == |s| + 1
  {
    s[..i] + [x] + s[i..]
  }

  /** What an insertion did to a node: nothing (the key was there), or it grew, or it grew and was split. */
  datatype Ins<V> = Kept | One(node: Node<V>) | Two(left: Node<V>, key: Key, right: Node<V>)

  /** A full leaf is halved first; the code's renewal of the split key for an insert behind the last slot of the left
      half never applies, since such an insert goes to the right half. */
  function InsertLeaf<V>(id: Id, items: seq<Item<V>>, k: Key, v: V, spare: Id): Ins<V> {
    var slot := LowerItem(items, k);
    if !ALLOW_DUPLICATES && slot < |items| && items[slot].key == k then Kept
    else if |items| < LEAF_MAX then One(Leaf(id, InsertAt(items, slot, Item(k, v))))
    else
      var mid := |items| / 2;
      var key := items[mid - 1].key;
      if slot >= mid then Two(Leaf(id, items[..mid]), key, Leaf(spare, InsertAt(items[mid..], slot - mid, Item(k, v))))
      else Two(Leaf(id, InsertAt(items[..mid], slot, Item(k, v))), key, Leaf(spare, items[mid..]))
  }

  /** split_inner_node's middle, shifted when the larger half would also get the new child. */
  function Middle(n: nat, slot: nat): (m: nat)
    requires n >= 8
    ensures m < n
  {
    if slot <= n / 2 && n / 2 > n - (n / 2 + 1) then n / 2 - 1 else n / 2
  }

  /** The new child goes in behind child slot; a full node is split first. */
  function InsertInner<V>(keys: seq<Key>, kids: seq<Node<V>>, slot: nat, key: Key, kid: Node<V>): Ins<V>
    requires slot <= |keys| && |kids| == |keys| + 1
  {
    if |keys| < INNER_MAX then One(Inner(InsertAt(keys, slot, key), InsertAt(kids, slot + 1, kid)))
    else
      var mid := Middle(|keys|, slot);
      var lk, lc, up, rk, rc := keys[..mid], kids[..mid + 1], keys[mid], keys[mid + 1..], kids[mid + 1..];
      if slot == mid + 1 && mid < |rk| then Two(Inner(lk + [up], lc + [rc[0]]), key, Inner(rk, rc[0 := kid]))
      else if slot >= mid + 1 then
        Two(Inner(lk, lc), up, Inner(InsertAt(rk, slot - (mid + 1), key), InsertAt(rc, slot - (mid + 1) + 1, kid)))
      else Two(Inner(InsertAt(lk, slot, key), InsertAt(lc, slot + 1, kid)), up, Inner(rk, rc))
  }

  /** insert_descend; a leaf that is split gets its new sibling at the address `spare`. */
  function Insert<V>(n: Node<V>, h: nat, k: Key, v: V, spare: Id): Ins<V>
    requires Fits(n, h) || IsFresh(n, h)
    decreases h
  {
    match n
    case Leaf(id, items) => InsertLeaf(id, items, k, v, spare)
    case Inner(keys, kids) =>
      var slot := Lower(keys, k);
      KidAt(kids, slot, h - 1);
      match Insert(kids[slot], h - 1, k, v, spare)
      case Kept => Kept
      case One(c) => One(Inner(keys, kids[slot := c]))
      case Two(l, key, r) => InsertInner(keys, kids[slot := l], slot, key, r)
  }

  /** insert_start: a split root gets a new root above it. */
  function InsertRoot<V>(n: Node<V>, h: nat, k: Key, v: V, spare: Id): (Node<V>, nat)
    requires Fits(n, h) || IsFresh(n, h)
  {
    match Insert(n, h, k, v, spare)
    case Kept => (n, h)
    case One(c) => (c, h)
    case Two(l, key, r) => (Inner([key], [l, r]), h + 1)
  }

  /* ---- What insertion keeps ---- */

  /** A split inner node is the node with the new child, cut in two around a separator. */
  ghost predicate IsCut<V>(r: Ins<V>, keys: seq<Key>, kids: seq<Node<V>>, m: nat) {
    && m < |keys| && |kids| == |keys| + 1
    && r == Two(Inner(keys[..m], kids[..m + 1]), keys[m], Inner(keys[m + 1..], kids[m + 1..]))
  }

  lemma SplitIsCut<V>(keys: seq<Key>, kids: seq<Node<V>>, slot: nat, key: Key, kid: Node<V>) returns (m: nat)
    requires slot <= |keys| == INNER_MAX && |kids| == |keys| + 1
    ensures IsCut(InsertInner(keys, kids, slot, key, kid), InsertAt(keys, slot, key), InsertAt(kids, slot + 1, kid), m)
    ensures INNER_MAX / 2 <= m && m + 1 + INNER_MAX / 2 <= |keys| + 1
  {
    hide InsertInner, IsCut, InsertAt;
    var mid := Middle(|keys|, slot);
    m := if slot >= mid + 1 && !(slot == mid + 1 && mid < |keys| - (mid + 1)) then mid else mid + 1;
    if slot <= mid { CutLeft(keys, kids, slot, key, kid); }
    else if m == mid { CutRight(keys, kids, slot, key, kid); }
    else { CutHere(keys, kids, slot, key, kid); }
  }

  lemma CutHere<V>(keys: seq<Key>, kids: seq<Node<V>>, slot: nat, key: Key, kid: Node<V>)
    requires slot <= |keys| == INNER_MAX && |kids| == |keys| + 1
    requires var mid := Middle(|keys|, slot); slot == mid + 1 && mid < |keys| - (mid + 1)
    ensures IsCut(InsertInner(keys, kids, slot, key, kid), InsertAt(keys, slot, key),
                  InsertAt(kids, slot + 1, kid), slot)
  {
    var mid := Middle(|keys|, slot);
    var bk, bc := InsertAt(keys, slot, key), InsertAt(kids, slot + 1, kid);
    assert bk[..slot] == keys[..mid] + [keys[mid]];
    assert bk[slot + 1..] == keys[mid + 1..];
    assert bc[..slot + 1] == kids[..mid + 1] + [kids[mid + 1]];
    assert bc[slot + 1..] == kids[mid + 1..][0 := kid];
  }

  lemma CutRight<V>(keys: seq<Key>, kids: seq<Node<V>>, slot: nat, key: Key, kid: Node<V>)
    requires slot <= |keys| == INNER_MAX && |kids| == |keys| + 1
    requires var mid := Middle(|keys|, slot); slot >= mid + 1 && !(slot == mid + 1 && mid < |keys| - (mid + 1))
    ensures IsCut(InsertInner(keys, kids, slot, key, kid), InsertAt(keys, slot, key), InsertAt(kids, slot + 1, kid),
                  Middle(|keys|, slot))
  {
    hide InsertAt;
    var mid := Middle(|keys|, slot);
    var bk := InsertAt(keys, slot, key);
    InsertRight(keys, slot, key, mid + 1);
    InsertRight(kids, slot + 1, kid, mid + 1);
    assert bk[..mid] == bk[..mid + 1][..mid] == keys[..mid] && bk[mid] == bk[..mid + 1][mid];
    assert slot + 1 - (mid + 1) == slot - (mid + 1) + 1;
  }

  lemma CutLeft<V>(keys: seq<Key>, kids: seq<Node<V>>, slot: nat, key: Key, kid: Node<V>)
    requires slot <= |keys| == INNER_MAX && |kids| == |keys| + 1 && slot <= Middle(|keys|, slot)
    ensures IsCut(InsertInner(keys, kids, slot, key, kid), InsertAt(keys, slot, key), InsertAt(kids, slot + 1, kid),
                  Middle(|keys|, slot) + 1)
  {
    hide InsertAt;
    var mid := Middle(|keys|, slot);
    var bk := InsertAt(keys, slot, key);
    InsertLeft(keys, slot, key, mid);
    InsertLeft(kids, slot + 1, kid, mid + 1);
    assert bk[mid + 2..] == bk[mid + 1..][1..] == keys[mid + 1..] && bk[mid + 1] == bk[mid + 1..][0];
  }

  lemma InsertLeft<T>(s: seq<T>, i: nat, x: T, m: nat)
    requires i <= m <= |s|
    ensures InsertAt(s, i, x)[..m + 1] == InsertAt(s[..m], i, x) && InsertAt(s, i, x)[m + 1..] == s[m..]
  {
  }

  lemma InsertRight<T>(s: seq<T>, i: nat, x: T, m: nat)
    requires m <= i <= |s|
    ensures InsertAt(s, i, x)[..m] == s[..m] && InsertAt(s, i, x)[m..] == InsertAt(s[m..], i - m, x)
  {
    var r := InsertAt(s, i, x);
    assert r[m..] == s[m..i] + [x] + s[i..];
    assert s[m..][..i - m] == s[m..i] && s[m..][i - m..] == s[i..];
  }

  /** A list of children with fitting separators, cut in two around a separator: two good nodes. */
  lemma CutOk<V>(r: Ins<V>, keys: seq<Key>, kids: seq<Node<V>>, m: nat, h: nat)
    requires IsCut(r, keys, kids, m) && h > 0 && KidsOk(kids, h - 1) && KeysOk(keys, kids, h - 1)
    requires MinUse(h) <= m <= MaxUse(h) && MinUse(h) <= |keys| - m - 1 <= MaxUse(h)
    ensures KidOk(r.left, h) && KidOk(r.right, h) && r.key == MaxKey(r.left, h)
    ensures Flatten(r.left, h) + Flatten(r.right, h) == FlatAll(kids, h - 1)
  {
    hide MaxKey, KidOk;
    assert kids[..m + 1] + kids[m + 1..] == kids;
    FlatConcat(kids[..m + 1], kids[m + 1..], h - 1);
    assert r.key == MaxKey(kids[m], h - 1) && kids[..m + 1][m] == kids[m];
    KeysOkSuffix(keys, kids, m + 1, h - 1);
    KidOkIntro(r.left, h);
    KidOkIntro(r.right, h);
    MaxOfInner(r.left, h);
  }

  lemma KeysOkSuffix<V>(keys: seq<Key>, kids: seq<Node<V>>, m: nat, h: nat)
    requires KeysOk(keys, kids, h) && m <= |keys|
    ensures KeysOk(keys[m..], kids[m..], h)
  {
    hide MaxKey;
    var ks := keys[m..];
    forall i {:trigger ks[i]} | 0 <= i < |ks| ensures ks[i] == MaxKey(kids[m..][i], h) {
      assert ks[i] == keys[m + i];
    }
  }

  lemma KidOkIntro<V>(n: Node<V>, h: nat)
    requires Fits(n, h) && Use(n) >= MinUse(h)
    ensures KidOk(n, h)
  {
  }

  lemma MaxOfInner<V>(n: Node<V>, h: nat)
    requires n.Inner? && h > 0 && n.kids != []
    ensures MaxKey(n, h) == MaxKey(n.kids[|n.kids| - 1], h - 1)
  {
  }

  predicate IsDuplicate<V>(f: seq<Item<V>>, k: Key) {
    var p := LowerItem(f, k); !ALLOW_DUPLICATES && p < |f| && f[p].key == k
  }

  /** The node, or the two, that an insertion left are good and hold the items g. */
  ghost predicate Holds<V>(r: Ins<V>, use: nat, h: nat, g: seq<Item<V>>) {
    match r
    case Kept => false
    case One(c) => Fits(c, h) && Use(c) >= use && Flatten(c, h) == g
    case Two(l, key, c) => KidOk(l, h) && KidOk(c, h) && key == MaxKey(l, h) && Flatten(l, h) + Flatten(c, h) == g
  }

  /** The insertion put the pair at its place among the items f, and left good nodes. */
  ghost predicate Inserted<V>(n: Node<V>, h: nat, k: Key, v: V, r: Ins<V>) {
    var f := Flatten(n, h);
    if IsDuplicate(f, k) then r.Kept? else Holds(r, Use(n), h, InsertAt(f, LowerItem(f, k), Item(k, v)))
  }

  lemma LeafInserted<V>(id: Id, items: seq<Item<V>>, k: Key, v: V, spare: Id)
    requires Fits(Leaf(id, items), 0)
    ensures Inserted(Leaf(id, items), 0, k, v, InsertLeaf(id, items, k, v, spare))
  {
    hide LowerItem, InsertAt;
    if |items| == LEAF_MAX { InsertInHalves(items, |items| / 2, LowerItem(items, k), Item(k, v)); }
  }

  lemma InsertInHalves<T>(s: seq<T>, m: nat, i: nat, x: T)
    requires m <= |s| && i <= |s|
    ensures i >= m ==> s[..m] + InsertAt(s[m..], i - m, x) == InsertAt(s, i, x)
    ensures i < m ==> InsertAt(s[..m], i, x) + s[m..] == InsertAt(s, i, x) && InsertAt(s[..m], i, x)[m] == s[m - 1]
  {}

  /** Separators and children after child slot was replaced by one with the same last key. */
  lemma KidReplaced<V>(keys: seq<Key>, kids: seq<Node<V>>, slot: nat, c: Node<V>, h: nat)
    requires KidsOk(kids, h) && KeysOk(keys, kids, h) && slot < |kids| && KidOk(c, h)
    requires slot < |keys| ==> MaxKey(c, h) == MaxKey(kids[slot], h)
    ensures KidsOk(kids[slot := c], h) && KeysOk(keys, kids[slot := c], h)
    ensures FlatAll(kids[slot := c], h) == FlatAll(kids[..slot], h) + Flatten(c, h) + FlatAll(kids[slot + 1..], h)
  {
    hide KidOk, MaxKey, FlatAll, Flatten;
    FlatAround(kids[slot := c], slot, h);
    assert kids[slot := c][..slot] == kids[..slot] && kids[slot := c][slot + 1..] == kids[slot + 1..];
  }

  /** Separators and children after child slot was split in two. */
  lemma KidSplit<V>(keys: seq<Key>, kids: seq<Node<V>>, slot: nat, l: Node<V>, key: Key, c: Node<V>, h: nat)
    requires KidsOk(kids, h) && KeysOk(keys, kids, h) && slot < |kids| && KidOk(l, h) && KidOk(c, h)
    requires key == MaxKey(l, h) && (slot < |keys| ==> MaxKey(c, h) == MaxKey(kids[slot], h))
    ensures var bk, bc := InsertAt(keys, slot, key), InsertAt(kids[slot := l], slot + 1, c);
            && KidsOk(bc, h) && KeysOk(bk, bc, h)
            && FlatAll(bc, h) ==
                 FlatAll(kids[..slot], h) + (Flatten(l, h) + Flatten(c, h)) + FlatAll(kids[slot + 1..], h)
  {
    hide KidOk, MaxKey, FlatAll, Flatten;
    var bk, bc := InsertAt(keys, slot, key), InsertAt(kids[slot := l], slot + 1, c);
    assert bc == kids[..slot] + ([l] + ([c] + kids[slot + 1..]));
    FlatConcat(kids[..slot], [l] + ([c] + kids[slot + 1..]), h);
    FlatConcat([l], [c] + kids[slot + 1..], h);
    FlatConcat([c], kids[slot + 1..], h);
    FlatOne(l, h);
    FlatOne(c, h);
  }

  /** insert_descend: exactly the pair is added, at its place, and every node keeps its shape. */
  lemma {:induction false} InsertKeeps<V>(n: Node<V>, h: nat, k: Key, v: V, spare: Id)
    requires Fits(n, h) && Sorted(Flatten(n, h))
    ensures Inserted(n, h, k, v, Insert(n, h, k, v, spare))
    decreases h
  {
    hide KidsOk, KeysOk, KidOk, Sorted, Flatten, FlatAll, LowerItem, MaxKey, InsertInner, InsertAt, Inserted,
         InsertLeaf, Lower;
    if n.Leaf? { LeafInserted(n.id, n.items, k, v, spare); }
    else {
      FitsInner(n, h);
      var slot := Lower(n.keys, k);
      KidAt(n.kids, slot, h - 1);
      LowerInChild(n, h, k);
      InsertKeeps(n.kids[slot], h - 1, k, v, spare);
      InsertUp(n, h, k, v, slot, Insert(n.kids[slot], h - 1, k, v, spare));
    }
  }

  /** What the parent makes of an insertion below it. */
  lemma InsertUp<V>(n: Node<V>, h: nat, k: Key, v: V, slot: nat, r: Ins<V>)
    requires n.Inner? && Fits(n, h) && Sorted(Flatten(n, h)) && slot == Lower(n.keys, k)
    requires Fits(n.kids[slot], h - 1) && Inserted(n.kids[slot], h - 1, k, v, r)
    ensures Inserted(n, h, k, v, match r
                                 case Kept => Kept
                                 case One(c) => One(Inner(n.keys, n.kids[slot := c]))
                                 case Two(l, key, c) => InsertInner(n.keys, n.kids[slot := l], slot, key, c))
  {
    hide KidsOk, KeysOk, Sorted, FlatAll, LowerItem, MaxKey, InsertInner, InsertAt, Lower, Flatten;
    FitsInner(n, h);
    var keys, kids, c, f := n.keys, n.kids, n.kids[slot], Flatten(n, h);
    LowerInChild(n, h, k);
    InnerFlat(n, h);
    KidAt(kids, slot, h - 1);
    var a, b, d := FlatAll(kids[..slot], h - 1), Flatten(c, h - 1), FlatAll(kids[slot + 1..], h - 1);
    var q := LowerItem(b, k);
    LowerUnique(f, k, LowerItem(f, k), |a| + q);
    PlaceInside(a, b, d, q, Item(k, v));
    match r {
      case Kept =>
      case One(e) =>
        if slot < |keys| { SameLast(c, [e], h - 1, q, Item(k, v)); }
        KidReplaced(keys, kids, slot, e, h - 1);
        InnerFlat(Inner(keys, kids[slot := e]), h);
      case Two(l, key, e) =>
        if slot < |keys| { SameLast(c, [l, e], h - 1, q, Item(k, v)); }
        KidSplit(keys, kids, slot, l, key, e, h - 1);
        InnerInserted(keys, kids[slot := l], slot, key, e, h);
    }
  }

  /** After the new child is in place, possibly with a split. */
  lemma InnerInserted<V>(keys: seq<Key>, kids: seq<Node<V>>, slot: nat, key: Key, kid: Node<V>, h: nat)
    requires slot <= |keys| <= INNER_MAX && |kids| == |keys| + 1 && h > 0
    requires KidsOk(InsertAt(kids, slot + 1, kid), h - 1)
    requires KeysOk(InsertAt(keys, slot, key), InsertAt(kids, slot + 1, kid), h - 1)
    ensures Holds(InsertInner(keys, kids, slot, key, kid), |keys|, h, FlatAll(InsertAt(kids, slot + 1, kid), h - 1))
  {
    hide KidsOk, KeysOk, KidOk, FlatAll, MaxKey;
    if |keys| == INNER_MAX {
      var m := SplitIsCut(keys, kids, slot, key, kid);
      hide InsertInner;
      CutOk(InsertInner(keys, kids, slot, key, kid), InsertAt(keys, slot, key), InsertAt(kids, slot + 1, kid), m, h);
    }
  }

  lemma PlaceInside<T>(a: seq<T>, b: seq<T>, d: seq<T>, q: nat, x: T)
    requires q <= |b|
    ensures InsertAt(a + b + d, |a| + q, x) == a + InsertAt(b, q, x) + d
    ensures q < |b| ==> (a + b + d)[|a| + q] == b[q]
  {
  }

  /** An item placed before the last one leaves the last key as it was. */
  lemma SameLast<V>(n: Node<V>, parts: seq<Node<V>>, h: nat, q: nat, x: Item<V>)
    requires Fits(n, h) && 0 < |parts| <= 2 && (forall i :: 0 <= i < |parts| ==> Fits(parts[i], h)) &&
             q < |Flatten(n, h)|
    requires InsertAt(Flatten(n, h), q, x)
          == if |parts| == 1 then Flatten(parts[0], h) else Flatten(parts[0], h) + Flatten(parts[1], h)
    ensures MaxKey(parts[|parts| - 1], h) == MaxKey(n, h)
  {
    hide Fits, Flatten, MaxKey;
    var f, last := Flatten(n, h), parts[|parts| - 1];
    var g, e := InsertAt(f, q, x), Flatten(last, h);
    MaxIsLast(n, h);
    MaxIsLast(last, h);
    assert g[|g| - 1] == f[|f| - 1] && g[|g| - 1] == e[|e| - 1];
  }

  lemma InsertSorted<V>(s: seq<Item<V>>, k: Key, v: V)
    requires Sorted(s)
    ensures Sorted(InsertAt(s, LowerItem(s, k), Item(k, v)))
  {
    hide LowerItem;
    var p := LowerItem(s, k);
    var r := InsertAt(s, p, Item(k, v));
    forall i, j {:trigger r[i], r[j]} | 0 <= i <= j < |r| ensures r[i].key <= r[j].key {
      if i < p && j < p { assert r[i] == s[i] && r[j] == s[j]; }
      else if i < p < j { assert r[i] == s[i] && r[j] == s[j - 1]; }
      else if p < i { assert r[i] == s[i - 1] && r[j] == s[j - 1]; }
      else if p < j { assert r[j] == s[j - 1] && s[p].key <= s[j - 1].key; }
    }
  }

  lemma FirstInsert<V>(n: Node<V>, k: Key, v: V, spare: Id)
    requires IsFresh(n, 0)
    ensures !IsDuplicate(n.items, k) && InsertRoot(n, 0, k, v, spare) == (Leaf(n.id, [Item(k, v)]), 0)
    ensures InsertAt(n.items, LowerItem(n.items, k), Item(k, v)) == [Item(k, v)]
    ensures Valid(Leaf(n.id, [Item(k, v)]), 0)
  {
    assert InsertAt(n.items, LowerItem(n.items, k), Item(k, v)) == [Item(k, v)];
    assert InsertLeaf(n.id, n.items, k, v, spare) == One(Leaf(n.id, [Item(k, v)]));
    assert Insert(n, 0, k, v, spare) == InsertLeaf(n.id, n.items, k, v, spare);
  }

  /** insert: a fresh or valid tree becomes valid, of the same height or one higher, and holds exactly one pair more, in
      its place; a disallowed duplicate changes nothing. */
  lemma InsertIsInsert<V>(n: Node<V>, h: nat, k: Key, v: V, spare: Id)
    requires Valid(n, h) || IsFresh(n, h)
    ensures var (t, g) := InsertRoot(n, h, k, v, spare); var f := Flatten(n, h);
            && Valid(t, g) && h <= g <= h + 1
            && Flatten(t, g) == if IsDuplicate(f, k) then f else InsertAt(f, LowerItem(f, k), Item(k, v))
  {
    hide LowerItem, KidOk, Sorted, MaxKey, InsertAt, Insert;
    var f := Flatten(n, h);
    if IsFresh(n, h) { FirstInsert(n, k, v, spare); return; }
    InsertKeeps(n, h, k, v, spare);
    InsertSorted(f, k, v);
    var r := Insert(n, h, k, v, spare);
    if r.Two? {
      KidOkMeans(r.left, h);
      FlatConcat([r.left], [r.right], h);
      FlatOne(r.left, h);
      FlatOne(r.right, h);
      assert [r.left] + [r.right] == [r.left, r.right];
      var t := Inner([r.key], [r.left, r.right]);
      assert KidsOk(t.kids, h) && KeysOk(t.keys, t.kids, h);
      assert Fits(t, h + 1);
    }
  }

  /** Without duplicates allowed, the keys of a tree stay distinct. */
  lemma DistinctStays<V>(n: Node<V>, h: nat, k: Key, v: V, spare: Id)
    requires (Valid(n, h) || IsFresh(n, h)) && Distinct(Flatten(n, h))
    ensures var (t, g) := InsertRoot(n, h, k, v, spare); ALLOW_DUPLICATES || Distinct(Flatten(t, g))
  {
    hide InsertRoot, Valid, Flatten, LowerItem;
    InsertIsInsert(n, h, k, v, spare);
    var f := Flatten(n, h);
    if !ALLOW_DUPLICATES && !IsDuplicate(f, k) { InsertDistinct(f, LowerItem(f, k), Item(k, v)); }
  }

  lemma InsertDistinct<V>(s: seq<Item<V>>, p: nat, x: Item<V>)
    requires Distinct(s) && IsLower(s, x.key, p) && (p < |s| ==> s[p].key != x.key)
    ensures Distinct(InsertAt(s, p, x))
  {
    var r := InsertAt(s, p, x);
    forall i, j {:trigger r[i], r[j]} | 0 <= i < j < |r| ensures r[i].key < r[j].key {
      if i < p && j < p { assert r[i] == s[i] && r[j] == s[j]; }
      else if i < p && p < j { assert r[i] == s[i] && r[j] == s[j - 1]; }
      else if p < i { assert r[i] == s[i - 1] && r[j] == s[j - 1]; }
      else if p < j { assert r[j] == s[j - 1] && s[p].key <= s[j - 1].key; }
    }
  }

  lemma KidOkMeans<V>(n: Node<V>, h: nat)
    requires KidOk(n, h)
    ensures Fits(n, h) && Use(n) >= MinUse(h)
  {
  }
}
