/** What the page steps mean: the abstract map changes only when a row is stored, by exactly that key. */
module BLinkMeaning {
  import opened Options
  import opened Endian
  import opened BLinkPage
  import opened BLinkTree

  /* ---- One page ---- */

  lemma InsertKeepsFind(p: Page, k: Key, v: Val, x: Key)
    requires |p.keys| == |p.vals| && Sorted(p.keys) && k !in p.keys
    ensures var q := WithRecord(p, k, v);
            if x == k then Find(q.keys, x) == Some(Upper(p.keys, k))
            else if x in p.keys
            then Find(p.keys, x).Some? && Find(q.keys, x).Some? &&
              q.vals[Find(q.keys, x).value] == p.vals[Find(p.keys, x).value]
            else Find(q.keys, x) == None
  {
    hide Upper, Sorted;
    var u, q := Upper(p.keys, k), WithRecord(p, k, v);
    WithRecordSorted(p, k, v);
    if x == k {
      FindAt(q.keys, x, u);
    } else if x in p.keys {
      var i :| 0 <= i < |p.keys| && p.keys[i] == x;
      FindAt(p.keys, x, i);
      FindAt(q.keys, x, if i < u then i else i + 1);
    } else {
      MembersOfInsert(p.keys, u, k, x);
    }
  }

  /** A leaf store changes what is stored under k and nothing else. */
  lemma LeafPutMeaning(p: Page, k: Key, row: Bytes, x: Key)
    requires LeafShape(p) && Sorted(p.keys)
    ensures LeafShape(LeafPut(p, k, row))
    ensures Get(LeafPut(p, k, row), x) == if x == k then Some(row) else Get(p, x)
  {
    hide Upper, Sorted;
    if Find(p.keys, k).None? {
      if k in p.keys { FindComplete(p.keys, k); }
      InsertKeepsFind(p, k, Row(row), x);
    }
  }

  lemma UpperOfPrefix(keys: seq<Key>, m: nat, x: Key)
    requires Sorted(keys) && m <= |keys| && (m < |keys| ==> x < keys[m])
    ensures Upper(keys[..m], x) == Upper(keys, x)
  {
    UpperUnique(keys, x, Upper(keys[..m], x));
  }

  lemma UpperOfSuffix(keys: seq<Key>, m: nat, x: Key)
    requires Sorted(keys) && 0 < m <= |keys| && keys[m - 1] <= x
    ensures Upper(keys, x) == Upper(keys[m..], x) + m
  {
    UpperUnique(keys, x, Upper(keys[m..], x) + m);
  }

  lemma FindInHalves(keys: seq<Key>, m: nat, x: Key)
    requires Sorted(keys) && 0 < m < |keys|
    ensures x < keys[m] ==> Find(keys[..m], x) == Find(keys, x)
    ensures x >= keys[m] ==> Find(keys, x) == match Find(keys[m..], x) case None => None case Some(i) => Some(i + m)
  {
    assert keys[m - 1] < keys[m];
    hide Upper, Sorted;
    if x < keys[m] { UpperOfPrefix(keys, m, x); }
    else { UpperOfSuffix(keys, m, x); }
  }

  /** Range check plus lookup in the two halves of a split leaf gives what the old leaf gave. */
  lemma SplitLeafMeaning(p: Page, b: Addr, x: Key)
    requires LeafShape(p) && Sorted(p.keys) && |p.keys| >= 2 && p.Holds(x) && p.Holds(MidKey(p))
    ensures LeafShape(SplitLeft(p, b)) && LeafShape(SplitRight(p))
    ensures SplitLeft(p, b).Holds(x) != SplitRight(p).Holds(x)
    ensures Get(p, x) == Get(if SplitLeft(p, b).Holds(x) then SplitLeft(p, b) else SplitRight(p), x)
  {
    FindInHalves(p.keys, |p.keys| / 2, x);
  }

  lemma UpperInHalves(keys: seq<Key>, m: nat, x: Key)
    requires Sorted(keys) && 0 < m < |keys|
    ensures x < keys[m] ==> Upper(keys, x) == Upper(keys[..m], x) <= m
    ensures x >= keys[m] ==> Upper(keys, x) == Upper(keys[m + 1..], x) + m + 1
  {
    if x < keys[m] { UpperOfPrefix(keys, m, x); }
    else { UpperOfSuffix(keys, m + 1, x); }
  }

  lemma RouteIs(p: Page, q: Page, x: Key, off: nat)
    requires InternalShape(p) && InternalShape(q) && Upper(p.keys, x) == Upper(q.keys, x) + off
    requires off + |q.vals| <= |p.vals| && forall i :: 0 <= i < |q.vals| ==> q.vals[i] == p.vals[i + off]
    requires q.leftmost == if off == 0 then p.leftmost else p.vals[off - 1].addr
    ensures Route(p, x) == Route(q, x)
  {
    var u := Upper(q.keys, x);
    if u > 0 { assert q.vals[u - 1] == p.vals[u - 1 + off]; }
  }

  lemma SplitInternalShapes(p: Page, b: Addr)
    requires InternalShape(p) && |p.keys| >= 2
    ensures InternalShape(SplitLeft(p, b)) && InternalShape(SplitRight(p))
  {}

  /** Range check plus routing in the two halves of a split internal page selects the old child. */
  lemma SplitInternalMeaning(p: Page, b: Addr, x: Key)
    requires InternalShape(p) && Sorted(p.keys) && |p.keys| >= 2 && p.Holds(x) && p.Holds(MidKey(p))
    ensures InternalShape(SplitLeft(p, b)) && InternalShape(SplitRight(p))
    ensures SplitLeft(p, b).Holds(x) != SplitRight(p).Holds(x)
    ensures SplitLeft(p, b).Holds(x) ==> Route(p, x) == Route(SplitLeft(p, b), x)
    ensures SplitRight(p).Holds(x) ==> Route(p, x) == Route(SplitRight(p), x)
  {
    SplitInternalShapes(p, b);
    var m := |p.keys| / 2;
    var l, r := SplitLeft(p, b), SplitRight(p);
    UpperInHalves(p.keys, m, x);
    if x < p.keys[m] { RouteIs(p, l, x, 0); }
    else { RouteIs(p, r, x, m + 1); }
  }

  /** Splitting loses no key and repeats none: the halves, with the lifted key between them, are the old keys, and
      they are as even as can be. */
  lemma SplitPartitions(p: Page, b: Addr)
    requires PageOk(p) && Full(p) && b != NULL
    ensures var l, r := SplitLeft(p, b), SplitRight(p);
            if p.level == 0 then l.keys + r.keys == p.keys && l.vals + r.vals == p.vals
            else l.keys + [MidKey(p)] + r.keys == p.keys && l.vals + [Child(r.leftmost)] + r.vals == p.vals
    ensures -1 <= |SplitRight(p).keys| - |SplitLeft(p, b).keys| <= 1
    ensures SplitLeft(p, b).version == p.version + 1 && SplitRight(p).version == 1
  {
    hide Sorted;
    CutAt(p.keys, |p.keys| / 2);
    CutAt(p.vals, |p.keys| / 2);
  }

  lemma CutAt<T>(s: seq<T>, m: nat)
    requires m < |s|
    ensures s[..m] + s[m..] == s && s[..m] + [s[m]] + s[m + 1..] == s
  {}

  /* ---- The whole tree ---- */

  lemma StoreRowView(ps: Pages, root: Addr, pend: set<Addr>, a: Addr, k: Key, row: Bytes, x: Key)
    requires Tree(ps, root, pend) && Linked(ps, a) && ps[a].level == 0 && ps[a].Holds(k) && !Full(ps[a])
    requires MIN_KEY <= x < MAX_KEY
    ensures var qs := ps[a := StoreIn(ps[a], k, Row(row))];
            Tree(qs, root, pend) && View(qs, root, x) == if x == k then Some(row) else View(ps, root, x)
  {
    StoreRowKeepsTree(ps, root, pend, a, k, row);
    var qs := ps[a := StoreIn(ps[a], k, Row(row))];
    var l := Descend(ps, root, x);
    assert Linked(ps, l);
    assert qs[l].Holds(x);
    ViewAt(qs, root, l, x);
    if l == a { LeafPutMeaning(ps[a], k, row, x); }
    else if x == k { PageUnique(ps, a, l, x); }
  }

  /** A step that leaves every leaf as it was leaves the abstract map as it was. */
  lemma ViewStable(ps: Pages, root: Addr, qs: Pages, top: Addr, x: Key)
    requires AllLinked(ps) && RootOnTop(ps, root) && MIN_KEY <= x < MAX_KEY
    requires AllLinked(qs) && Disjoint(qs) && RootOnTop(qs, top)
    requires forall a :: a in ps && ps[a].level == 0 ==> a in qs && qs[a] == ps[a]
    ensures View(qs, top, x) == View(ps, root, x)
  {
    ViewAt(qs, top, Descend(ps, root, x), x);
  }

  lemma SplitView(ps: Pages, root: Addr, pend: set<Addr>, a: Addr, b: Addr, x: Key)
    requires Tree(ps, root, pend) && Linked(ps, a) && Full(ps[a]) && b !in ps && b != NULL
    requires MIN_KEY <= x < MAX_KEY
    ensures Tree(Split(ps, a, b), root, pend + {b}) && View(Split(ps, a, b), root, x) == View(ps, root, x)
  {
    SplitKeepsTree(ps, root, pend, a, b);
    var qs := Split(ps, a, b);
    var l := Descend(ps, root, x);
    if l == a {
      SplitPagesOk(ps[a], b);
      SplitLeafMeaning(ps[a], b, x);
      ViewAt(qs, root, if x < MidKey(ps[a]) then a else b, x);
    } else {
      ViewAt(qs, root, l, x);
    }
  }
}
