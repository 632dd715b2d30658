/** Two runs in full: a search on a tree without rows, and an insert whose separator is posted without a redo logger. */
module BLinkReach {
  import opened Options
  import opened Endian
  import opened BLinkPage
  import opened BLinkTree
  import opened BLinkSystem
  import opened BLinkSafety
  import opened BLinkRuns
  import opened BLinkLogger
  import opened BLinkSolo
  import opened BLinkAlone

  /* ---- A search on a tree without rows ---- */

  function Empty(): Page { Page(0, MIN_KEY, MAX_KEY, NULL, NULL, [], [], 1) }

  function Fresh(a: Addr, threads: nat): Sys {
    Sys(map[a := Empty()], a, None, [Cache(a, a, 0, None)], seq(threads, i => Thread(0, map[], true, 0, Idle)), a)
  }

  lemma Starts(a: Addr, threads: nat) returns (tr: seq<Sys>)
    requires a != NULL
    ensures |tr| == 1 && Run(tr) && Last(tr) == Fresh(a, threads) && Inv(Last(tr))
  {
    tr := [Fresh(a, threads)];
    hide Inv;
    ReachableIsSafe(tr, 0);
  }

  lemma EmptyLinked(a: Addr)
    requires a != NULL
    ensures Linked(map[a := Empty()], a)
  {}

  /** A search before the first insert comes to the empty root leaf, which the code cannot search. */
  lemma SearchOnEmptyTree(a: Addr, k: Key) returns (tr: seq<Sys>)
    requires a != NULL && MIN_KEY <= k < MAX_KEY
    ensures Run(tr) && var s := tr[|tr| - 1];
            && |s.threads| == 1 && s.threads[0].pc == AtLeaf(k, Lookup, a) && s.pages == map[a := Empty()]
            && !Enabled(s, 0, ReadLeaf) && !RowStored(tr, |tr| - 1)
  {
    hide Run, RowStored, Inv;
    tr := Starts(a, 1);
    tr := Acts(tr, 0, Begin(k, Lookup, true));
    tr := Acts(tr, 0, Restart);
    EmptyLinked(a);
    tr := Acts(tr, 0, Read);
    LeafHasRecord(tr, |tr| - 1, a);
  }

  /* ---- How far right a page is ---- */

  /** Pages of one level, where at most page m has changed, which holds k: it is as wide as before, or k went to its new
      sibling b. */
  ghost predicate OneChanged(ps: Pages, qs: Pages, level: nat, m: Addr, k: Key, b: Addr) {
    && m in ps && m in qs && ps[m].level == level && ps[m].Holds(k) && qs[m].lowest == ps[m].lowest
    && (forall y :: y in ps && ps[y].level == level && y != m ==> y in qs && qs[y] == ps[y])
    && (qs[m].Holds(k) || (qs[m].highest <= k && qs[m].sibling == b && b in qs && qs[b].Holds(k)))
  }

  lemma {:induction false} HopsAfter(ps: Pages, qs: Pages, a: Addr, k: Key, m: Addr, b: Addr)
    requires AllLinked(ps) && AllLinked(qs) && Disjoint(ps) && a in ps && ps[a].lowest <= k < MAX_KEY
    requires OneChanged(ps, qs, ps[a].level, m, k, b)
    ensures a in qs && qs[a].lowest == ps[a].lowest
    ensures Hops(qs, a, k) == Hops(ps, a, k) + if qs[m].Holds(k) then 0 else 1
    decreases MAX_KEY - ps[a].lowest
  {
    hide PageOk;
    assert Linked(ps, a);
    LinkedPage(ps, a);
    if k < ps[a].highest {
      PageUnique(ps, a, m, k);
      if !qs[m].Holds(k) { assert Hops(qs, b, k) == 0; }
    } else {
      RightMove(ps, a, k);
      assert Linked(ps, ps[a].sibling);
      LinkedPage(ps, ps[a].sibling);
      assert a != m;
      HopsAfter(ps, qs, ps[a].sibling, k, m, b);
    }
  }

  /* ---- The stage: two threads, one of them stalled ---- */

  /** Page r is where the stalled thread will post. Key x is the last separator of page h of that level, page m is the
      leaf just before x, and its keys are below c. */
  ghost predicate Edge(ps: Pages, x: Key, r: Addr, h: Addr, m: Addr, c: Key) {
    && r in ps && ps[r].level == 1 && ps[r].lowest == MIN_KEY < x < MAX_KEY
    && h in ps && ps[h].level == 1 && ps[h].keys != [] && ps[h].keys[|ps[h].keys| - 1] == x
    && m in ps && ps[m].level == 0 && ps[m].Holds(x - 1) && ps[m].keys != [] && c <= x
    && (forall i :: 0 <= i < |ps[m].keys| ==> ps[m].keys[i] < c)
  }

  function Score(hops: nat, above: nat, below: nat): nat {
    (hops * INTERNAL_CARDINALITY + above) * LEAF_CARDINALITY + below
  }

  ghost function Rank(ps: Pages, x: Key, r: Addr, h: Addr, m: Addr): nat
    requires Whole(ps) && r in ps && h in ps && m in ps && ps[r].lowest <= x < MAX_KEY
  {
    Score(Hops(ps, r, x), |ps[h].keys|, |ps[m].keys|)
  }

  ghost predicate Whole(ps: Pages) { AllLinked(ps) && Disjoint(ps) && NoneFull(ps) }

  lemma IsWhole(s: Sys)
    requires Inv(s)
    ensures Whole(s.pages)
  {}

  lemma EdgeFacts(ps: Pages, x: Key, r: Addr, h: Addr, m: Addr, c: Key)
    requires Whole(ps) && Edge(ps, x, r, h, m, c)
    ensures PageOk(ps[h]) && PageOk(ps[m]) && !Full(ps[h]) && !Full(ps[m]) && ps[h].Holds(x)
    ensures c < x ==> ps[m].Holds(c) && ps[h].Holds(c)
  {
    assert Linked(ps, h) && Linked(ps, m);
    assert ps[m].lowest <= ps[m].keys[0] < c;
    StartsNoLater(ps, h, m, x - 1);
  }

  /** The edge is further on than before. */
  ghost predicate Further(ps: Pages, qs: Pages, x: Key, r: Addr, h: Addr, m: Addr, c: Key, h': Addr, m': Addr)
    requires Whole(ps) && Whole(qs) && Edge(ps, x, r, h, m, c)
  {
    Edge(qs, x, r, h', m', c + 1) && Rank(qs, x, r, h', m') > Rank(ps, x, r, h, m)
  }

  /** A key above all others goes to the end. */
  lemma AppendLast(p: Page, k: Key, v: Val)
    requires PageOk(p) && forall i :: 0 <= i < |p.keys| ==> p.keys[i] < k
    ensures WithRecord(p, k, v).keys == p.keys + [k] && WithRecord(p, k, v).vals == p.vals + [v]
    ensures k !in p.keys && Find(p.keys, k).None?
  {
    UpperUnique(p.keys, k, |p.keys|);
  }

  lemma RowAppended(p: Page, k: Key, row: Bytes)
    requires PageOk(p) && p.level == 0 && forall i :: 0 <= i < |p.keys| ==> p.keys[i] < k
    ensures var q := StoreIn(p, k, Row(row));
            q == WithRecord(p, k, Row(row)) && q.keys == p.keys + [k] && |q.keys| == |q.vals|
  {
    AppendLast(p, k, Row(row));
  }

  lemma InLow(ps: Pages, qs: Pages, level: nat, x: Addr)
    requires Low(ps, level) == Low(qs, level) && x in qs && qs[x].level < level
    ensures x in ps && ps[x] == qs[x]
  {
    assert x in Low(qs, level);
  }

  /** Leaf m was split after q was stored in it, and q1 was stored in page h above it, which may have been split too. */
  ghost predicate BothStored(ps: Pages, qs: Pages, m: Addr, q: Page, b: Addr, h: Addr, q1: Page, d: Addr) {
    && q.keys != [] && |q.keys| == |q.vals| && q1.keys != [] && |q1.keys| == |q1.vals|
    && m in qs && qs[m] == SplitLeft(q, b) && b in qs && qs[b] == SplitRight(q) && h in qs
    && (if Full(q1) then qs[h] == SplitLeft(q1, d) && d in qs && qs[d] == SplitRight(q1) else qs[h] == q1)
    && (forall y :: y in ps && ps[y].level < 2 && y != m && y != h ==> y in qs && qs[y] == ps[y])
  }

  lemma StoredBoth(ps: Pages, qs: Pages, m: Addr, q: Page, b: Addr, h: Addr, q1: Page, d: Addr)
    requires q.keys != [] && |q.keys| == |q.vals| && q1.keys != [] && |q1.keys| == |q1.vals|
    requires q.level == 0 && q1.level == 1
    requires m in ps && h in ps && h != m && b !in ps && d !in ps && d != b && Full(q)
    requires Low(qs, 2) == Low(Placed(Placed(ps, m, q, b), h, q1, d), 2)
    ensures BothStored(ps, qs, m, q, b, h, q1, d)
  {
    hide Low;
    var ws := Placed(Placed(ps, m, q, b), h, q1, d);
    InLow(qs, ws, 2, m);
    InLow(qs, ws, 2, b);
    InLow(qs, ws, 2, h);
    if Full(q1) { InLow(qs, ws, 2, d); }
    forall y | y in ps && ps[y].level < 2 && y != m && y != h ensures y in qs && qs[y] == ps[y] { InLow(qs, ws, 2, y); }
  }

  lemma InsertBelow(keys: seq<Key>, k: Key)
    requires Sorted(keys) && keys != [] && k < keys[|keys| - 1]
    ensures var ks := Insert(keys, Upper(keys, k), k);
            && |ks| == |keys| + 1 && ks[|keys|] == keys[|keys| - 1]
            && forall i :: 0 <= i < |ks| ==> ks[i] <= keys[|keys| - 1]
  {
    var u := Upper(keys, k);
    UpperSplits(keys, k, |keys| - 1);
    var ks := Insert(keys, u, k);
    forall i | 0 <= i < |ks| ensures ks[i] <= keys[|keys| - 1] {
      assert ks[i] == if i < u then keys[i] else if i == u then k else keys[i - 1];
    }
  }

  /** What storing one more separator below x, as q1, does to page p. */
  ghost predicate OneMore(p: Page, q1: Page, x: Key) {
    && q1.level == 1 && q1.lowest == p.lowest && q1.highest == p.highest && |q1.keys| == |q1.vals| == |p.keys| + 1
    && q1.keys[|q1.keys| - 1] == x
    && (Full(q1) ==> MidKey(q1) <= x && SplitRight(q1).keys != [] && SplitRight(q1).Holds(x)
                     && SplitRight(q1).keys[|SplitRight(q1).keys| - 1] == x)
  }

  /** A separator below x leaves x the last one, on the right half when the page is split. */
  lemma LastSeparator(p: Page, k: Key, child: Addr, x: Key)
    requires PageOk(p) && p.level == 1 && !Full(p) && p.keys[|p.keys| - 1] == x && p.Holds(x) && k < x
    ensures OneMore(p, InternalPut(p, k, child), x)
  {
    hide Upper;
    InsertBelow(p.keys, k);
    hide Insert, Sorted;
    InsertSize(p.vals, Upper(p.keys, k), Child(child));
  }

  lemma InsertSize<T>(s: seq<T>, i: nat, x: T)
    requires i <= |s|
    ensures |Insert(s, i, x)| == |s| + 1
  {}

  /** The stalled thread th is at its leaf, which starts at x, and thread 1 is between two inserts. */
  ghost predicate Stage(s: Sys, th: Thread, leaf: Addr, x: Key, r: Addr, h: Addr, m: Addr, c: Key) {
    && Inv(s) && |s.threads| == 2 && s.threads[0] == th && PendOf(th.pc).None?
    && Steady(s, 1) && s.threads[1].pc.Idle? && s.threads[1].turns == 0 && s.threads[1].node == th.node
    && Edge(s.pages, x, r, h, m, c) && leaf in s.pages && s.pages[leaf].level == 0 && s.pages[leaf].lowest == x
  }

  /* ---- Filling the leaves before x ---- */

  lemma RankGrows(h: nat, n: nat, m: nat, h': nat, n': nat, m': nat)
    requires m < LEAF_CARDINALITY && m' > 0
    requires (h' == h && n' == n + 1) || (h' == h + 1 && n + 1 == INTERNAL_CARDINALITY)
    ensures Score(h', n', m') > Score(h, n, m)
  {
    var a, a' := h * INTERNAL_CARDINALITY + n, h' * INTERNAL_CARDINALITY + n';
    assert a' >= a + 1;
    assert a' * LEAF_CARDINALITY >= (a + 1) * LEAF_CARDINALITY;
  }

  lemma EdgeIsLow(s: Sys, th: Thread, leaf: Addr, x: Key, r: Addr, h: Addr, m: Addr, c: Key)
    requires Stage(s, th, leaf, x, r, h, m, c)
    ensures s.entry in s.pages && s.pages[s.entry].level > 0
  {
    hide Inv, Tree;
    SteadyRoot(s, 1);
    OnTop(s.pages, s.top, Pend(s.threads));
  }

  /** The next key goes to the end of the leaf before x. */
  lemma KeyGoesToEdge(s: Sys, s': Sys, th: Thread, leaf: Addr, x: Key, r: Addr, h: Addr, m: Addr, c: Key,
                      a: Addr, b: Addr, p: Addr, d: Addr)
    requires Stage(s, th, leaf, x, r, h, m, c) && c < x && Inserted(s, s', c, [], a, b, p, d)
    ensures a == m && PageOk(s.pages[m]) && s.pages[s.entry].level > 0
    ensures Full(StoreIn(s.pages[m], c, Row([]))) ==> p == h
    ensures var q := StoreIn(s.pages[m], c, Row([]));
            && q.keys == s.pages[m].keys + [c] && |q.keys| == |q.vals| && q.level == 0
            && q.lowest == s.pages[m].lowest && q.highest == s.pages[m].highest
  {
    EdgeIsLow(s, th, leaf, x, r, h, m, c);
    IsWhole(s);
    EdgeFacts(s.pages, x, r, h, m, c);
    hide Inv, StoreIn, Low, Placed, PageOk, Steady;
    RowAppended(s.pages[m], c, []);
    PageUnique(s.pages, a, m, c);
    if Full(StoreIn(s.pages[m], c, Row([]))) { PageUnique(s.pages, p, h, c); }
  }

  /** An insert that split no page. */
  lemma EdgeFills(ps: Pages, qs: Pages, x: Key, r: Addr, h: Addr, m: Addr, c: Key, q: Page)
    requires Whole(ps) && Whole(qs) && Edge(ps, x, r, h, m, c) && c < x && qs == ps[m := q]
    requires q.keys == ps[m].keys + [c] && q.level == 0 && q.lowest == ps[m].lowest && q.highest == ps[m].highest
    ensures Further(ps, qs, x, r, h, m, c, h, m)
  {
    EdgeFacts(ps, x, r, h, m, c);
    hide Whole, PageOk, Hops;
    assert Edge(qs, x, r, h, m, c + 1);
    assert OneChanged(ps, qs, 1, h, x, NULL);
    EdgeHops(ps, qs, x, r, h, m, c, NULL);
  }

  lemma EdgeHops(ps: Pages, qs: Pages, x: Key, r: Addr, h: Addr, m: Addr, c: Key, d: Addr)
    requires Whole(ps) && Whole(qs) && Edge(ps, x, r, h, m, c) && OneChanged(ps, qs, 1, h, x, d)
    ensures r in qs && qs[r].lowest == MIN_KEY
    ensures Hops(qs, r, x) == Hops(ps, r, x) + if qs[h].Holds(x) then 0 else 1
  {
    HopsAfter(ps, qs, r, x, h, d);
  }

  /** The right half of a leaf that ended before x and was split after key c was added at its end. */
  lemma RightHalf(p: Page, q: Page, c: Key, x: Key)
    requires p.Holds(x - 1) && c < x && q.keys == p.keys + [c] && |q.keys| == |q.vals| && q.level == 0
    requires Full(q) && q.highest == p.highest && forall i :: 0 <= i < |p.keys| ==> p.keys[i] < c
    ensures var t := SplitRight(q);
            && t.level == 0 && t.Holds(x - 1) && t.keys != [] && MidKey(q) < x
            && forall i :: 0 <= i < |t.keys| ==> t.keys[i] < c + 1
  {
    assert forall i :: 0 <= i < |q.keys| ==> q.keys[i] < c + 1;
  }

  lemma HalvesShape(q: Page, d: Addr)
    requires q.keys != [] && |q.keys| == |q.vals|
    ensures var t := SplitLeft(q, d);
            t.highest == MidKey(q) && t.sibling == d && t.lowest == q.lowest && t.level == q.level
    ensures SplitRight(q).level == q.level
  {}

  lemma MovedEdge(ps: Pages, qs: Pages, x: Key, r: Addr, h: Addr, m: Addr, c: Key, q: Page, b: Addr, q1: Page, d: Addr)
    requires Edge(ps, x, r, h, m, c) && c < x && q.level == 0 && ps[h].Holds(x)
    requires BothStored(ps, qs, m, q, b, h, q1, d) && OneMore(ps[h], q1, x)
    requires var t := SplitRight(q);
             t.Holds(x - 1) && t.keys != [] && forall i :: 0 <= i < |t.keys| ==> t.keys[i] < c + 1
    ensures Edge(qs, x, r, if Full(q1) then d else h, b, c + 1) && OneChanged(ps, qs, 1, h, x, d)
    ensures qs[h].Holds(x) <==> !Full(q1)
    ensures !Full(q1) ==> |qs[h].keys| == |ps[h].keys| + 1
  {
    HalvesShape(q, b);
    HalvesShape(q1, d);
    hide SplitLeft, SplitRight, MidKey;
  }

  /** An insert that split the leaf. */
  lemma EdgeMoves(ps: Pages, qs: Pages, x: Key, r: Addr, h: Addr, m: Addr, c: Key, q: Page, b: Addr, d: Addr)
      returns (h': Addr)
    requires Whole(ps) && Whole(qs) && Edge(ps, x, r, h, m, c) && c < x && |ps[h].keys| == |ps[h].vals|
    requires q.keys == ps[m].keys + [c] && |q.keys| == |q.vals| && q.level == 0 && Full(q) && q.highest == ps[m].highest
    requires BothStored(ps, qs, m, q, b, h, InternalPut(ps[h], MidKey(q), b), d)
    ensures Further(ps, qs, x, r, h, m, c, h', b)
  {
    EdgeFacts(ps, x, r, h, m, c);
    RightHalf(ps[m], q, c, x);
    LastSeparator(ps[h], MidKey(q), b, x);
    hide Whole, PageOk, InternalPut, Hops, SplitRight, SplitLeft, MidKey;
    var q1 := InternalPut(ps[h], MidKey(q), b);
    h' := if Full(q1) then d else h;
    assert OneMore(ps[h], q1, x);
    MovedEdge(ps, qs, x, r, h, m, c, q, b, q1, d);
    hide BothStored, OneChanged, OneMore, Score;
    EdgeHops(ps, qs, x, r, h, m, c, d);
    RankGrows(Hops(ps, r, x), |ps[h].keys|, |ps[m].keys|, Hops(qs, r, x), |qs[h'].keys|, |qs[b].keys|);
  }

  /** The pages after an insert of key c. */
  lemma EdgeGoesOn(s: Sys, s': Sys, th: Thread, leaf: Addr, x: Key, r: Addr, h: Addr, m: Addr, c: Key,
                   a: Addr, b: Addr, p: Addr, d: Addr)
      returns (h': Addr, m': Addr)
    requires Stage(s, th, leaf, x, r, h, m, c) && c < x && Inserted(s, s', c, [], a, b, p, d)
    requires Whole(s.pages) && Whole(s'.pages)
    ensures Further(s.pages, s'.pages, x, r, h, m, c, h', m') && leaf in s'.pages && s'.pages[leaf] == s.pages[leaf]
  {
    KeyGoesToEdge(s, s', th, leaf, x, r, h, m, c, a, b, p, d);
    hide Inv, StoreIn, Low, Full, Placed, Whole, Further, InternalPut, Steady;
    var q := StoreIn(s.pages[m], c, Row([]));
    if !Full(q) {
      h', m' := h, m;
      EdgeFills(s.pages, s'.pages, x, r, h, m, c, q);
    } else {
      m' := b;
      InternalPutShape(s.pages[h], MidKey(q), b);
      StoredBoth(s.pages, s'.pages, m, q, b, h, InternalPut(s.pages[h], MidKey(q), b), d);
      h' := EdgeMoves(s.pages, s'.pages, x, r, h, m, c, q, b, d);
    }
  }

  /** Thread 1 inserts key c, and the edge is further on. */
  lemma Pushes(tr: seq<Sys>, th: Thread, leaf: Addr, x: Key, r: Addr, h: Addr, m: Addr, c: Key)
      returns (us: seq<Sys>, h': Addr, m': Addr)
    requires |tr| > 0 && Run(tr) && Stage(Last(tr), th, leaf, x, r, h, m, c) && c < x
    ensures |us| > 0 && Run(us) && Stage(Last(us), th, leaf, x, r, h', m', c + 1)
    ensures Last(us).pages[leaf] == Last(tr).pages[leaf] && Whole(Last(tr).pages) && Whole(Last(us).pages)
    ensures Rank(Last(us).pages, x, r, h', m') > Rank(Last(tr).pages, x, r, h, m)
  {
    var s := Last(tr);
    IsWhole(s);
    assert c >= MIN_KEY by { EdgeFacts(s.pages, x, r, h, m, c); }
    hide Run, Inv, Whole, Rank, Inserted;
    var a, b, p, d;
    us, a, b, p, d := Inserts(tr, 1, c, []);
    IsWhole(Last(us));
    h', m' := EdgeGoesOn(s, Last(us), th, leaf, x, r, h, m, c, a, b, p, d);
    hide Edge;
  }

  lemma InternalPutShape(p: Page, k: Key, child: Addr)
    requires |p.keys| == |p.vals|
    ensures var q := InternalPut(p, k, child); q.keys != [] && |q.keys| == |q.vals| && q.level == p.level
  {}

  lemma {:induction false} Fills(tr: seq<Sys>, th: Thread, leaf: Addr, x: Key, r: Addr, h: Addr, m: Addr,
                                 c: Key, n: nat)
      returns (us: seq<Sys>, h': Addr, m': Addr)
    requires |tr| > 0 && Run(tr) && Stage(Last(tr), th, leaf, x, r, h, m, c) && c + n <= x
    ensures |us| > 0 && Run(us) && Stage(Last(us), th, leaf, x, r, h', m', c + n)
    ensures Last(us).pages[leaf] == Last(tr).pages[leaf] && Whole(Last(tr).pages) && Whole(Last(us).pages)
    ensures Rank(Last(us).pages, x, r, h', m') >= Rank(Last(tr).pages, x, r, h, m) + n
    decreases n
  {
    hide Run, Rank, Inv, Steady;
    IsWhole(Last(tr));
    us, h', m' := tr, h, m;
    if n > 0 {
      us, h', m' := Pushes(tr, th, leaf, x, r, h, m, c);
      us, h', m' := Fills(us, th, leaf, x, r, h', m', c + 1, n - 1);
    }
  }

  /** Enough keys to split the pages above the leaves six times. */
  function Enough(): nat { 6 * INTERNAL_CARDINALITY * LEAF_CARDINALITY }

  lemma FewHops(hops: nat, above: nat, below: nat)
    requires hops <= 5 && above < INTERNAL_CARDINALITY && below < LEAF_CARDINALITY
    ensures Score(hops, above, below) < Enough()
  {
    Times(hops, 5, INTERNAL_CARDINALITY);
    Times(hops * INTERNAL_CARDINALITY + above, 6 * INTERNAL_CARDINALITY - 1, LEAF_CARDINALITY);
    assert (6 * INTERNAL_CARDINALITY - 1) * LEAF_CARDINALITY ==
           6 * INTERNAL_CARDINALITY * LEAF_CARDINALITY - LEAF_CARDINALITY;
  }

  lemma Times(a: nat, b: nat, k: nat)
    requires a <= b
    ensures a * k <= b * k
  {}

  /** After enough inserts the level above the leaves has been split six times between page r and key x. */
  lemma SixSplits(tr: seq<Sys>, th: Thread, leaf: Addr, x: Key, r: Addr, h: Addr, m: Addr, c: Key)
      returns (us: seq<Sys>, h': Addr, m': Addr)
    requires |tr| > 0 && Run(tr) && Stage(Last(tr), th, leaf, x, r, h, m, c) && c + Enough() <= x
    ensures |us| > 0 && Run(us) && Stage(Last(us), th, leaf, x, r, h', m', c + Enough())
    ensures Last(us).pages[leaf] == Last(tr).pages[leaf] && Whole(Last(us).pages) && Hops(Last(us).pages, r, x) >= 6
  {
    hide Run, Inv, Steady, Enough;
    us, h', m' := Fills(tr, th, leaf, x, r, h, m, c, Enough());
    var ps := Last(us).pages;
    EdgeFacts(ps, x, r, h', m', c + Enough());
    hide PageOk;
    if Hops(ps, r, x) < 6 { FewHops(Hops(ps, r, x), |ps[h'].keys|, |ps[m'].keys|); }
  }

  /* ---- The post of the stalled thread ---- */

  /** A post that has n right turns behind it and too many before it, and remembers no page above. */
  ghost predicate TooFar(s: Sys, t: nat, n: nat) {
    && Inv(s) && Whole(s.pages) && Steady(s, t) && t < |s.threads| && n <= 5
    && var th := s.threads[t];
       && th.pc.Post? && th.pc.target == 1 && th.pc.origin.Nested? && th.logging && th.turns == n && 2 !in th.path
       && th.pc.cur in s.pages && s.pages[th.pc.cur].lowest <= th.pc.sep < MAX_KEY
       && Hops(s.pages, th.pc.cur, th.pc.sep) >= 6 - n
  }

  lemma PostAtLevel(s: Sys, t: nat)
    requires Inv(s) && t < |s.threads| && s.threads[t].pc.Post?
    ensures var th := s.threads[t]; th.pc.cur in s.pages && s.pages[th.pc.cur].level == th.pc.target && Running(s, t)
  {
    IsRunning(s, t);
    hide TreeInv, RootInv;
    assert ThreadOk(s.pages, s.threads[t]);
  }

  function PostAt(pc: Pc, a: Addr): Pc
    requires pc.Post?
  {
    Post(pc.sep, pc.child, pc.target, pc.origin, a)
  }

  /** internal_page_store on a page that ends at or before the separator. */
  lemma NextTurn(s: Sys, t: nat, b: Addr)
    requires Enabled(s, t, PutInternal(b)) && s.pages[s.threads[t].pc.cur].highest <= s.threads[t].pc.sep
    ensures var th, p := s.threads[t], s.pages[s.threads[t].pc.cur];
            var v := Visit(th, p, th.pc.cur);
            Next(s, t, PutInternal(b)) ==
            s.(threads := s.threads[t := if MayTurn(th)
                                         then SetPc(Turned(v), PostAt(th.pc, p.sibling))
                                         else Missed(Reset(v))])
  {
    LinkedPage(s.pages, s.threads[t].pc.cur);
    hide PageOk, Linked, Placed, StoreIn;
  }

  lemma TurnsOn(s: Sys, t: nat, n: nat)
    requires TooFar(s, t, n)
    ensures var a, k := s.threads[t].pc.cur, s.threads[t].pc.sep;
            && Linked(s.pages, a) && s.pages[a].highest <= k && s.pages[a].sibling in s.pages
            && s.pages[s.pages[a].sibling].lowest <= k
            && Hops(s.pages, a, k) == 1 + Hops(s.pages, s.pages[a].sibling, k)
  {
    hide Inv, Disjoint, NoneFull, Calm;
    var a := s.threads[t].pc.cur;
    assert Linked(s.pages, a);
    hide AllLinked;
    RightMove(s.pages, a, s.threads[t].pc.sep);
  }

  lemma CanPost(s: Sys, t: nat, n: nat) returns (d: Addr)
    requires TooFar(s, t, n)
    ensures Enabled(s, t, PutInternal(d))
  {
    hide Inv, Whole, Hops, Steady;
    TurnsOn(s, t, n);
    PostAtLevel(s, t);
    hide Linked;
    d := Spare(s.pages.Keys);
  }

  lemma StaysSteady(s: Sys, s': Sys, t: nat)
    requires Steady(s, t) && OnlyThread(s, s', t) && s'.threads[t].node == s.threads[t].node
    ensures Steady(s', t)
  {}

  /** What is left of the post once it has been given up. */
  ghost predicate GaveUp(s: Sys, s': Sys, t: nat) {
    && OnlyThread(s, s', t) && s.threads[t].pc.Post?
    && var th, th' := s.threads[t], s'.threads[t];
       && !th'.logging && th'.pc == Search(th.pc.sep, Publish(th.pc.child, 1), NULL)
       && th'.turns == 0 && th'.node == th.node
  }

  /** The last step of a run is the one that gives up. */
  ghost predicate LastGivesUp(tr: seq<Sys>, t: nat, d: Addr) {
    && |tr| > 1 && ThreadStep(tr[|tr| - 2], Last(tr), t, PutInternal(d)) && GivesUp(tr[|tr| - 2], t, PutInternal(d))
    && tr[|tr| - 2].threads[t].logging
  }

  lemma GivesUpNow(tr: seq<Sys>, t: nat, d: Addr) returns (us: seq<Sys>)
    requires |tr| > 0 && Run(tr) && TooFar(Last(tr), t, 5) && Enabled(Last(tr), t, PutInternal(d))
    ensures |us| > 0 && Run(us) && Inv(Last(us)) && GaveUp(Last(tr), Last(us), t) && LastGivesUp(us, t, d)
  {
    hide Run, Inv, Whole, Hops, Steady;
    TurnsOn(Last(tr), t, 5);
    PostAtLevel(Last(tr), t);
    hide Linked;
    us := Acts(tr, t, PutInternal(d));
    hide Next;
    NextTurn(Last(tr), t, d);
    assert us[|us| - 2] == Last(tr);
  }

  lemma TurnsRight(tr: seq<Sys>, t: nat, n: nat, d: Addr) returns (us: seq<Sys>)
    requires |tr| > 0 && Run(tr) && TooFar(Last(tr), t, n) && n < 5 && Enabled(Last(tr), t, PutInternal(d))
    ensures |us| > 0 && Run(us) && TooFar(Last(us), t, n + 1) && OnlyThread(Last(tr), Last(us), t)
    ensures var th, th' := Last(tr).threads[t], Last(us).threads[t];
            th'.pc.sep == th.pc.sep && th'.pc.child == th.pc.child && th'.node == th.node
  {
    TurnsOn(Last(tr), t, n);
    PostAtLevel(Last(tr), t);
    hide Run, Inv, Whole, Hops, Steady, Linked;
    us := Acts(tr, t, PutInternal(d));
    hide Next, Enabled;
    NextTurn(Last(tr), t, d);
    StaysSteady(Last(tr), Last(us), t);
  }

  /** The post gives up on the sixth page. */
  lemma {:induction false} GivesUpPost(tr: seq<Sys>, t: nat, n: nat) returns (us: seq<Sys>, d: Addr)
    requires |tr| > 0 && Run(tr) && TooFar(Last(tr), t, n)
    ensures |us| > 0 && Run(us) && Inv(Last(us)) && GaveUp(Last(tr), Last(us), t) && LastGivesUp(us, t, d)
    decreases 5 - n
  {
    hide Run, Inv, Enabled, LastGivesUp, Whole, Steady, Hops;
    assert n <= 5 && Last(tr).threads[t].pc.Post?;
    hide TooFar;
    d := CanPost(Last(tr), t, n);
    if n == 5 { us := GivesUpNow(tr, t, d); }
    else {
      us := TurnsRight(tr, t, n, d);
      us, d := GivesUpPost(us, t, n + 1);
    }
  }

  /* ---- The same separator, top down ---- */

  /** A top-down insert at the level above the leaves that has come to a page that holds its separator. */
  ghost predicate OnTheWay(s: Sys, t: nat) {
    && Inv(s) && Steady(s, t) && t < |s.threads|
    && var pc := s.threads[t].pc;
       && pc.Search? && pc.goal.Publish? && pc.goal.target == 1
       && pc.cur in s.pages && s.pages[pc.cur].level > 0 && s.pages[pc.cur].Holds(pc.k)
  }

  /** It is about to post there. */
  ghost predicate Arrived(s: Sys, s': Sys, t: nat) {
    && OnlyThread(s, s', t) && s.threads[t].pc.Search? && s.threads[t].pc.goal.Publish?
    && var th, th' := s.threads[t], s'.threads[t];
       && th'.node == th.node && th'.logging == th.logging
       && th'.pc == Post(th.pc.k, th.pc.goal.child, 1, TopDown, CurOf(th'.pc))
       && CurOf(th'.pc) in s.pages && s.pages[CurOf(th'.pc)].level == 1 && s.pages[CurOf(th'.pc)].Holds(th.pc.k)
  }

  lemma WayDown(s: Sys, t: nat)
    requires OnTheWay(s, t)
    ensures Enabled(s, t, Read)
    ensures var a, k := s.threads[t].pc.cur, s.threads[t].pc.k;
            && InternalShape(s.pages[a])
            && (s.pages[a].level > 1 ==>
                  var c := Route(s.pages[a], k);
                  c in s.pages && s.pages[c].level == s.pages[a].level - 1 && s.pages[c].Holds(k))
  {
    hide Tree, RootInv, OneOwner, NoneFull, Route;
    SteadyRoot(s, t);
    var th := s.threads[t];
    assert ThreadOk(s.pages, th);
    TreeIsLinked(s.pages, s.top, Pend(s.threads), th.pc.cur);
    if s.pages[th.pc.cur].level > 1 { RouteHolds(s.pages, s.top, Pend(s.threads), th.pc.cur, th.pc.k); }
  }

  lemma {:induction false} ComesToPost(tr: seq<Sys>, t: nat) returns (us: seq<Sys>)
    requires |tr| > 0 && Run(tr) && OnTheWay(Last(tr), t)
    ensures |us| > 0 && Run(us) && Inv(Last(us)) && tr <= us && Arrived(Last(tr), Last(us), t)
    decreases Last(tr).pages[Last(tr).threads[t].pc.cur].level
  {
    hide Run, Inv, Route, Linked;
    var s := Last(tr);
    WayDown(s, t);
    us := Acts(tr, t, Read);
    if s.pages[s.threads[t].pc.cur].level > 2 {
      StaysSteady(s, Last(us), t);
      us := ComesToPost(us, t);
    }
  }

  lemma RestartsPost(tr: seq<Sys>, t: nat, r: Addr) returns (us: seq<Sys>)
    requires |tr| > 0 && Run(tr) && Inv(Last(tr)) && Steady(Last(tr), t)
    requires var pc := Last(tr).threads[t].pc; pc.Search? && pc.goal.Publish? && pc.goal.target == 1
    requires r in Last(tr).pages && Last(tr).pages[r].level > 0
    ensures |us| > 0 && Run(us) && Inv(Last(us)) && tr <= us && Arrived(Last(tr), Last(us), t)
  {
    hide Run, Inv, Tree;
    var s := Last(tr);
    SteadyRoot(s, t);
    OnTop(s.pages, s.top, Pend(s.threads));
    WaitsBelow(s, t);
    RootHolds(s.pages, s.top, Pend(s.threads), s.threads[t].pc.k);
    us := Acts(tr, t, Restart);
    StaysSteady(s, Last(us), t);
    us := ComesToPost(us, t);
  }

  lemma WaitsBelow(s: Sys, t: nat)
    requires Inv(s) && t < |s.threads| && s.threads[t].pc.Search? && s.threads[t].pc.goal.Publish?
    ensures var pc := s.threads[t].pc; Waiting(s.pages, pc.goal.child, pc.goal.target, pc.k)
  {
    assert ThreadOk(s.pages, s.threads[t]);
  }

  /** Its page gets a new version. */
  lemma PostRaisesVersion(s: Sys, t: nat, d: Addr)
    requires Inv(s) && Enabled(s, t, PutInternal(d)) && s.pages[s.threads[t].pc.cur].Holds(s.threads[t].pc.sep)
    ensures var a := s.threads[t].pc.cur;
            a in Next(s, t, PutInternal(d)).pages && Next(s, t, PutInternal(d)).pages[a].version > s.pages[a].version
  {
    hide Inv, Linked, Next;
    var th := s.threads[t];
    NextPutInternal(s, t, d);
    LinkedPage(s.pages, th.pc.cur);
    StoreSeparator(s.pages[th.pc.cur], th.pc.sep, th.pc.child);
    hide StoreIn;
  }

  /* ---- The late split ---- */

  /** A leaf one record short of full, whose keys are below k. */
  ghost predicate NearlyFull(p: Page, k: Key) {
    p.level == 0 && p.Holds(k) && |p.keys| + 1 == LEAF_CARDINALITY && forall i :: 0 <= i < |p.keys| ==> p.keys[i] < k
  }

  /** A row stored in the stalled leaf splits it above x and leaves the level above as it is. */
  lemma LateSplit(ps: Pages, x: Key, r: Addr, h: Addr, m: Addr, c: Key, leaf: Addr, k: Key, b: Addr, qs: Pages)
    requires Whole(ps) && Whole(qs) && Edge(ps, x, r, h, m, c) && leaf in ps && ps[leaf].lowest == x &&
             NearlyFull(ps[leaf], k)
    requires PageOk(ps[leaf]) && b !in ps
    requires qs == Placed(ps, leaf, StoreIn(ps[leaf], k, Row([])), b)
    ensures var q := StoreIn(ps[leaf], k, Row([]));
            && Full(q) && q.level == 0 && q.keys != [] && x <= MidKey(q) <= k && r in qs && qs[r].lowest == MIN_KEY
            && Hops(qs, r, MidKey(q)) >= Hops(ps, r, x)
  {
    RowAppended(ps[leaf], k, []);
    EdgeFacts(ps, x, r, h, m, c);
    var q := StoreIn(ps[leaf], k, Row([]));
    assert forall i :: 0 <= i < |q.keys| ==> x <= q.keys[i] <= k;
    hide Whole, PageOk, StoreIn, Hops;
    assert OneChanged(ps, qs, 1, h, x, NULL);
    EdgeHops(ps, qs, x, r, h, m, c, NULL);
    LaterIsFurther(qs, r, x, MidKey(q));
  }

  lemma LaterIsFurther(ps: Pages, r: Addr, x: Key, k: Key)
    requires Whole(ps) && r in ps && ps[r].lowest <= x <= k < MAX_KEY
    ensures Hops(ps, r, k) >= Hops(ps, r, x)
  {
    HopsMonotone(ps, r, x, k);
  }

  /** The stalled thread: it has read page r, which was the root, and is at its leaf. */
  function Stalled(node: nat, r: Addr, k: Key, leaf: Addr): Thread {
    Thread(node, map[1 := r], true, 0, AtLeaf(k, Upsert([]), leaf))
  }

  lemma CanPutLeaf(s: Sys, node: nat, leaf: Addr, x: Key, r: Addr, h: Addr, m: Addr, c: Key, k: Key) returns (b: Addr)
    requires Stage(s, Stalled(node, r, k, leaf), leaf, x, r, h, m, c)
    ensures Enabled(s, 0, PutLeaf(b)) && b !in s.pages && PageOk(s.pages[leaf])
  {
    hide Edge, Steady, Inv;
    IsRunning(s, 0);
    PagesAreLinked(s, leaf);
    LinkedPage(s.pages, leaf);
    hide PageOk, Linked;
    b := Spare(s.pages.Keys);
  }

  /** The stalled thread after its split. */
  lemma PostsAtOldRoot(node: nat, r: Addr, k: Key, leaf: Addr, p: Page, q: Page, b: Addr)
    requires p.level == 0 && q.level == 0 && q.keys != [] && Full(q)
    ensures var th := AfterPut(Reset(Visit(Stalled(node, r, k, leaf), p, leaf)), q, b, k);
            th == Thread(node, map[1 := r, 0 := leaf], true, 0, Post(MidKey(q), b, 1, Nested(k), r))
  {}

  /** It goes on, splits its leaf and posts at page r. */
  lemma SplitsLate(tr: seq<Sys>, node: nat, leaf: Addr, x: Key, r: Addr, h: Addr, m: Addr, c: Key, k: Key)
      returns (us: seq<Sys>)
    requires |tr| > 0 && Run(tr) && Stage(Last(tr), Stalled(node, r, k, leaf), leaf, x, r, h, m, c)
    requires Whole(Last(tr).pages) && Hops(Last(tr).pages, r, x) >= 6 && NearlyFull(Last(tr).pages[leaf], k)
    ensures |us| > 0 && Run(us) && TooFar(Last(us), 0, 0)
  {
    hide Run, Inv, Whole, Hops, Next, Enabled, StoreIn, Placed, Full;
    var s := Last(tr);
    var b := CanPutLeaf(s, node, leaf, x, r, h, m, c, k);
    us := Acts(tr, 0, PutLeaf(b));
    NextPutLeaf(s, 0, b);
    IsWhole(Last(us));
    LateSplit(s.pages, x, r, h, m, c, leaf, k, b, Last(us).pages);
    hide PageOk, NearlyFull;
    PostsAtOldRoot(node, r, k, leaf, s.pages[leaf], StoreIn(s.pages[leaf], k, Row([])), b);
    hide AfterPut, MidKey;
  }

  /* ---- The opening: one leaf becomes a root over two ---- */

  /** The keys of the first leaf: half of them from the smallest key on, the others from x on. */
  function FirstKey(i: nat, x: Key): Key {
    if i < LEAF_CARDINALITY / 2 then i else x + i - LEAF_CARDINALITY / 2
  }

  ghost predicate TwoIdle(s: Sys) {
    && Inv(s) && |s.threads| == 2 && s.threads[0] == Thread(0, map[], true, 0, Idle)
    && Steady(s, 1) && s.threads[1].pc.Idle? && s.threads[1].turns == 0 && s.threads[1].node == 0
  }

  ghost predicate OneLeaf(s: Sys, a: Addr, n: nat, x: Key) {
    && s.pages.Keys == {a} && s.entry == a && a != NULL
    && var p := s.pages[a];
       && p.level == 0 && p.lowest == MIN_KEY && p.highest == MAX_KEY && PageOk(p)
       && |p.keys| == n && forall i :: 0 <= i < n ==> p.keys[i] == FirstKey(i, x)
  }

  lemma IdleAgain(s: Sys, s': Sys)
    requires TwoIdle(s) && Inv(s') && Rests(s, s', 1)
    ensures TwoIdle(s')
  {}

  lemma RowInRoot(s: Sys, s': Sys, a: Addr, n: nat, x: Key, l: Addr, b: Addr, p: Addr, c: Addr)
    requires OneLeaf(s, a, n, x) && n + 1 < LEAF_CARDINALITY <= x && Inserted(s, s', FirstKey(n, x), [], l, b, p, c)
    requires forall y :: y in s'.pages ==> PageOk(s'.pages[y])
    ensures OneLeaf(s', a, n + 1, x)
  {
    RowAppended(s.pages[a], FirstKey(n, x), []);
    hide StoreIn, Placed, Low, PageOk;
    assert l == a;
  }

  lemma PagesOk(s: Sys)
    requires Inv(s)
    ensures forall y :: y in s.pages ==> PageOk(s.pages[y])
  {
    hide Inv;
    forall y | y in s.pages ensures PageOk(s.pages[y]) {
      PagesAreLinked(s, y);
      LinkedPage(s.pages, y);
    }
  }

  lemma {:induction false} FillsRoot(a: Addr, n: nat, x: Key) returns (tr: seq<Sys>)
    requires a != NULL && n < LEAF_CARDINALITY && LEAF_CARDINALITY <= x && x + LEAF_CARDINALITY <= MAX_KEY
    ensures |tr| > 0 && Run(tr) && TwoIdle(Last(tr)) && OneLeaf(Last(tr), a, n, x)
  {
    hide Run, Inv;
    if n == 0 { tr := Starts(a, 2); }
    else {
      hide OneLeaf, PageOk, Inserted;
      tr := FillsRoot(a, n - 1, x);
      var s := Last(tr);
      var l, b, p, c;
      tr, l, b, p, c := Inserts(tr, 1, FirstKey(n - 1, x), []);
      IdleAgain(s, Last(tr));
      PagesOk(Last(tr));
      RowInRoot(s, Last(tr), a, n - 1, x, l, b, p, c);
    }
  }

  /** Two leaves that meet at x under page r; the right one has n keys, all below x + n. */
  ghost predicate TwoLeaves(s: Sys, a: Addr, x: Key, b: Addr, r: Addr, n: nat) {
    && s.entry == r && a in s.pages && b in s.pages && r in s.pages
    && s.pages[r] == NewRoot(a, x, b, 1) && s.pages[b].highest == MAX_KEY && |s.pages[b].keys| == n
    && (forall i :: 0 <= i < n ==> s.pages[b].keys[i] < x + n)
    && s.pages[b].level == 0 && s.pages[b].lowest == x && Edge(s.pages, x, r, r, a, LEAF_CARDINALITY / 2)
  }

  /** The pages after the first split. */
  lemma FirstSplit(p: Page, q: Page, x: Key, b: Addr)
    requires p.lowest == MIN_KEY && p.highest == MAX_KEY && LEAF_CARDINALITY <= x
    requires q.level == 0 && q.lowest == p.lowest && q.highest == p.highest && |q.keys| == |q.vals| == LEAF_CARDINALITY
    requires forall i :: 0 <= i < LEAF_CARDINALITY ==> q.keys[i] == FirstKey(i, x)
    ensures MidKey(q) == x
    ensures var l, r, half := SplitLeft(q, b), SplitRight(q), LEAF_CARDINALITY / 2;
            && l.level == 0 && l.Holds(x - 1) && l.keys != [] && (forall i :: 0 <= i < |l.keys| ==> l.keys[i] < half)
            && r.level == 0 && r.lowest == x && r.highest == MAX_KEY && |r.keys| == LEAF_CARDINALITY - half
            && (forall i :: 0 <= i < |r.keys| ==> r.keys[i] < x + |r.keys|)
  {}

  lemma ThreePages(ps: Pages, a: Addr, q: Page, b: Addr, r: Addr, p: Page)
    requires ps.Keys == {a} && Full(q) && q.keys != [] && |q.keys| == |q.vals| && b != a && r != a && r != b
    ensures Placed(ps, a, q, b)[r := p] == map[a := SplitLeft(q, b), b := SplitRight(q), r := p]
  {
    hide SplitLeft, SplitRight, Full;
  }

  lemma RootSplit(s: Sys, s': Sys, a: Addr, x: Key, l: Addr, b: Addr, p: Addr, r: Addr)
    requires OneLeaf(s, a, LEAF_CARDINALITY - 1, x) && LEAF_CARDINALITY <= x && x + LEAF_CARDINALITY <= MAX_KEY
    requires Inserted(s, s', FirstKey(LEAF_CARDINALITY - 1, x), [], l, b, p, r)
    ensures TwoLeaves(s', a, x, b, r, LEAF_CARDINALITY - LEAF_CARDINALITY / 2)
  {
    hide StoreIn, Low, Placed, SplitLeft, SplitRight, MidKey;
    var k := FirstKey(LEAF_CARDINALITY - 1, x);
    var q := StoreIn(s.pages[a], k, Row([]));
    RowAppended(s.pages[a], k, []);
    hide PageOk, WithRecord;
    FirstSplit(s.pages[a], q, x, b);
    hide FirstKey;
    assert l == a && Full(q);
    hide Full;
    ThreePages(s.pages, a, q, b, r, NewRoot(a, x, b, 1));
    assert s'.pages[a] == SplitLeft(q, b) && s'.pages[b] == SplitRight(q) && s'.pages[r] == NewRoot(a, x, b, 1);
  }

  lemma SplitsRoot(a: Addr, x: Key) returns (tr: seq<Sys>, b: Addr, r: Addr)
    requires a != NULL && LEAF_CARDINALITY <= x && x + LEAF_CARDINALITY <= MAX_KEY
    ensures |tr| > 0 && Run(tr) && TwoIdle(Last(tr))
    ensures TwoLeaves(Last(tr), a, x, b, r, LEAF_CARDINALITY - LEAF_CARDINALITY / 2)
  {
    hide Run, Inv, Inserted, OneLeaf;
    tr := FillsRoot(a, LEAF_CARDINALITY - 1, x);
    var s := Last(tr);
    var l, p;
    tr, l, b, p, r := Inserts(tr, 1, FirstKey(LEAF_CARDINALITY - 1, x), []);
    IdleAgain(s, Last(tr));
    RootSplit(s, Last(tr), a, x, l, b, p, r);
  }

  lemma RowRight(s: Sys, s': Sys, a: Addr, x: Key, b: Addr, r: Addr, n: nat, l: Addr, d: Addr, p: Addr, c: Addr)
    requires Whole(s.pages) && TwoLeaves(s, a, x, b, r, n) && n + 1 < LEAF_CARDINALITY &&
             x + LEAF_CARDINALITY <= MAX_KEY
    requires Inserted(s, s', x + n, [], l, d, p, c)
    ensures TwoLeaves(s', a, x, b, r, n + 1)
  {
    assert Linked(s.pages, b);
    LinkedPage(s.pages, b);
    RowAppended(s.pages[b], x + n, []);
    PageUnique(s.pages, l, b, x + n);
    hide StoreIn, Low, Placed, PageOk, Linked, Whole;
  }

  /** Rows for the right leaf, until it is one short of full. */
  lemma {:induction false} FillsRight(tr: seq<Sys>, a: Addr, x: Key, b: Addr, r: Addr, n: nat) returns (us: seq<Sys>)
    requires |tr| > 0 && Run(tr) && TwoIdle(Last(tr)) && TwoLeaves(Last(tr), a, x, b, r, n) && 0 < n < LEAF_CARDINALITY
    requires MIN_KEY < x && x + LEAF_CARDINALITY <= MAX_KEY
    ensures |us| > 0 && Run(us) && TwoIdle(Last(us)) && TwoLeaves(Last(us), a, x, b, r, LEAF_CARDINALITY - 1)
    decreases LEAF_CARDINALITY - n
  {
    hide Run, Inv, Inserted, TwoLeaves;
    us := tr;
    if n < LEAF_CARDINALITY - 1 {
      IsWhole(Last(tr));
      var l, d, p, c;
      us, l, d, p, c := Inserts(tr, 1, x + n, []);
      IdleAgain(Last(tr), Last(us));
      RowRight(Last(tr), Last(us), a, x, b, r, n, l, d, p, c);
      us := FillsRight(us, a, x, b, r, n + 1);
    }
  }

  lemma RouteRight(a: Addr, x: Key, b: Addr, k: Key)
    requires x <= k
    ensures Route(NewRoot(a, x, b, 1), k) == b
  {
    UpperUnique([x], k, 1);
  }

  /** A thread that reads the root while it is one level above the leaves. */
  lemma ReadsRoot(s: Sys, node: nat, a: Addr, x: Key, b: Addr, r: Addr, k: Key)
    requires 0 < |s.threads| && s.threads[0] == Thread(node, map[], true, 0, Search(k, Upsert([]), r))
    requires Enabled(s, 0, Read) && r in s.pages && s.pages[r] == NewRoot(a, x, b, 1) && MIN_KEY < x <= k < MAX_KEY
    ensures Next(s, 0, Read) == s.(threads := s.threads[0 := Stalled(node, r, k, b)])
  {
    RouteRight(a, x, b, k);
    hide Route, Linked;
  }

  lemma StartsSearch(tr: seq<Sys>, k: Key) returns (us: seq<Sys>)
    requires |tr| > 0 && Run(tr) && TwoIdle(Last(tr)) && MIN_KEY <= k < MAX_KEY
    ensures |us| > 0 && Run(us) && Inv(Last(us))
    ensures var s := Last(tr);
            Last(us) == s.(threads := s.threads[0 := Thread(0, map[], true, 0, Search(k, Upsert([]), s.entry))])
  {
    hide Run, Inv, Tree;
    SteadyRoot(Last(tr), 1);
    us := Acts(tr, 0, Begin(k, Upsert([]), true));
    us := Acts(us, 0, Restart);
  }

  lemma CanRead(s: Sys, t: nat)
    requires Inv(s) && t < |s.threads| && s.threads[t].pc.Search? && s.threads[t].pc.cur in s.pages
    ensures Enabled(s, t, Read)
  {
    hide Inv, Linked;
    IsRunning(s, t);
    PagesAreLinked(s, s.threads[t].pc.cur);
  }

  /** The other thread reads the root and stalls at the right leaf. */
  lemma Stalls(tr: seq<Sys>, a: Addr, x: Key, b: Addr, r: Addr, n: nat, k: Key) returns (us: seq<Sys>)
    requires |tr| > 0 && Run(tr) && TwoIdle(Last(tr)) && TwoLeaves(Last(tr), a, x, b, r, n) &&
             MIN_KEY < x <= k < MAX_KEY
    ensures |us| > 0 && Run(us) && Stage(Last(us), Stalled(0, r, k, b), b, x, r, r, a, LEAF_CARDINALITY / 2)
    ensures Last(us).pages == Last(tr).pages
  {
    hide Run, Inv, Edge, Enabled, Next;
    us := StartsSearch(tr, k);
    CanRead(Last(us), 0);
    ReadsRoot(Last(us), 0, a, x, b, r, k);
    us := Acts(us, 0, Read);
  }

  /* ---- The whole run ---- */

  /** The first key of the stalled thread's leaf. */
  function FarKey(): nat { LEAF_CARDINALITY + Enough() }

  /** An operation with a redo logger gave up its post in the step to state i, on a page that ends at or before its
      separator and after five right turns. It has no logger now, and is about to raise the version of the page that
      holds the separator. */
  ghost predicate PostsSilently(tr: seq<Sys>, t: nat, i: nat, d: Addr) {
    && 0 < i < |tr| && ThreadStep(tr[i - 1], tr[i], t, PutInternal(d)) && GivesUp(tr[i - 1], t, PutInternal(d))
    && tr[i - 1].threads[t].logging
    && var s := Last(tr);
       && Silent(s, t) && s.threads[t].pc.Post?
       && var a := s.threads[t].pc.cur;
          && a in s.pages && s.pages[a].Holds(s.threads[t].pc.sep)
          && forall e :: e !in s.pages && e != NULL ==>
               && Enabled(s, t, PutInternal(e)) && a in Next(s, t, PutInternal(e)).pages
               && Next(s, t, PutInternal(e)).pages[a].version > s.pages[a].version
  }

  lemma ComesTooFar(a: Addr) returns (tr: seq<Sys>)
    requires a != NULL && FarKey() + LEAF_CARDINALITY <= MAX_KEY
    ensures |tr| > 0 && Run(tr) && TooFar(Last(tr), 0, 0)
  {
    hide Run, TwoIdle, Stage, Edge, Hops, Whole, TooFar, Enough;
    var x := FarKey();
    var k, b, r := x + LEAF_CARDINALITY - 1, NULL, NULL;
    tr, b, r := SplitsRoot(a, x);
    tr := FillsRight(tr, a, x, b, r, LEAF_CARDINALITY - LEAF_CARDINALITY / 2);
    assert NearlyFull(Last(tr).pages[b], k);
    tr := Stalls(tr, a, x, b, r, LEAF_CARDINALITY - 1, k);
    hide TwoLeaves, NearlyFull;
    var h, m;
    tr, h, m := SixSplits(tr, Stalled(0, r, k, b), b, x, r, r, a, LEAF_CARDINALITY / 2);
    tr := SplitsLate(tr, 0, b, x, r, h, m, LEAF_CARDINALITY / 2 + Enough(), k);
  }

  /** A separator is posted, and a page version raised, by an operation that has lost its redo logger. */
  lemma PostsWithoutLogger(a: Addr) returns (tr: seq<Sys>, i: nat, d: Addr)
    requires a != NULL && FarKey() + LEAF_CARDINALITY <= MAX_KEY
    ensures |tr| > 0 && Run(tr) && PostsSilently(tr, 0, i, d)
  {
    hide Run, Inv, FarKey, Enabled, Next, GivesUp;
    tr := ComesTooFar(a);
    var s := Last(tr);
    PostAtLevel(s, 0);
    tr, d := GivesUpPost(tr, 0, 0);
    hide TooFar;
    i := |tr| - 1;
    StaysSteady(s, Last(tr), 0);
    var us := RestartsPost(tr, 0, s.threads[0].pc.cur);
    assert us[i - 1] == tr[i - 1] && us[i] == tr[i];
    tr := us;
    PostAtLevel(Last(us), 0);
    PostRaises(Last(us), 0);
  }

  lemma PostRaises(s: Sys, t: nat)
    requires Inv(s) && Running(s, t) && s.threads[t].pc.Post? && s.threads[t].pc.cur in s.pages
    requires s.pages[s.threads[t].pc.cur].Holds(s.threads[t].pc.sep)
    ensures forall e :: e !in s.pages && e != NULL ==>
              && Enabled(s, t, PutInternal(e)) && s.threads[t].pc.cur in Next(s, t, PutInternal(e)).pages
              && Next(s, t, PutInternal(e)).pages[s.threads[t].pc.cur].version > s.pages[s.threads[t].pc.cur].version
  {
    hide Inv, Linked, Next;
    PagesAreLinked(s, s.threads[t].pc.cur);
    forall e | e !in s.pages && e != NULL
      ensures && Enabled(s, t, PutInternal(e)) && s.threads[t].pc.cur in Next(s, t, PutInternal(e)).pages
              && Next(s, t, PutInternal(e)).pages[s.threads[t].pc.cur].version > s.pages[s.threads[t].pc.cur].version
    {
      PostRaisesVersion(s, t, e);
    }
  }
}
