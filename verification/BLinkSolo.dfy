/** A thread that runs alone while no separator waits: its insert goes straight down, stores, and posts every split at
    the page it remembers above, up to a new root, without one right turn. */
module BLinkSolo {
  import opened Options
  import opened Endian
  import opened BLinkPage
  import opened BLinkTree
  import opened BLinkSystem
  import opened BLinkSafety
  import opened BLinkRuns
  import opened BLinkLogger

  /* ---- A level without waiting siblings ---- */

  ghost predicate Complete(ps: Pages, pend: set<Addr>, level: nat) {
    forall c :: c in pend && c in ps ==> ps[c].level < level
  }

  /** Every page but the root has its separator in the page above that holds its start. */
  lemma ParentHolds(ps: Pages, root: Addr, pend: set<Addr>, p: Addr, d: Addr)
    requires Tree(ps, root, pend) && p in ps && d in ps && ps[p].level == ps[d].level + 1 && d !in pend
    requires ps[p].lowest < ps[d].lowest < ps[p].highest
    ensures ps[d].lowest in ps[p].keys
  {
    hide PageOk;
    assert d != root;
    var x :| x in ps && IsChild(ps[x], d);
    ChildInside(ps, x, d);
    ChildStarts(ps, x, d);
    assert Linked(ps, x) && Linked(ps, p);
    PageUnique(ps, x, p, ps[d].lowest);
  }

  /** A child starts where its page starts or at one of its keys. */
  lemma ChildStarts(ps: Pages, x: Addr, d: Addr)
    requires AllLinked(ps) && x in ps && IsChild(ps[x], d)
    ensures d in ps && ps[x].Holds(ps[d].lowest) && (ps[d].lowest == ps[x].lowest || ps[d].lowest in ps[x].keys)
  {
    assert Linked(ps, x);
    if ps[x].leftmost != d {
      var i :| 0 <= i < |ps[x].vals| && ps[x].vals[i] == Child(d);
      assert ps[d].lowest == ps[x].keys[i];
    }
  }

  /** On a complete level the child a search takes holds its key. */
  lemma RouteHolds(ps: Pages, root: Addr, pend: set<Addr>, p: Addr, k: Key)
    requires Tree(ps, root, pend) && p in ps && ps[p].level > 0 && ps[p].Holds(k) && Complete(ps, pend, ps[p].level - 1)
    ensures InternalShape(ps[p])
    ensures var c := Route(ps[p], k); c in ps && ps[c].level == ps[p].level - 1 && ps[c].Holds(k)
  {
    hide Tree;
    TreeIsLinked(ps, root, pend, p);
    RouteFollowsRange(ps, ps[p], k);
    RouteStartsLater(ps, ps[p], k);
    var c := Route(ps[p], k);
    TreeIsLinked(ps, root, pend, c);
    if ps[c].highest <= k {
      RightMove(ps, c, k);
      var d := ps[c].sibling;
      assert ps[d].lowest == ps[c].highest;
      ParentHolds(ps, root, pend, p, d);
      RouteIsLast(ps, ps[p], k, ps[d].lowest);
    }
  }

  /** No key of the page lies between the start of the child taken and k. */
  lemma RouteIsLast(ps: Pages, p: Page, k: Key, x: Key)
    requires PageOk(p) && ChildrenLinked(ps, p) && p.level > 0 && p.Holds(k) && x in p.keys && x <= k
    ensures Route(p, k) in ps && x <= ps[Route(p, k)].lowest
  {
    var i :| 0 <= i < |p.keys| && p.keys[i] == x;
    UpperSplits(p.keys, k, i);
    var u := Upper(p.keys, k);
    assert p.keys[i] <= p.keys[u - 1];
  }

  /** A page ends no later than the page above it that holds one of its keys. */
  lemma EndsNoLater(ps: Pages, p: Addr, c: Addr, k: Key)
    requires AllLinked(ps) && Disjoint(ps) && p in ps && c in ps && ps[p].level >= ps[c].level
    requires ps[p].Holds(k) && ps[c].Holds(k)
    ensures ps[c].highest <= ps[p].highest && ps[p].lowest <= ps[c].lowest
  {
    StartsNoLater(ps, p, c, k);
    assert Linked(ps, p) && Linked(ps, c);
    if ps[p].highest < ps[c].highest {
      RightMove(ps, p, ps[p].highest);
      StartsNoLater(ps, ps[p].sibling, c, ps[p].highest);
    }
  }

  /** The root is the whole of its level. */
  lemma RootHolds(ps: Pages, root: Addr, pend: set<Addr>, k: Key)
    requires Tree(ps, root, pend) && Complete(ps, pend, ps[root].level) && MIN_KEY <= k < MAX_KEY
    ensures ps[root].Holds(k)
  {
    hide PageOk;
    assert Linked(ps, root);
    if ps[root].highest <= k {
      RightMove(ps, root, k);
      var d := ps[root].sibling;
      assert ps[d].lowest == ps[root].highest;
      assert Linked(ps, root) && Linked(ps, d);
      LinkedPage(ps, root);
      assert HasParent(ps, d);
      var x :| x in ps && IsChild(ps[x], d);
      ChildInside(ps, x, d);
    }
  }

  /* ---- Runs of one thread ---- */

  function Last(tr: seq<Sys>): Sys
    requires |tr| > 0
  {
    tr[|tr| - 1]
  }

  lemma Acts(tr: seq<Sys>, t: nat, act: Action) returns (us: seq<Sys>)
    requires |tr| > 0 && Run(tr) && Enabled(Last(tr), t, act)
    ensures |us| > 0 && Run(us) && Last(us) == Next(Last(tr), t, act) && us == tr + [Last(us)] && Inv(Last(us))
  {
    hide Init, Enabled, Next, Inv;
    var s' := Next(Last(tr), t, act);
    us := tr + [s'];
    assert ThreadStep(Last(tr), s', t, act);
    forall i | 0 < i < |us| ensures Step(us[i - 1], us[i]) {
      if i < |tr| { assert us[i - 1] == tr[i - 1] && us[i] == tr[i]; }
    }
    ReachableIsSafe(us, |us| - 1);
  }

  /** No other thread has a separator to post. */
  ghost predicate Calm(ths: seq<Thread>, t: nat) {
    forall u :: 0 <= u < |ths| && u != t ==> PendOf(ths[u].pc).None?
  }

  lemma PendIs(ths: seq<Thread>, t: nat)
    requires Calm(ths, t) && t < |ths|
    ensures Pend(ths) == Opt(PendOf(ths[t].pc))
  {
    var o := PendOf(ths[t].pc);
    if o.Some? { assert o.value in Pend(ths); }
  }

  /** The root locks are free and the node has the root cached. */
  ghost predicate Steady(s: Sys, t: nat) {
    && t < |s.threads| && s.threads[t].node < |s.caches| && s.lock.None? && Calm(s.threads, t)
    && s.caches[s.threads[t].node].mtx.None? && s.caches[s.threads[t].node].gRoot == s.entry
  }

  lemma SteadyRoot(s: Sys, t: nat)
    requires Inv(s) && Steady(s, t)
    ensures s.top == s.entry && s.entry in s.pages && s.entry != NULL
    ensures var c := s.caches[s.threads[t].node];
            c.handle == s.entry && c.height == s.pages[s.entry].level && c.mtx.None?
    ensures Tree(s.pages, s.top, Pend(s.threads)) && Pend(s.threads) == Opt(PendOf(s.threads[t].pc))
  {
    hide Tree, ThreadsInv, OneOwner, NoneFull;
    assert CacheOk(s.pages, s.caches[s.threads[t].node]);
    assert s.entry != NULL by { NoNullPage(s); }
    PendIs(s.threads, t);
  }

  /** The pages on the path from one level to another all hold k. */
  ghost predicate Spine(ps: Pages, path: map<nat, Addr>, lo: nat, hi: nat, k: Key) {
    forall j :: lo <= j <= hi ==> j in path && path[j] in ps && ps[path[j]].level == j && ps[path[j]].Holds(k)
  }

  ghost predicate NoneAbove(path: map<nat, Addr>, hi: nat) {
    forall j :: j in path ==> j <= hi
  }

  /** Only thread t and its place changed. */
  ghost predicate OnlyThread(s: Sys, s': Sys, t: nat) {
    t < |s.threads| && |s'.threads| == |s.threads| && s' == s.(threads := s.threads[t := s'.threads[t]])
  }

  /** From a page that holds the key, down to the leaf. */
  lemma {:induction false} Descends(tr: seq<Sys>, t: nat, hi: nat) returns (us: seq<Sys>)
    requires |tr| > 0 && Run(tr) && Inv(Last(tr)) && Steady(Last(tr), t)
    requires var s := Last(tr);
             var th := s.threads[t];
             && th.pc.Search? && !th.pc.goal.Publish? && th.pc.cur in s.pages
             && var p := s.pages[th.pc.cur];
                && 0 < p.level <= hi && p.Holds(th.pc.k)
                && Spine(s.pages, th.path, p.level + 1, hi, th.pc.k) && NoneAbove(th.path, hi)
    ensures |us| > 0 && Run(us) && Inv(Last(us)) && OnlyThread(Last(tr), Last(us), t)
    ensures var s, th, th' := Last(tr), Last(tr).threads[t], Last(us).threads[t];
            && th'.pc.AtLeaf? && th'.pc == AtLeaf(th.pc.k, th.pc.goal, th'.pc.cur) && th'.pc.cur in s.pages
            && s.pages[th'.pc.cur].level == 0 && s.pages[th'.pc.cur].Holds(th.pc.k)
            && Spine(s.pages, th'.path, 1, hi, th.pc.k) && NoneAbove(th'.path, hi)
            && th'.node == th.node && th'.logging == th.logging && th'.turns == 0
    decreases Last(tr).pages[Last(tr).threads[t].pc.cur].level
  {
    hide Run, Inv, Route, Tree;
    var s := Last(tr);
    var th := s.threads[t];
    var a, k := th.pc.cur, th.pc.k;
    SteadyRoot(s, t);
    TreeIsLinked(s.pages, s.top, Pend(s.threads), a);
    RouteHolds(s.pages, s.top, Pend(s.threads), a, k);
    us := Acts(tr, t, Read);
    hide Linked;
    if s.pages[a].level > 1 { us := Descends(us, t, hi); }
  }

  /** From an idle thread to the leaf of a key. */
  lemma ComesToLeaf(tr: seq<Sys>, t: nat, k: Key, row: Bytes) returns (us: seq<Sys>)
    requires |tr| > 0 && Run(tr) && Inv(Last(tr)) && Steady(Last(tr), t) && MIN_KEY <= k < MAX_KEY
    requires Last(tr).threads[t].pc.Idle? && Last(tr).threads[t].turns == 0
    ensures |us| > 0 && Run(us) && Inv(Last(us)) && OnlyThread(Last(tr), Last(us), t)
    ensures var s, th, th' := Last(tr), Last(tr).threads[t], Last(us).threads[t];
            && th'.pc.AtLeaf? && th'.pc == AtLeaf(k, Upsert(row), th'.pc.cur) && th'.pc.cur in s.pages
            && s.pages[th'.pc.cur].level == 0 && s.pages[th'.pc.cur].Holds(k) && s.entry in s.pages
            && Spine(s.pages, th'.path, 1, s.pages[s.entry].level, k) && NoneAbove(th'.path, s.pages[s.entry].level)
            && (s.pages[s.entry].level == 0 ==> th'.pc.cur == s.entry)
            && th'.node == th.node && th'.logging && th'.turns == 0
  {
    hide Run, Inv, Route, Tree, Descend;
    var s := Last(tr);
    SteadyRoot(s, t);
    RootHolds(s.pages, s.top, Pend(s.threads), k);
    TreeIsLinked(s.pages, s.top, Pend(s.threads), s.top);
    us := Acts(tr, t, Begin(k, Upsert(row), true));
    us := Acts(us, t, Restart);
    hide Linked;
    var hi := s.pages[s.entry].level;
    if hi == 0 { us := Acts(us, t, Read); } else { us := Descends(us, t, hi); }
  }

  /* ---- A new root ---- */

  /** Other threads and the caches of other nodes stay as they are, and thread t is idle again. */
  ghost predicate Rests(s: Sys, s': Sys, t: nat) {
    && t < |s.threads| == |s'.threads| && s'.threads == s.threads[t := s'.threads[t]]
    && s.threads[t].node < |s.caches| == |s'.caches|
    && s'.caches == s.caches[s.threads[t].node := s'.caches[s.threads[t].node]]
    && s'.threads[t].pc.Idle? && s'.threads[t].turns == 0 && s'.threads[t].node == s.threads[t].node && Steady(s', t)
  }

  lemma Grows(tr: seq<Sys>, t: nat) returns (us: seq<Sys>, r: Addr)
    requires |tr| > 0 && Run(tr) && Inv(Last(tr)) && Steady(Last(tr), t)
    requires var s := Last(tr);
             var th := s.threads[t];
             && th.pc.Grow? && th.pc.phase.Check? && th.pc.level in th.path && th.path[th.pc.level] == s.entry
             && s.entry in s.pages && s.pages[s.entry].level == th.pc.level && th.turns == 0
    ensures |us| > 0 && Run(us) && Inv(Last(us)) && Rests(Last(tr), Last(us), t)
    ensures var s, pc := Last(tr), Last(tr).threads[t].pc;
            && r !in s.pages && r != NULL && Last(us).entry == r
            && Last(us).pages == s.pages[r := NewRoot(s.entry, pc.sep, pc.child, pc.level + 1)]
  {
    hide Run, Inv, Tree;
    var s := Last(tr);
    var n, pc := s.threads[t].node, s.threads[t].pc;
    SteadyRoot(s, t);
    us := Acts(tr, t, GrowCheck);
    assert Last(us) == s.(caches := s.caches[n := s.caches[n].(mtx := Some(t))],
                          threads := s.threads[t := AtPhase(s.threads[t], WantLock)]);
    us := Acts(us, t, GrowLock);
    us := Acts(us, t, GrowRecheck);
    assert Last(us).threads[t].pc == Grow(pc.sep, pc.child, pc.level, Build);
    r := Spare(s.pages.Keys);
    us := Acts(us, t, GrowBuild(r));
    us := Acts(us, t, GrowCas);
    var s' := Last(us);
    assert s'.threads == s.threads[t := s'.threads[t]];
    assert s'.caches == s.caches[n := s'.caches[n]];
  }

  /** There is always another address. */
  lemma {:induction false} Spare(used: set<Addr>) returns (a: Addr)
    ensures a !in used && a != NULL
    ensures forall x :: x in used ==> x < a
    decreases |used|
  {
    if used == {} { a := 1; }
    else {
      var x :| x in used;
      a := Spare(used - {x});
      assert forall y :: y in used ==> y == x || y in used - {x};
      if a <= x { a := x + 1; }
    }
  }

  /* ---- Posting up the path ---- */

  /** The pages below a level. */
  function Low(ps: Pages, level: nat): Pages {
    map x | x in ps && ps[x].level < level :: ps[x]
  }

  lemma LowLower(ps: Pages, qs: Pages, m: nat, n: nat)
    requires Low(ps, n) == Low(qs, n) && m <= n
    ensures Low(ps, m) == Low(qs, m)
  {
    forall x ensures x in Low(ps, m) <==> x in Low(qs, m) {
      assert x in Low(ps, m) <==> x in Low(ps, n) && Low(ps, n)[x].level < m;
      assert x in Low(qs, m) <==> x in Low(qs, n) && Low(qs, n)[x].level < m;
    }
    forall x | x in Low(ps, m) ensures Low(ps, m)[x] == Low(qs, m)[x] { assert Low(ps, n)[x] == Low(qs, n)[x]; }
  }

  lemma PlacedLow(ps: Pages, a: Addr, q: Page, b: Addr, m: nat)
    requires a in ps && |q.keys| == |q.vals| && ps[a].level == q.level >= m && b !in ps
    ensures Low(Placed(ps, a, q, b), m) == Low(ps, m)
  {}

  lemma NewRootLow(ps: Pages, r: Addr, q: Page, m: nat)
    requires r !in ps && q.level >= m
    ensures Low(ps[r := q], m) == Low(ps, m)
  {}

  /** Ranges nest along the path. */
  lemma {:induction false} SpineNests(ps: Pages, path: map<nat, Addr>, lo: nat, hi: nat, k: Key, x: Key)
    requires AllLinked(ps) && Disjoint(ps) && lo <= hi && Spine(ps, path, lo, hi, k)
    requires ps[path[lo]].Holds(x)
    ensures Spine(ps, path, lo, hi, x)
  {
    forall j | lo <= j <= hi ensures ps[path[j]].Holds(x) { EndsNoLater(ps, path[j], path[lo], k); }
  }

  /** A stored separator, and the key its page may be split at. */
  lemma PostFacts(s: Sys, t: nat, b: Addr)
    requires Inv(s) && Enabled(s, t, PutInternal(b)) && s.pages[s.threads[t].pc.cur].Holds(s.threads[t].pc.sep)
    ensures var p, pc := s.pages[s.threads[t].pc.cur], s.threads[t].pc;
            && |p.keys| == |p.vals|
            && var q := StoreIn(p, pc.sep, Child(pc.child));
               && PageOk(q) && q.level == p.level == pc.target && q.lowest == p.lowest && q.highest == p.highest
               && (Full(q) ==> q.keys != [] && p.Holds(MidKey(q)) && MIN_KEY <= MidKey(q) < MAX_KEY)
    ensures AllLinked(s.pages) && Disjoint(s.pages)
  {
    hide RootInv, OneOwner, NoneLost, NotLinkedYet, Upper;
    var pc := s.threads[t].pc;
    assert ThreadOk(s.pages, s.threads[t]);
    SeparatorNeverPostedTwice(s, t, b);
    StoredPageOk(s.pages[pc.cur], pc.sep, Child(pc.child));
    var q := StoreIn(s.pages[pc.cur], pc.sep, Child(pc.child));
    if Full(q) { SplitPagesOk(q, b); }
  }

  /** A thread that is to post at the page of its path that holds the separator. */
  ghost predicate AtPost(s: Sys, t: nat, hi: nat) {
    && Steady(s, t) && s.threads[t].pc.Post? && s.entry in s.pages && s.pages[s.entry].level == hi
    && var th := s.threads[t];
       && th.pc.target <= hi && Spine(s.pages, th.path, th.pc.target, hi, th.pc.sep) && NoneAbove(th.path, hi)
       && th.pc.cur == th.path[th.pc.target] && |s.pages[th.pc.cur].keys| == |s.pages[th.pc.cur].vals|
  }

  ghost function Posted(s: Sys, t: nat, hi: nat): Page
    requires AtPost(s, t, hi)
  {
    StoreIn(s.pages[s.threads[t].pc.cur], s.threads[t].pc.sep, Child(s.threads[t].pc.child))
  }

  /** The store alone: the thread is done, or is to post the next separator, or to put a new root on top. */
  ghost predicate SeparatorPut(s: Sys, s1: Sys, t: nat, hi: nat, b: Addr)
    requires AtPost(s, t, hi)
  {
    var pc, q := s.threads[t].pc, Posted(s, t, hi);
    && q.level == pc.target && (Full(q) ==> q.keys != []) && |s1.threads| == |s.threads|
    && s1 == s.(pages := Placed(s.pages, pc.cur, q, b), threads := s.threads[t := s1.threads[t]])
    && s1.threads[t].node == s.threads[t].node && s1.threads[t].turns == 0
    && if !Full(q) then s1.threads[t].pc.Idle?
       else if pc.target < hi then
         && AtPost(s1, t, hi) && s1.threads[t].pc.target == pc.target + 1
         && s1.threads[t].pc.sep == MidKey(q) && s1.threads[t].pc.child == b
       else
         && Steady(s1, t) && s1.threads[t].pc == Grow(MidKey(q), b, hi, Check) && hi in s1.threads[t].path
         && s1.threads[t].path[hi] == s1.entry && s1.entry in s1.pages && s1.pages[s1.entry].level == hi
  }

  lemma PutsSeparator(tr: seq<Sys>, t: nat, hi: nat) returns (us: seq<Sys>, b: Addr)
    requires |tr| > 0 && Run(tr) && Inv(Last(tr)) && AtPost(Last(tr), t, hi)
    ensures |us| > 0 && Run(us) && Inv(Last(us)) && b !in Last(tr).pages && b != NULL
    ensures SeparatorPut(Last(tr), Last(us), t, hi, b)
  {
    hide Run, Inv, Tree, StoreIn, PageOk, AllLinked, Disjoint;
    var s := Last(tr);
    var th, pc := s.threads[t], s.threads[t].pc;
    SteadyRoot(s, t);
    TreeIsLinked(s.pages, s.top, Pend(s.threads), pc.cur);
    b := Spare(s.pages.Keys);
    PostFacts(s, t, b);
    NextPutInternal(s, t, b);
    us := Acts(tr, t, PutInternal(b));
    hide Next, Enabled, Linked;
    var q := StoreIn(s.pages[pc.cur], pc.sep, Child(pc.child));
    assert th.path[pc.target := pc.cur] == th.path;
    if Full(q) {
      SpineNests(s.pages, th.path, pc.target, hi, pc.sep, MidKey(q));
      PostRoot(s, t, MidKey(q));
      PostedUp(s, Last(us), t, hi, q, b);
      if pc.target < hi { PageShape(Last(us), Last(us).threads[t].pc.cur); }
    }
  }

  lemma PageShape(s: Sys, a: Addr)
    requires Inv(s) && a in s.pages
    ensures |s.pages[a].keys| == |s.pages[a].vals|
  {
    LeafIsOk(s, a);
  }

  /** A post at the page that holds its separator, and all the posts and the new root it may entail. */
  lemma {:induction false} Posts(tr: seq<Sys>, t: nat, hi: nat) returns (us: seq<Sys>, b: Addr)
    requires |tr| > 0 && Run(tr) && Inv(Last(tr)) && AtPost(Last(tr), t, hi)
    ensures |us| > 0 && Run(us) && Inv(Last(us)) && Rests(Last(tr), Last(us), t)
    ensures var s, pc := Last(tr), Last(tr).threads[t].pc;
            && b !in s.pages && b != NULL
            && Low(Last(us).pages, pc.target + 1) ==
               Low(Placed(s.pages, pc.cur, Posted(s, t, hi), b), pc.target + 1)
    decreases hi - Last(tr).threads[t].pc.target
  {
    hide Run, Inv, StoreIn, Low, Full, Spine, NoneAbove;
    var s := Last(tr);
    var pc, q := s.threads[t].pc, Posted(s, t, hi);
    us, b := PutsSeparator(tr, t, hi);
    var s1 := Last(us);
    var qs := s1.pages;
    hide Placed;
    if Full(q) {
      if pc.target < hi {
        var c;
        us, c := Posts(us, t, hi);
        var a' := s1.threads[t].pc.cur;
        SpineLevel(s1, t, hi);
        StoredLevel(qs[a'], MidKey(q), b);
        PlacedLow(qs, a', Posted(s1, t, hi), c, pc.target + 1);
        LowLower(Last(us).pages, Placed(qs, a', Posted(s1, t, hi), c), pc.target + 1, pc.target + 2);
      } else {
        var r;
        us, r := Grows(us, t);
        NewRootLow(qs, r, NewRoot(s1.entry, MidKey(q), b, pc.target + 1), pc.target + 1);
      }
    }
  }

  lemma SpineLevel(s: Sys, t: nat, hi: nat)
    requires AtPost(s, t, hi)
    ensures s.threads[t].pc.cur in s.pages && s.pages[s.threads[t].pc.cur].level == s.threads[t].pc.target
  {}

  lemma OnTop(ps: Pages, root: Addr, pend: set<Addr>)
    requires Tree(ps, root, pend)
    ensures RootOnTop(ps, root)
  {}

  /** While only a separator below it waits, the root holds every key. */
  lemma PostRoot(s: Sys, t: nat, k: Key)
    requires Inv(s) && Steady(s, t) && s.threads[t].pc.Post? && MIN_KEY <= k < MAX_KEY
    ensures s.entry in s.pages && s.pages[s.entry].Holds(k)
  {
    hide Tree, RootInv, OneOwner, NoneFull;
    SteadyRoot(s, t);
    assert ThreadOk(s.pages, s.threads[t]);
    OnTop(s.pages, s.top, Pend(s.threads));
    RootHolds(s.pages, s.top, Pend(s.threads), k);
  }

  lemma StoredLevel(p: Page, k: Key, c: Addr)
    requires |p.keys| == |p.vals|
    ensures StoreIn(p, k, Child(c)).level == p.level
  {}

  /** After the split: the next post, or the growing of the root, is ready to go. */
  lemma PostedUp(s: Sys, s1: Sys, t: nat, hi: nat, q: Page, b: Addr)
    requires t < |s.threads| && Steady(s, t) && |q.keys| == |q.vals| && Full(q) && q.keys != []
    requires s.threads[t].pc.Post?
    requires var th, a := s.threads[t], s.threads[t].pc.cur;
             && q.level == th.pc.target <= hi && a in s.pages && s.pages[a].level == q.level
             && th.path[q.level := a] == th.path && NoneAbove(th.path, hi) && b !in s.pages
             && Spine(s.pages, th.path, q.level, hi, MidKey(q)) && s.entry in s.pages && s.pages[s.entry].level == hi
             && s.pages[s.entry].Holds(MidKey(q)) && s.entry != NULL
             && s1 == s.(pages := Placed(s.pages, a, q, b),
                         threads := s.threads[t := AfterPut(Reset(Visit(th, s.pages[a], a)), q, b, th.pc.sep)])
    requires Disjoint(s.pages)
    ensures Steady(s1, t) && s1.entry in s1.pages && s1.pages[s1.entry].level == hi
    ensures var th1 := s1.threads[t];
            && th1.turns == 0 && th1.node == s.threads[t].node && NoneAbove(th1.path, hi)
            && if q.level < hi
               then
                 && th1.pc == Post(MidKey(q), b, q.level + 1, Nested(th1.pc.origin.probe), th1.path[q.level + 1])
                 && Spine(s1.pages, th1.path, q.level + 1, hi, MidKey(q))
               else th1.pc == Grow(MidKey(q), b, hi, Check) && hi in th1.path && th1.path[hi] == s1.entry
  {
    var th := s.threads[t];
    PageUnique(s.pages, th.path[hi], s.entry, MidKey(q));
  }

  /* ---- A whole insert ---- */

  /** A thread at the leaf of its key, with the path above it. */
  ghost predicate AtOwnLeaf(s: Sys, t: nat, hi: nat) {
    && Steady(s, t) && s.threads[t].pc.AtLeaf? && s.threads[t].pc.goal.Upsert? && s.entry in s.pages
    && s.pages[s.entry].level == hi
    && var th := s.threads[t];
       && th.pc.cur in s.pages && s.pages[th.pc.cur].level == 0 && s.pages[th.pc.cur].Holds(th.pc.k)
       && |s.pages[th.pc.cur].keys| == |s.pages[th.pc.cur].vals|
       && Spine(s.pages, th.path, 1, hi, th.pc.k) && NoneAbove(th.path, hi) && (hi == 0 ==> th.pc.cur == s.entry)
  }

  ghost function Stored(s: Sys, t: nat, hi: nat): Page
    requires AtOwnLeaf(s, t, hi)
  {
    StoreIn(s.pages[s.threads[t].pc.cur], s.threads[t].pc.k, Row(s.threads[t].pc.goal.row))
  }

  /** The leaf store alone. */
  ghost predicate RowPut(s: Sys, s1: Sys, t: nat, hi: nat, b: Addr)
    requires AtOwnLeaf(s, t, hi)
  {
    var pc, q := s.threads[t].pc, Stored(s, t, hi);
    && q.level == 0 && (Full(q) ==> q.keys != []) && |s1.threads| == |s.threads|
    && s1 == s.(pages := Placed(s.pages, pc.cur, q, b), threads := s.threads[t := s1.threads[t]])
    && s1.threads[t].node == s.threads[t].node && s1.threads[t].turns == 0
    && if !Full(q) then s1.threads[t].pc.Idle?
       else if hi > 0 then
         && AtPost(s1, t, hi) && s1.threads[t].pc.target == 1 && s1.threads[t].pc.cur == s.threads[t].path[1]
         && s1.threads[t].pc.sep == MidKey(q) && s1.threads[t].pc.child == b
       else
         && Steady(s1, t) && s1.threads[t].pc == Grow(MidKey(q), b, 0, Check) && 0 in s1.threads[t].path
         && s1.threads[t].path[0] == s1.entry && s1.entry in s1.pages && s1.pages[s1.entry].level == 0
  }

  lemma LeafFacts(s: Sys, t: nat, hi: nat)
    requires Inv(s) && AtOwnLeaf(s, t, hi)
    ensures Linked(s.pages, s.threads[t].pc.cur) && AllLinked(s.pages) && Disjoint(s.pages) && s.entry in s.pages
    ensures var p, q := s.pages[s.threads[t].pc.cur], Stored(s, t, hi);
            && q.level == 0 && q.lowest == p.lowest && q.highest == p.highest
            && (Full(q) ==> q.keys != [] && p.Holds(MidKey(q)) && MIN_KEY <= MidKey(q) < MAX_KEY)
  {
    hide RootInv, OneOwner, NoneLost, NotLinkedYet, Upper, ThreadsInv, Spine;
    var pc := s.threads[t].pc;
    assert Linked(s.pages, pc.cur);
    StoredPageOk(s.pages[pc.cur], pc.k, Row(pc.goal.row));
    if Full(Stored(s, t, hi)) { SplitPagesOk(Stored(s, t, hi), 1); }
  }

  lemma PutsRow(tr: seq<Sys>, t: nat, hi: nat) returns (us: seq<Sys>, b: Addr)
    requires |tr| > 0 && Run(tr) && Inv(Last(tr)) && AtOwnLeaf(Last(tr), t, hi)
    ensures |us| > 0 && Run(us) && Inv(Last(us)) && b !in Last(tr).pages && b != NULL
    ensures RowPut(Last(tr), Last(us), t, hi, b)
  {
    hide Run, Inv, Tree, StoreIn, PageOk, AllLinked, Disjoint;
    var s := Last(tr);
    var th, pc, q := s.threads[t], s.threads[t].pc, Stored(s, t, hi);
    b := Spare(s.pages.Keys);
    LeafFacts(s, t, hi);
    NextPutLeaf(s, t, b);
    us := Acts(tr, t, PutLeaf(b));
    hide Next, Enabled, Linked;
    if Full(q) && hi > 0 {
      EndsNoLater(s.pages, th.path[1], pc.cur, pc.k);
      SpineNests(s.pages, th.path, 1, hi, pc.k, MidKey(q));
      RowPutUp(s, Last(us), t, hi, q, b);
      PageShape(Last(us), th.path[1]);
    }
  }

  lemma RowPutUp(s: Sys, s1: Sys, t: nat, hi: nat, q: Page, b: Addr)
    requires AtOwnLeaf(s, t, hi) && hi > 0 && |q.keys| == |q.vals| && Full(q) && q.keys != [] && q.level == 0
    requires var th, a := s.threads[t], s.threads[t].pc.cur;
             && Spine(s.pages, th.path, 1, hi, MidKey(q)) && b !in s.pages
             && s1 == s.(pages := Placed(s.pages, a, q, b),
                         threads := s.threads[t := AfterPut(Reset(Visit(th, s.pages[a], a)), q, b, th.pc.k)])
    ensures Steady(s1, t) && s1.entry in s1.pages && s1.pages[s1.entry].level == hi
    ensures var th, th1 := s.threads[t], s1.threads[t];
            && th1.turns == 0 && th1.node == th.node && NoneAbove(th1.path, hi) && th1.pc.Post? && 1 in th1.path
            && th1.pc.sep == MidKey(q) && th1.pc.child == b && th1.pc.target == 1
            && th1.pc.cur == th1.path[1] == th.path[1]
            && Spine(s1.pages, th1.path, 1, hi, MidKey(q))
  {}

  /** What an insert of key k at leaf a does to the pages of the two lowest levels. Page p is the one above the leaf. */
  ghost predicate Inserted(s: Sys, s': Sys, k: Key, row: Bytes, a: Addr, b: Addr, p: Addr, c: Addr) {
    && a in s.pages && s.pages[a].level == 0 && s.pages[a].Holds(k) && |s.pages[a].keys| == |s.pages[a].vals|
    && s.entry in s.pages
    && var q := StoreIn(s.pages[a], k, Row(row));
       if !Full(q) then s'.pages == s.pages[a := q] && s'.entry == s.entry
       else
         && b !in s.pages && b != NULL && q.keys != []
         && if s.pages[s.entry].level == 0 then
              && a == s.entry && s'.entry == c && c !in s.pages && c != b && c != NULL
              && s'.pages == Placed(s.pages, a, q, b)[c := NewRoot(a, MidKey(q), b, 1)]
            else
              && p in s.pages && s.pages[p].level == 1 && s.pages[p].Holds(k) && |s.pages[p].keys| == |s.pages[p].vals|
              && c !in s.pages && c != b && c != NULL
              && Low(s'.pages, 2) ==
                 Low(Placed(Placed(s.pages, a, q, b), p, InternalPut(s.pages[p], MidKey(q), b), c), 2)
  }

  lemma Inserts(tr: seq<Sys>, t: nat, k: Key, row: Bytes) returns (us: seq<Sys>, a: Addr, b: Addr, p: Addr, c: Addr)
    requires |tr| > 0 && Run(tr) && Inv(Last(tr)) && Steady(Last(tr), t) && MIN_KEY <= k < MAX_KEY
    requires Last(tr).threads[t].pc.Idle? && Last(tr).threads[t].turns == 0
    ensures |us| > 0 && Run(us) && Inv(Last(us)) && Rests(Last(tr), Last(us), t)
    ensures Inserted(Last(tr), Last(us), k, row, a, b, p, c)
  {
    hide Run, Inv, StoreIn, Low, Full, Spine, NoneAbove, Placed;
    var s := Last(tr);
    us := ComesToLeaf(tr, t, k, row);
    var s0 := Last(us);
    var hi := s.pages[s.entry].level;
    a := s0.threads[t].pc.cur;
    PageShape(s0, a);
    assert Calm(s0.threads, t);
    assert AtOwnLeaf(s0, t, hi);
    us, b := PutsRow(us, t, hi);
    p, c := NULL, NULL;
    var s1, q := Last(us), Stored(s0, t, hi);
    if !Full(q) { PlacedWhole(s.pages, a, q, b); }
    else if hi == 0 { us, c := Grows(us, t); OtherThanPlaced(s.pages, a, q, b, c); }
    else {
      p := s1.threads[t].pc.cur;
      assert p in s.pages && s.pages[p].level == 1 && s.pages[p].Holds(k) by { SpineAt(s0, t, hi); }
      us, c := Posts(us, t, hi);
      PageShape(s0, p);
      PostAtOld(s.pages, a, q, b, p);
      StoreSeparator(s.pages[p], MidKey(q), b);
      OtherThanPlaced(s.pages, a, q, b, c);
    }
  }

  lemma SpineAt(s: Sys, t: nat, hi: nat)
    requires AtOwnLeaf(s, t, hi) && hi > 0
    ensures var a := s.threads[t].path[1]; a in s.pages && s.pages[a].level == 1 && s.pages[a].Holds(s.threads[t].pc.k)
  {}

  lemma StoreSeparator(p: Page, k: Key, c: Addr)
    requires |p.keys| == |p.vals|
    ensures StoreIn(p, k, Child(c)) == InternalPut(p, k, c)
  {}

  lemma PlacedWhole(ps: Pages, a: Addr, q: Page, b: Addr)
    requires |q.keys| == |q.vals| && !Full(q)
    ensures Placed(ps, a, q, b) == ps[a := q]
  {}

  lemma OtherThanPlaced(ps: Pages, a: Addr, q: Page, b: Addr, c: Addr)
    requires a in ps && |q.keys| == |q.vals| && Full(q) && q.keys != [] && c !in Placed(ps, a, q, b)
    ensures c !in ps && c != b
  {}

  lemma PostAtOld(ps: Pages, a: Addr, q: Page, b: Addr, p: Addr)
    requires a in ps && p in ps && ps[p].level != ps[a].level && b !in ps && |q.keys| == |q.vals| && Full(q) &&
             q.keys != []
    ensures p in Placed(ps, a, q, b) && Placed(ps, a, q, b)[p] == ps[p]
  {}
}
