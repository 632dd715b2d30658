/** How an operation loses its redo logger. The posts of a split carry the logger of the insert, except one: when the
    page remembered above the split fails to take the separator and no page is remembered above that, the separator is
    inserted top down by a call that passes no logger. In every run that happens only after five right turns, on a page
    that ends at or before the separator. */
module BLinkLogger {
  import opened BLinkPage
  import opened BLinkTree
  import opened BLinkSystem
  import opened BLinkSafety
  import opened BLinkRoot
  import opened BLinkRuns

  /* ---- The remembered pages ---- */

  /** The pages remembered from a level on start at or before k. */
  ghost predicate Above(ps: Pages, path: map<nat, Addr>, from: nat, k: Key) {
    forall l :: l in path && l >= from ==> path[l] in ps && ps[path[l]].lowest <= k
  }

  /** What a thread that is posting a separator remembers. Only the probe, which searches with another key, may leave a
      page on the path that starts after the separator. */
  ghost predicate StackOk(ps: Pages, th: Thread) {
    match th.pc
    case Search(k, Publish(_, target), cur) =>
      && Above(ps, th.path, target + 2, k)
      && (cur != NULL ==> cur in ps && ps[cur].lowest <= k)
      && (cur != NULL && ps[cur].level <= target ==> Above(ps, th.path, target + 1, k))
    case Post(sep, _, target, origin, cur) =>
      && Above(ps, th.path, target + 2, sep) && cur in ps
      && (origin.TopDown? || target + 1 !in th.path ==> ps[cur].lowest <= sep)
      && (ps[cur].lowest <= sep ==> Above(ps, th.path, target + 1, sep))
    case Probe(sep, _, target, _, _) => Above(ps, th.path, target + 2, sep)
    case Grow(sep, _, level, phase) => phase.Cas? || Above(ps, th.path, level + 3, sep)
    case _ => true
  }

  function CurOf(pc: Pc): Addr {
    match pc
    case Search(_, _, cur) => cur
    case AtLeaf(_, _, cur) => cur
    case Post(_, _, _, _, cur) => cur
    case Probe(_, _, _, _, cur) => cur
    case _ => NULL
  }

  /** A thread has been no higher than the root its node has cached. */
  ghost predicate Below(ps: Pages, th: Thread, height: nat) {
    && (forall l :: l in th.path ==> l <= height)
    && (CurOf(th.pc) in ps ==> ps[CurOf(th.pc)].level <= height)
  }

  ghost predicate ThreadStack(s: Sys, t: nat)
    requires t < |s.threads|
  {
    var th := s.threads[t];
    StackOk(s.pages, th) && th.turns <= RETRIES + 1 &&
      (th.node < |s.caches| ==> Below(s.pages, th, s.caches[th.node].height))
  }

  ghost predicate StackInv(s: Sys) {
    && EmptyIsLow(s)
    && (forall t {:trigger ThreadStack(s, t)} :: 0 <= t < |s.threads| ==> ThreadStack(s, t))
  }

  /** Where a page starts, pages of every lower level start; so a page that starts before a key starts no later than any
      page below it that holds the key. */
  lemma {:induction false} StartsNoLater(ps: Pages, p: Addr, a: Addr, x: Key)
    requires AllLinked(ps) && Disjoint(ps) && p in ps && a in ps && ps[p].level >= ps[a].level
    requires ps[a].Holds(x) && ps[p].lowest <= x
    ensures ps[p].lowest <= ps[a].lowest
    decreases ps[p].level
  {
    assert Linked(ps, p) && Linked(ps, a);
    if ps[p].level > ps[a].level { StartsNoLater(ps, ps[p].leftmost, a, x); }
    else if ps[p].lowest > ps[a].lowest { PageUnique(ps, p, a, ps[p].lowest); }
  }

  lemma PathStartsNoLater(ps: Pages, path: map<nat, Addr>, from: nat, k: Key, a: Addr)
    requires AllLinked(ps) && Disjoint(ps) && PathOk(ps, path) && a in ps && ps[a].Holds(k) && from >= ps[a].level
    requires Above(ps, path, from, k)
    ensures Above(ps, path, from, ps[a].lowest)
  {
    forall l | l in path && l >= from ensures path[l] in ps && ps[path[l]].lowest <= ps[a].lowest {
      StartsNoLater(ps, path[l], a, k);
    }
  }

  lemma RouteStartsLater(ps: Pages, p: Page, k: Key)
    requires PageOk(p) && ChildrenLinked(ps, p) && p.level > 0
    ensures Route(p, k) in ps && ps[Route(p, k)].lowest >= p.lowest && ps[Route(p, k)].level == p.level - 1
    ensures p.Holds(k) ==> ps[Route(p, k)].lowest <= k
  {}

  /* ---- Other threads and caches ---- */

  lemma StackStable(ps: Pages, qs: Pages, th: Thread, h: nat, h': nat)
    requires Evolves(ps, qs) && StackOk(ps, th) && ThreadOk(ps, th) && Below(ps, th, h) && h <= h' && NULL !in ps
    requires NULL !in qs
    ensures StackOk(qs, th) && Below(qs, th, h')
  {}

  ghost predicate EmptyIsLow(s: Sys) {
    forall n :: 0 <= n < |s.caches| && s.caches[n].handle == NULL ==> s.caches[n].height == 0
  }

  ghost predicate Rises(s: Sys, s': Sys) {
    && |s'.caches| == |s.caches|
    && (forall n :: 0 <= n < |s.caches| ==> s.caches[n].height <= s'.caches[n].height)
    && EmptyIsLow(s')
  }

  lemma OneCache(s: Sys, s': Sys, n: nat)
    requires EmptyIsLow(s) && n < |s.caches| == |s'.caches| && s'.caches == s.caches[n := s'.caches[n]]
    requires s.caches[n].height <= s'.caches[n].height && (s'.caches[n].handle == NULL ==> s'.caches[n].height == 0)
    ensures Rises(s, s')
  {}

  lemma RefetchRises(s: Sys, n: nat)
    requires RootInv(s) && EmptyIsLow(s) && n < |s.caches| && NULL !in s.pages
    requires Swinging(s) ==> s.threads[s.lock.value].node != n
    ensures Refetched(s, s.caches[n]).height >= s.caches[n].height && Refetched(s, s.caches[n]).handle != NULL
  {
    assert CacheOk(s.pages, s.caches[n]);
  }

  /** No action lowers the height a node has cached. */
  lemma ActionHeights(s: Sys, t: nat, act: Action)
    requires Inv(s) && Enabled(s, t, act) && EmptyIsLow(s)
    ensures Rises(s, Next(s, t, act))
  {
    hide Tree, NoneFull, OneOwner, ThreadsInv, Linked, CacheOk;
    var s', n := Next(s, t, act), s.threads[t].node;
    assert NULL !in s.pages by { TreeHasNoNull(s.pages, s.top, Pend(s.threads)); }
    if act.GrowCheck? {
      if s.caches[n].gRoot == NULL { RefetchRises(s, n); }
      OneCache(s, s', n);
    } else if act.GrowRecheck? {
      RefetchRises(s, n);
      OneCache(s, s', n);
    } else if act.GrowBuild? {
      GrowBuildRoot(s, t, act.spare);
      OneCache(s, s', n);
    } else if act.GrowCas? {
      OneCache(s, s', n);
    }
  }

  lemma StepHeights(s: Sys, s': Sys)
    requires Inv(s) && Step(s, s') && EmptyIsLow(s)
    ensures Rises(s, s')
  {
    hide TreeInv, ThreadsInv, Enabled, Next, CacheOk;
    if t, act :| ThreadStep(s, s', t, act) { ActionHeights(s, t, act); }
    else {
      var n: nat :| NodeStep(s, s', n);
      assert NULL !in s.pages by { NoNullPage(s); }
      if s.caches[n].mtx.None? { RefetchRises(s, n); }
      OneCache(s, s', n);
    }
  }

  lemma NoNullPage(s: Sys)
    requires Inv(s)
    ensures NULL !in s.pages
  {
    hide RootInv, ThreadsInv, Tree;
    TreeHasNoNull(s.pages, s.top, Pend(s.threads));
  }

  /* ---- The acting thread ---- */

  lemma ReadStack(ps: Pages, th: Thread)
    requires th.pc.Search? && Linked(ps, th.pc.cur) && ThreadOk(ps, th) && StackOk(ps, th) && NULL !in ps
    ensures StackOk(ps, AfterRead(th, ps[th.pc.cur], th.pc.cur))
  {
    hide Upper, PageOk, Route;
    var a, k := th.pc.cur, th.pc.k;
    LinkedPage(ps, a);
    if ps[a].level > 0 { RouteStartsLater(ps, ps[a], k); }
    if ps[a].highest <= k { RightMove(ps, a, k); }
  }

  lemma ReadBelow(ps: Pages, th: Thread, h: nat)
    requires th.pc.Search? && Linked(ps, th.pc.cur) && ThreadOk(ps, th) && Below(ps, th, h) && NULL !in ps
    ensures Below(ps, AfterRead(th, ps[th.pc.cur], th.pc.cur), h)
  {
    hide Upper, PageOk, Route;
    var a, k := th.pc.cur, th.pc.k;
    LinkedPage(ps, a);
    if ps[a].level > 0 { RouteStartsLater(ps, ps[a], k); }
    if ps[a].highest <= k { RightMove(ps, a, k); }
  }

  lemma ReadLeafStack(ps: Pages, th: Thread, h: nat)
    requires th.pc.AtLeaf? && Linked(ps, th.pc.cur) && ThreadOk(ps, th) && Below(ps, th, h) && NULL !in ps
    ensures var th' := AfterReadLeaf(th, ps[th.pc.cur], th.pc.cur); StackOk(ps, th') && Below(ps, th', h)
  {
    hide Upper, PageOk, Get;
    LinkedPage(ps, th.pc.cur);
    if ps[th.pc.cur].highest <= th.pc.k { RightMove(ps, th.pc.cur, th.pc.k); }
  }

  lemma ReadProbeStack(ps: Pages, th: Thread, h: nat)
    requires th.pc.Probe? && Linked(ps, th.pc.cur) && ThreadOk(ps, th) && StackOk(ps, th) && Below(ps, th, h)
    requires NULL !in ps
    ensures var th' := AfterReadProbe(th, ps[th.pc.cur], th.pc.cur); StackOk(ps, th') && Below(ps, th', h)
  {
    hide Upper, PageOk;
    var a := th.pc.cur;
    LinkedPage(ps, a);
    RouteStartsLater(ps, ps[a], th.pc.probe);
    if ps[a].highest <= th.pc.probe { RightMove(ps, a, th.pc.probe); }
  }

  lemma MissedStack(ps: Pages, th: Thread, h: nat)
    requires th.pc.Post? && ThreadOk(ps, th) && StackOk(ps, th) && Below(ps, th, h) && NULL !in ps
    ensures StackOk(ps, Missed(th)) && Below(ps, Missed(th), h)
  {}

  lemma VisitedStack(ps: Pages, th: Thread, h: nat)
    requires th.pc.Post? && th.pc.cur in ps && ThreadOk(ps, th) && StackOk(ps, th) && Below(ps, th, h)
    ensures var th' := Reset(Visit(th, ps[th.pc.cur], th.pc.cur));
            StackOk(ps, th') && Below(ps, th', h) && ThreadOk(ps, th')
  {}

  /** The separator of a split starts behind everything that is remembered above. */
  lemma AfterPutStack(ps: Pages, qs: Pages, th: Thread, a: Addr, k: Key, q: Page, b: Addr, probe: Key, h: nat)
    requires AllLinked(ps) && Disjoint(ps) && PathOk(ps, th.path) && a in ps && ps[a].Holds(k) && Evolves(ps, qs)
    requires Above(ps, th.path, ps[a].level + 1, k) && NULL !in qs
    requires q.level == ps[a].level && q.lowest == ps[a].lowest && (Full(q) ==> MidKey(q) > q.lowest)
    requires forall l :: l in th.path ==> l <= h
    ensures StackOk(qs, AfterPut(th, q, b, probe)) && Below(qs, AfterPut(th, q, b, probe), h)
  {
    PathStartsNoLater(ps, th.path, ps[a].level + 1, k, a);
  }

  /** What the acting thread has to satisfy after its action. */
  ghost predicate ActedOk(ps: Pages, th: Thread, h: nat) {
    StackOk(ps, th) && th.turns <= RETRIES + 1 && Below(ps, th, h)
  }

  lemma SearchesStack(s: Sys, t: nat, act: Action)
    requires Inv(s) && StackInv(s) && Enabled(s, t, act) && (act.Read? || act.ReadLeaf? || act.ReadProbe?)
    ensures ActedOk(s.pages, Next(s, t, act).threads[t], s.caches[s.threads[t].node].height)
  {
    hide TreeInv, RootInv, StackOk, Below, Linked, Route, Get;
    var th := s.threads[t];
    NoNullPage(s);
    assert ThreadOk(s.pages, th) && ThreadStack(s, t);
    var h := s.caches[th.node].height;
    match act
    case Read => ReadStack(s.pages, th); ReadBelow(s.pages, th, h);
    case ReadLeaf => ReadLeafStack(s.pages, th, h);
    case ReadProbe => ReadProbeStack(s.pages, th, h);
  }

  lemma RootBelow(s: Sys, n: nat)
    requires RootInv(s) && n < |s.caches| && s.caches[n].gRoot != NULL
    ensures var r := s.caches[n].gRoot;
            r in s.pages && s.pages[r].lowest == MIN_KEY && s.pages[r].level == s.caches[n].height
  {
    hide LocksOk, EntryOk, HeightsOk;
    assert CacheOk(s.pages, s.caches[n]);
  }

  lemma LocalStack(s: Sys, t: nat, act: Action)
    requires Inv(s) && StackInv(s) && Enabled(s, t, act)
    requires act.Begin? || act.Restart? || act.FallBack? || act.PostHere?
    ensures ActedOk(s.pages, Next(s, t, act).threads[t], s.caches[s.threads[t].node].height)
  {
    hide TreeInv, RootInv, Linked;
    var th := s.threads[t];
    NoNullPage(s);
    assert ThreadOk(s.pages, th) && ThreadStack(s, t);
    match act
    case Begin(_, _, _) =>
    case Restart => RootBelow(s, th.node);
    case FallBack =>
    case PostHere =>
  }

  lemma GrowStack(s: Sys, t: nat, act: Action)
    requires Inv(s) && StackInv(s) && Enabled(s, t, act) && (act.GrowCheck? || act.GrowLock? || act.GrowRecheck?)
    ensures ActedOk(s.pages, Next(s, t, act).threads[t], s.caches[s.threads[t].node].height)
  {
    hide TreeInv, RootInv, Linked;
    NoNullPage(s);
    assert ThreadOk(s.pages, s.threads[t]) && ThreadStack(s, t);
  }

  lemma PutLeafStack(s: Sys, t: nat, b: Addr)
    requires Inv(s) && StackInv(s) && Enabled(s, t, PutLeaf(b))
    ensures var s' := Next(s, t, PutLeaf(b)); ActedOk(s'.pages, s'.threads[t], s.caches[s.threads[t].node].height)
  {
    hide TreeInv, RootInv, Linked, PageOk, StoreIn, Placed, AfterPut, Full, Evolves;
    var th, ps := s.threads[t], s.pages;
    var a, k := th.pc.cur, th.pc.k;
    NoNullPage(s);
    assert ThreadOk(ps, th) && ThreadStack(s, t);
    LinkedPage(ps, a);
    if ps[a].Holds(k) { LeafStoredStack(s, t, b); }
    else if ps[a].highest <= k { RightMove(ps, a, k); }
  }

  /** What every store needs to know of the tree. */
  lemma StoreFacts(s: Sys, t: nat, a: Addr)
    requires Inv(s) && StackInv(s) && t < |s.threads| && a in s.pages
    ensures AllLinked(s.pages) && Disjoint(s.pages) && PageOk(s.pages[a]) && !Full(s.pages[a])
    ensures ThreadOk(s.pages, s.threads[t]) && ThreadStack(s, t)
  {
    hide RootInv, OneOwner, NoneLost, NotLinkedYet, ThreadOk, StackOk, Below, PageOk;
    assert Linked(s.pages, a);
  }

  lemma PutPath(ps: Pages, th: Thread, a: Addr, k: Key, h: nat)
    requires PathOk(ps, th.path) && a in ps && ps[a].level <= h && (forall l :: l in th.path ==> l <= h)
    requires Above(ps, th.path, ps[a].level + 1, k)
    ensures var path := Visit(th, ps[a], a).path;
            PathOk(ps, path) && Above(ps, path, ps[a].level + 1, k) && forall l :: l in path ==> l <= h
  {}

  lemma LeafStoredStack(s: Sys, t: nat, b: Addr)
    requires Inv(s) && StackInv(s) && Enabled(s, t, PutLeaf(b)) && s.pages[s.threads[t].pc.cur].Holds(s.threads[t].pc.k)
    ensures var s' := Next(s, t, PutLeaf(b)); ActedOk(s'.pages, s'.threads[t], s.caches[s.threads[t].node].height)
  {
    hide Inv, StackInv, Linked, PageOk, Placed, Evolves, StackOk, Upper, AllLinked, Disjoint, Next, StoreIn;
    var th, ps, s' := s.threads[t], s.pages, Next(s, t, PutLeaf(b));
    var a, k, h := th.pc.cur, th.pc.k, s.caches[th.node].height;
    LinkedPage(ps, a);
    StoreFacts(s, t, a);
    NextPutLeaf(s, t, b);
    var q := StoreIn(ps[a], k, Row(th.pc.goal.row));
    ActionEvolves(s, t, PutLeaf(b));
    ActionKeepsInv(s, t, PutLeaf(b));
    NoNullPage(s');
    StoredMid(ps[a], k, Row(th.pc.goal.row), b);
    PutPath(ps, th, a, k, h);
    AfterPutStack(ps, s'.pages, Reset(Visit(th, ps[a], a)), a, k, q, b, k, h);
  }

  lemma StoredMid(p: Page, k: Key, v: Val, b: Addr)
    requires PageOk(p) && !Full(p) && p.Holds(k) && b != NULL
    requires if p.level == 0 then v.Row? else v.Child? && k > p.lowest && k !in p.keys
    ensures var q := StoreIn(p, k, v); q.level == p.level && q.lowest == p.lowest && (Full(q) ==> MidKey(q) > q.lowest)
  {
    hide Upper;
    StoredPageOk(p, k, v);
    if Full(StoreIn(p, k, v)) { SplitPagesOk(StoreIn(p, k, v), b); }
  }

  lemma PostStoredStack(s: Sys, t: nat, b: Addr)
    requires Inv(s) && StackInv(s) && Enabled(s, t, PutInternal(b))
    requires s.pages[s.threads[t].pc.cur].Holds(s.threads[t].pc.sep)
    ensures var s' := Next(s, t, PutInternal(b)); ActedOk(s'.pages, s'.threads[t], s.caches[s.threads[t].node].height)
  {
    hide Inv, StackInv, Linked, PageOk, Placed, Evolves, Upper, AllLinked, Disjoint, Next, StoreIn;
    var th, ps, s' := s.threads[t], s.pages, Next(s, t, PutInternal(b));
    var a, k, h := th.pc.cur, th.pc.sep, s.caches[th.node].height;
    LinkedPage(ps, a);
    StoreFacts(s, t, a);
    NextPutInternal(s, t, b);
    var q := StoreIn(ps[a], k, Child(th.pc.child));
    ActionEvolves(s, t, PutInternal(b));
    ActionKeepsInv(s, t, PutInternal(b));
    NoNullPage(s');
    SeparatorNeverPostedTwice(s, t, b);
    StoredMid(ps[a], k, Child(th.pc.child), b);
    PutPath(ps, th, a, k, h);
    AfterPutStack(ps, s'.pages, Reset(Visit(th, ps[a], a)), a, k, q, b, k, h);
  }

  lemma PutInternalStack(s: Sys, t: nat, b: Addr)
    requires Inv(s) && StackInv(s) && Enabled(s, t, PutInternal(b))
    ensures var s' := Next(s, t, PutInternal(b)); ActedOk(s'.pages, s'.threads[t], s.caches[s.threads[t].node].height)
  {
    hide TreeInv, RootInv, Linked, PageOk, StoreIn, Placed, AfterPut, Full, Evolves, Missed;
    var th, ps := s.threads[t], s.pages;
    var a, k, h := th.pc.cur, th.pc.sep, s.caches[th.node].height;
    NoNullPage(s);
    assert ThreadOk(ps, th) && ThreadStack(s, t);
    LinkedPage(ps, a);
    if ps[a].Holds(k) { PostStoredStack(s, t, b); }
    else {
      if ps[a].highest <= k { RightMove(ps, a, k); }
      VisitedStack(ps, th, h);
      MissedStack(ps, Reset(Visit(th, ps[a], a)), h);
      MissedTurns(Reset(Visit(th, ps[a], a)));
    }
  }

  lemma MissedTurns(th: Thread)
    requires th.pc.Post?
    ensures Missed(th).turns == th.turns
  {}

  lemma ActionStack(s: Sys, t: nat, act: Action)
    requires Inv(s) && StackInv(s) && Enabled(s, t, act)
    ensures var s' := Next(s, t, act);
            && s'.threads[t].node == s.threads[t].node
            && ActedOk(s'.pages, s'.threads[t], s'.caches[s.threads[t].node].height)
  {
    hide Inv, StackInv, StackOk, Below, Linked, Placed, StoreIn;
    ActionHeights(s, t, act) by { LowOf(s); }
    var h := s.caches[s.threads[t].node].height;
    ActionNode(s, t, act);
    if act.Read? || act.ReadLeaf? || act.ReadProbe? { SearchesStack(s, t, act); }
    else if act.PutLeaf? { PutLeafStack(s, t, act.spare); }
    else if act.PutInternal? { PutInternalStack(s, t, act.spare); }
    else if act.GrowBuild? || act.GrowCas? { RootActionStack(s, t, act); }
    else {
      if act.GrowCheck? || act.GrowLock? || act.GrowRecheck? { GrowStack(s, t, act); } else { LocalStack(s, t, act); }
      assert Next(s, t, act).pages == s.pages;
    }
    HigherBelow(Next(s, t, act).pages, Next(s, t, act).threads[t], h, Next(s, t, act).caches[s.threads[t].node].height);
  }

  lemma LowOf(s: Sys)
    requires StackInv(s)
    ensures EmptyIsLow(s)
  {}

  lemma HigherBelow(ps: Pages, th: Thread, h: nat, h': nat)
    requires Below(ps, th, h) && h <= h'
    ensures Below(ps, th, h')
  {}

  lemma ActionNode(s: Sys, t: nat, act: Action)
    requires Enabled(s, t, act)
    ensures var s' := Next(s, t, act);
            && |s'.threads| == |s.threads| && s'.threads == s.threads[t := s'.threads[t]]
            && s'.threads[t].node == s.threads[t].node
  {
    hide Linked, Placed, StoreIn, Route, Get, Put;
  }

  lemma RootActionStack(s: Sys, t: nat, act: Action)
    requires Inv(s) && StackInv(s) && Enabled(s, t, act) && (act.GrowBuild? || act.GrowCas?)
    ensures var s' := Next(s, t, act); ActedOk(s'.pages, s'.threads[t], s.caches[s.threads[t].node].height)
  {
    hide TreeInv, RootInv;
    assert ThreadOk(s.pages, s.threads[t]) && ThreadStack(s, t);
    ActionKeepsInv(s, t, act);
    NoNullPage(Next(s, t, act));
  }

  /* ---- Runs ---- */

  lemma OthersStack(s: Sys, s': Sys, u: nat)
    requires Inv(s) && StackInv(s) && Evolves(s.pages, s'.pages) && Rises(s, s') && NULL !in s'.pages
    requires u < |s.threads| == |s'.threads| && s'.threads[u] == s.threads[u]
    ensures ThreadStack(s', u)
  {
    hide TreeInv, StackOk, Below, Evolves, ThreadOk;
    assert ThreadOk(s.pages, s.threads[u]) && ThreadStack(s, u);
    NoNullPage(s);
    var n := s.threads[u].node;
    if n < |s.caches| { StackStable(s.pages, s'.pages, s.threads[u], s.caches[n].height, s'.caches[n].height); }
  }

  lemma StepStack(s: Sys, s': Sys)
    requires Inv(s) && StackInv(s) && Step(s, s')
    ensures StackInv(s')
  {
    hide Inv, Enabled, Next, StackOk, Below, Evolves;
    StepKeepsInv(s, s');
    StepEvolves(s, s');
    StepHeights(s, s');
    NoNullPage(s');
    if t, act :| ThreadStep(s, s', t, act) {
      ActionStack(s, t, act);
      ActionNode(s, t, act);
      forall u {:trigger ThreadStack(s', u)} | 0 <= u < |s'.threads| ensures ThreadStack(s', u) {
        if u != t { OthersStack(s, s', u); }
      }
    } else {
      var n: nat :| NodeStep(s, s', n);
      forall u {:trigger ThreadStack(s', u)} | 0 <= u < |s'.threads|
        ensures ThreadStack(s', u)
      {
        OthersStack(s, s', u);
      }
    }
  }

  lemma {:induction false} RunStack(tr: seq<Sys>, i: nat)
    requires Run(tr) && i < |tr|
    ensures Inv(tr[i]) && StackInv(tr[i])
  {
    hide Inv, Step, StackOk, Below;
    ReachableIsSafe(tr, i);
    if i == 0 { InitStack(tr[0]); }
    else {
      RunStack(tr, i - 1);
      StepStack(tr[i - 1], tr[i]);
    }
  }

  lemma InitStack(s: Sys)
    requires Init(s)
    ensures StackInv(s)
  {
    forall t {:trigger ThreadStack(s, t)} | 0 <= t < |s.threads| ensures ThreadStack(s, t) {}
  }

  /* ---- Losing the logger ---- */

  /** A post gives up for good: it has turned right five times, the page ends at or before the separator, and no page is
      remembered above. */
  ghost predicate GivesUp(s: Sys, t: nat, act: Action) {
    && Enabled(s, t, act) && act.PutInternal?
    && var th := s.threads[t];
       && th.pc.origin.Nested? && th.turns == RETRIES + 1 && s.pages[th.pc.cur].highest <= th.pc.sep
       && th.pc.target + 1 !in th.path
  }

  /** An action under way drops the redo logger exactly when it gives up a post like that. */
  lemma LoggerLostIff(s: Sys, t: nat, act: Action)
    requires Inv(s) && StackInv(s) && Enabled(s, t, act) && !act.Begin?
    ensures Next(s, t, act).threads[t].logging == (s.threads[t].logging && !GivesUp(s, t, act))
  {
    hide TreeInv, RootInv, Linked, StoreIn, Placed, Route, Get, PageOk;
    assert ThreadOk(s.pages, s.threads[t]) && ThreadStack(s, t);
    if act.PutInternal? { LinkedPage(s.pages, s.threads[t].pc.cur); }
  }

  predicate UnderWay(pc: Pc) { !pc.Idle? && !pc.Answered? }

  /** Thread t has an operation under way, without a redo logger. */
  ghost predicate Silent(s: Sys, t: nat) {
    t < |s.threads| && UnderWay(s.threads[t].pc) && !s.threads[t].logging
  }

  /** In every run: an operation under way without a redo logger began without one, or has given up a post. */
  lemma {:induction false} WhyNoLogger(tr: seq<Sys>, j: nat, t: nat) returns (i: nat, act: Action)
    requires Run(tr) && j < |tr| && Silent(tr[j], t)
    ensures i < j && ThreadStep(tr[i], tr[i + 1], t, act) && forall l :: i < l <= j ==> Silent(tr[l], t)
    ensures (act.Begin? && !act.logging) || GivesUp(tr[i], t, act)
  {
    hide Init, Enabled, Next, StackInv, Inv, GivesUp;
    i, act := 0, Restart;
    if j == 0 { InitIdle(tr[0], t); return; }
    var s, s' := tr[j - 1], tr[j];
    RunStack(tr, j - 1);
    assert Step(s, s');
    if a :| ThreadStep(s, s', t, a) {
      FromUnderWay(s, t, a);
      if a.Begin? { i, act := j - 1, a; }
      else {
        LoggerLostIff(s, t, a);
        if s.threads[t].logging { i, act := j - 1, a; } else { i, act := WhyNoLogger(tr, j - 1, t); }
      }
    } else {
      if u: nat, a :| ThreadStep(s, s', u, a) { ActionNode(s, u, a); }
      i, act := WhyNoLogger(tr, j - 1, t);
    }
  }

  lemma InitIdle(s: Sys, t: nat)
    requires Init(s) && t < |s.threads|
    ensures !UnderWay(s.threads[t].pc)
  {}

  lemma FromUnderWay(s: Sys, t: nat, act: Action)
    requires Enabled(s, t, act)
    ensures t < |s.threads| && (act.Begin? ==> Next(s, t, act).threads[t].logging == act.logging)
    ensures !act.Begin? ==> UnderWay(s.threads[t].pc)
  {
    hide Linked;
  }
}
