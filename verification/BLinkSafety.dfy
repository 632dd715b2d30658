/** Every action of every thread keeps the invariant, so it holds in every reachable state. */
module BLinkSafety {
  import opened Options
  import opened Endian
  import opened BLinkPage
  import opened BLinkTree
  import opened BLinkMeaning
  import opened BLinkSystem

  /* ---- One page action: store, then split if that filled the page ---- */

  /** The new siblings an action leaves waiting. */
  function Made(q: Page, b: Addr): set<Addr> { if Full(q) then {b} else {} }

  lemma SplitKeepsNoneFull(ps: Pages, a: Addr, b: Addr)
    requires Linked(ps, a) && Full(ps[a]) && b !in ps && b != NULL
    requires forall x :: x in ps && x != a ==> !Full(ps[x])
    ensures NoneFull(Split(ps, a, b))
  {
    SplitPagesOk(ps[a], b);
  }

  lemma EvolvesTrans(ps: Pages, qs: Pages, rs: Pages)
    requires Evolves(ps, qs) && Evolves(qs, rs)
    ensures Evolves(ps, rs)
  {}

  lemma PutRowKeepsTree(ps: Pages, root: Addr, pend: set<Addr>, a: Addr, k: Key, row: Bytes, b: Addr)
    requires Tree(ps, root, pend) && NoneFull(ps) && Linked(ps, a) && ps[a].level == 0 && ps[a].Holds(k)
    requires b !in ps && b != NULL
    ensures var qs := Put(ps, a, k, Row(row), b);
            Tree(qs, root, pend + Made(StoreIn(ps[a], k, Row(row)), b)) && NoneFull(qs) && Evolves(ps, qs)
  {
    hide Tree, Linked, Evolves, PageOk, StoreIn, Split;
    LinkedPage(ps, a);
    var q := StoreIn(ps[a], k, Row(row));
    var qs := ps[a := q];
    StoreRowKeepsTree(ps, root, pend, a, k, row);
    if Full(q) {
      TreeIsLinked(qs, root, pend, a);
      SplitKeepsTree(qs, root, pend, a, b);
      SplitKeepsNoneFull(qs, a, b);
      EvolvesTrans(ps, qs, Split(qs, a, b));
    } else {
      assert pend + {} == pend;
    }
  }

  lemma PutChildKeepsTree(ps: Pages, root: Addr, pend: set<Addr>, a: Addr, c: Addr, b: Addr)
    requires Tree(ps, root, pend) && NoneFull(ps) && Linked(ps, a) && c in pend && ps[a].level == ps[c].level + 1
    requires ps[a].Holds(ps[c].lowest) && b !in ps && b != NULL
    ensures var qs := Put(ps, a, ps[c].lowest, Child(c), b);
            && Tree(qs, root, pend - {c} + Made(StoreIn(ps[a], ps[c].lowest, Child(c)), b))
            && NoneFull(qs) && Evolves(ps, qs)
  {
    hide Tree, Linked, Evolves, PageOk, StoreIn, Split;
    LinkedPage(ps, a);
    WaitingIsPage(ps, root, pend, c);
    var q := StoreIn(ps[a], ps[c].lowest, Child(c));
    var qs := ps[a := q];
    StoreChildKeepsTree(ps, root, pend, a, c);
    if Full(q) {
      TreeIsLinked(qs, root, pend - {c}, a);
      SplitKeepsTree(qs, root, pend - {c}, a, b);
      SplitKeepsNoneFull(qs, a, b);
      EvolvesTrans(ps, qs, Split(qs, a, b));
    } else {
      assert pend - {c} + {} == pend - {c};
    }
  }

  /** The abstract map after an insert action: one key changed. */
  lemma PutRowView(ps: Pages, root: Addr, pend: set<Addr>, a: Addr, k: Key, row: Bytes, b: Addr, x: Key)
    requires Tree(ps, root, pend) && NoneFull(ps) && Linked(ps, a) && ps[a].level == 0 && ps[a].Holds(k)
    requires b !in ps && b != NULL && MIN_KEY <= x < MAX_KEY
    ensures var qs := Put(ps, a, k, Row(row), b);
            AllLinked(qs) && RootOnTop(qs, root) && View(qs, root, x) == if x == k then Some(row) else View(ps, root, x)
  {
    hide Tree, Linked, Evolves, PageOk, StoreIn, Split, View, Full, AllLinked, RootOnTop;
    LinkedPage(ps, a);
    PutRowKeepsTree(ps, root, pend, a, k, row, b);
    StoreRowView(ps, root, pend, a, k, row, x);
    var qs := ps[a := StoreIn(ps[a], k, Row(row))];
    if Full(qs[a]) {
      assert Tree(qs, root, pend) by { StoreRowKeepsTree(ps, root, pend, a, k, row); }
      TreeIsLinked(qs, root, pend, a);
      SplitView(qs, root, pend, a, b, x);
    }
  }

  lemma PutTouchesOnePage(ps: Pages, a: Addr, k: Key, v: Val, b: Addr)
    requires Linked(ps, a) && b !in ps
    ensures forall x :: x in ps && x != a ==> x in Put(ps, a, k, v, b) && Put(ps, a, k, v, b)[x] == ps[x]
  {}

  /** The abstract map after a separator post: unchanged. */
  lemma PutChildView(ps: Pages, root: Addr, pend: set<Addr>, a: Addr, c: Addr, b: Addr, x: Key)
    requires Tree(ps, root, pend) && NoneFull(ps) && Linked(ps, a) && c in pend && ps[a].level == ps[c].level + 1
    requires ps[a].Holds(ps[c].lowest) && b !in ps && b != NULL && MIN_KEY <= x < MAX_KEY
    ensures var qs := Put(ps, a, ps[c].lowest, Child(c), b);
            AllLinked(qs) && RootOnTop(qs, root) && View(qs, root, x) == View(ps, root, x)
  {
    var qs := Put(ps, a, ps[c].lowest, Child(c), b);
    PutTouchesOnePage(ps, a, ps[c].lowest, Child(c), b);
    assert Tree(qs, root, pend - {c} + Made(StoreIn(ps[a], ps[c].lowest, Child(c)), b)) by {
      PutChildKeepsTree(ps, root, pend, a, c, b);
    }
    ViewStable(ps, root, qs, root, x);
  }

  /* ---- Other threads ---- */

  lemma ThreadStable(ps: Pages, qs: Pages, th: Thread)
    requires Evolves(ps, qs) && ThreadOk(ps, th)
    ensures ThreadOk(qs, th)
  {}

  lemma ThreadsStable(ps: Pages, qs: Pages, ths: seq<Thread>, t: nat, th: Thread)
    requires ThreadsInv(ps, ths) && Evolves(ps, qs) && t < |ths| && ThreadOk(qs, th)
    ensures ThreadsInv(qs, ths[t := th])
  {
    forall u | 0 <= u < |ths| && u != t ensures ThreadOk(qs, ths[u]) {
      ThreadStable(ps, qs, ths[u]);
    }
  }

  function Opt(o: Option<Addr>): set<Addr> { if o.Some? then {o.value} else {} }

  lemma PendUpdate(ths: seq<Thread>, t: nat, th: Thread)
    requires OneOwner(ths) && t < |ths|
    requires PendOf(th.pc).Some? && PendOf(th.pc) != PendOf(ths[t].pc) ==> PendOf(th.pc).value !in Pend(ths)
    ensures Pend(ths[t := th]) == Pend(ths) - Opt(PendOf(ths[t].pc)) + Opt(PendOf(th.pc))
    ensures OneOwner(ths[t := th])
  {
    var us := ths[t := th];
    var o, n := PendOf(ths[t].pc), PendOf(th.pc);
    forall c ensures c in Pend(us) <==> c in Pend(ths) - Opt(o) + Opt(n) {
      if c in Pend(us) {
        var u :| 0 <= u < |us| && PendOf(us[u].pc) == Some(c);
        if u != t { assert Owns(ths, u, c); if o == Some(c) { assert Owns(ths, t, c); } }
      }
      if c in Pend(ths) - Opt(o) {
        var u :| 0 <= u < |ths| && PendOf(ths[u].pc) == Some(c);
        assert PendOf(us[u].pc) == Some(c);
      }
      if n == Some(c) { assert PendOf(us[t].pc) == Some(c); }
    }
    forall u, w, c | Owns(us, u, c) && Owns(us, w, c) ensures u == w {
      if u != t && w != t { assert Owns(ths, u, c) && Owns(ths, w, c); }
      else if u != w {
        var x := if u == t then w else u;
        assert Owns(ths, x, c) && c in Pend(ths);
        assert Owns(ths, t, c);
      }
    }
  }

  /* ---- Actions outside the root locks ---- */

  lemma PendingIsInTree(s: Sys, t: nat)
    requires t < |s.threads| && PendOf(s.threads[t].pc).Some?
    ensures PendOf(s.threads[t].pc).value in Pend(s.threads)
  {}

  lemma RootStable(s: Sys, t: nat, qs: Pages, th: Thread)
    requires RootInv(s) && t < |s.threads| && Evolves(s.pages, qs) && th.node == s.threads[t].node
    requires !HoldsMutex(s.threads[t].pc) && !HoldsMutex(th.pc)
    ensures RootInv(s.(pages := qs, threads := s.threads[t := th]))
  {
    var s' := s.(pages := qs, threads := s.threads[t := th]);
    assert Swinging(s') <==> Swinging(s);
  }

  /** An action that changes at most one thread and the pages, outside the root locks. */
  lemma PageStep(s: Sys, t: nat, qs: Pages, th: Thread)
    requires Inv(s) && t < |s.threads| && Evolves(s.pages, qs) && th.node == s.threads[t].node
    requires !HoldsMutex(s.threads[t].pc) && !HoldsMutex(th.pc)
    requires ThreadOk(qs, th) && NoneFull(qs)
    requires PendOf(th.pc).Some? && PendOf(th.pc) != PendOf(s.threads[t].pc) ==> PendOf(th.pc).value !in Pend(s.threads)
    requires Tree(qs, s.top, Pend(s.threads) - Opt(PendOf(s.threads[t].pc)) + Opt(PendOf(th.pc)))
    ensures Inv(s.(pages := qs, threads := s.threads[t := th]))
  {
    var s' := s.(pages := qs, threads := s.threads[t := th]);
    PendUpdate(s.threads, t, th);
    RootStable(s, t, qs, th);
    ThreadsStable(s.pages, qs, s.threads, t, th);
  }

  lemma LocalStep(s: Sys, t: nat, th: Thread)
    requires Inv(s) && t < |s.threads| && th.node == s.threads[t].node
    requires !HoldsMutex(s.threads[t].pc) && !HoldsMutex(th.pc)
    requires ThreadOk(s.pages, th) && PendOf(th.pc) == PendOf(s.threads[t].pc)
    ensures Inv(s.(threads := s.threads[t := th]))
  {
    if PendOf(th.pc).Some? { PendingIsInTree(s, t); }
    assert Pend(s.threads) - Opt(PendOf(s.threads[t].pc)) + Opt(PendOf(th.pc)) == Pend(s.threads);
    PageStep(s, t, s.pages, th);
    assert s.(pages := s.pages, threads := s.threads[t := th]) == s.(threads := s.threads[t := th]);
  }

  lemma VisitOk(ps: Pages, th: Thread, a: Addr)
    requires PathOk(ps, th.path) && a in ps
    ensures PathOk(ps, Visit(th, ps[a], a).path)
  {}

  /** internal_page_search never takes an insert or a search to a page that starts after its key. */
  lemma AfterReadOk(ps: Pages, th: Thread)
    requires AllLinked(ps) && th.pc.Search? && Linked(ps, th.pc.cur) && ThreadOk(ps, th)
    ensures ThreadOk(ps, AfterRead(th, ps[th.pc.cur], th.pc.cur))
    ensures PendOf(AfterRead(th, ps[th.pc.cur], th.pc.cur).pc) == PendOf(th.pc)
  {
    hide Upper, PageOk;
    var a := th.pc.cur;
    VisitOk(ps, th, a);
    if ps[a].level > 0 && ps[a].Holds(th.pc.k) { RouteFollowsRange(ps, ps[a], th.pc.k); }
  }

  lemma RightMove(ps: Pages, a: Addr, k: Key)
    requires Linked(ps, a) && ps[a].highest <= k < MAX_KEY
    ensures ps[a].sibling in ps && ps[ps[a].sibling].level == ps[a].level && ps[ps[a].sibling].lowest <= k
  {}

  lemma AfterReadLeafOk(ps: Pages, th: Thread)
    requires th.pc.AtLeaf? && Linked(ps, th.pc.cur) && ThreadOk(ps, th)
    ensures ThreadOk(ps, AfterReadLeaf(th, ps[th.pc.cur], th.pc.cur))
  {
    VisitOk(ps, th, th.pc.cur);
    if th.pc.k >= ps[th.pc.cur].highest { RightMove(ps, th.pc.cur, th.pc.k); }
  }

  lemma AfterReadProbeOk(ps: Pages, th: Thread)
    requires th.pc.Probe? && Linked(ps, th.pc.cur) && ThreadOk(ps, th)
    ensures ThreadOk(ps, AfterReadProbe(th, ps[th.pc.cur], th.pc.cur))
  {
    var a := th.pc.cur;
    VisitOk(ps, th, a);
    if th.pc.probe >= ps[a].highest { RightMove(ps, a, th.pc.probe); }
    else if ps[a].Holds(th.pc.probe) { RouteFollowsRange(ps, ps[a], th.pc.probe); }
  }

  predicate IsLocal(act: Action) {
    || act.Begin? || act.Restart? || act.FallBack? || act.PostHere? || act.Read? || act.ReadLeaf?
    || act.ReadProbe?
  }

  lemma ReadKeepsInv(s: Sys, t: nat)
    requires Inv(s) && Enabled(s, t, Read)
    ensures Inv(Next(s, t, Read))
  {
    var th := s.threads[t];
    assert ThreadOk(s.pages, th);
    AfterReadOk(s.pages, th);
    LocalStep(s, t, AfterRead(th, s.pages[th.pc.cur], th.pc.cur));
  }

  lemma ReadLeafKeepsInv(s: Sys, t: nat)
    requires Inv(s) && Enabled(s, t, ReadLeaf)
    ensures Inv(Next(s, t, ReadLeaf))
  {
    var th := s.threads[t];
    assert ThreadOk(s.pages, th);
    AfterReadLeafOk(s.pages, th);
    LocalStep(s, t, AfterReadLeaf(th, s.pages[th.pc.cur], th.pc.cur));
  }

  lemma ReadProbeKeepsInv(s: Sys, t: nat)
    requires Inv(s) && Enabled(s, t, ReadProbe)
    ensures Inv(Next(s, t, ReadProbe))
  {
    hide Tree, NoneFull, OneOwner, RootInv, Route, Upper;
    var th := s.threads[t];
    assert ThreadOk(s.pages, th);
    AfterReadProbeOk(s.pages, th);
    LocalStep(s, t, AfterReadProbe(th, s.pages[th.pc.cur], th.pc.cur));
  }

  /** Going back up, or posting at the page at hand, after that page was recorded. */
  lemma RecordedOk(s: Sys, t: nat, act: Action)
    requires ThreadsInv(s.pages, s.threads) && NULL !in s.pages && Enabled(s, t, act) &&
             (act.FallBack? || act.PostHere?)
    ensures var th := Next(s, t, act).threads[t];
            && ThreadOk(s.pages, th) && PendOf(th.pc) == PendOf(s.threads[t].pc)
            && !HoldsMutex(th.pc) && th.node == s.threads[t].node
  {
    assert ThreadOk(s.pages, s.threads[t]);
    VisitOk(s.pages, s.threads[t], s.threads[t].pc.cur);
  }

  lemma LocalThreadOk(s: Sys, t: nat, act: Action)
    requires ThreadsInv(s.pages, s.threads) && RootInv(s) && Enabled(s, t, act) && IsLocal(act)
    requires !act.Read? && !act.ReadLeaf? && !act.ReadProbe? && !act.FallBack? && !act.PostHere?
    ensures var th := Next(s, t, act).threads[t];
            && ThreadOk(s.pages, th) && PendOf(th.pc) == PendOf(s.threads[t].pc)
            && !HoldsMutex(th.pc) && th.node == s.threads[t].node
  {
    hide LocksOk, HeightsOk, Swinging;
    assert ThreadOk(s.pages, s.threads[t]);
    assert CacheOk(s.pages, s.caches[s.threads[t].node]);
  }

  /** Searching, restarting, falling back and giving up keep the invariant. */
  lemma LocalKeepsInv(s: Sys, t: nat, act: Action)
    requires Inv(s) && Enabled(s, t, act) && IsLocal(act)
    ensures Inv(Next(s, t, act))
  {
    if act.Read? { ReadKeepsInv(s, t); }
    else if act.ReadLeaf? { ReadLeafKeepsInv(s, t); }
    else if act.ReadProbe? { ReadProbeKeepsInv(s, t); }
    else {
      TreeHasNoNull(s.pages, s.top, Pend(s.threads));
      if act.FallBack? || act.PostHere? { RecordedOk(s, t, act); } else { LocalThreadOk(s, t, act); }
      LocalStep(s, t, Next(s, t, act).threads[t]);
    }
  }

  /* ---- Stores ---- */

  lemma AfterSplitOk(ps: Pages, qs: Pages, th: Thread, sep: Key, b: Addr, level: nat, probe: Key)
    requires Evolves(ps, qs) && PathOk(ps, th.path) && level in th.path
    requires Waiting(qs, b, level + 1, sep) && MIN_KEY <= probe < MAX_KEY
    ensures var th' := AfterSplit(th, sep, b, level, probe);
            ThreadOk(qs, th') && !HoldsMutex(th'.pc) && th'.node == th.node && PendOf(th'.pc) == Some(b)
  {}

  lemma SplitLeavesWaiting(ps: Pages, a: Addr, q: Page, b: Addr)
    requires PageOk(q) && Full(q) && b != NULL
    ensures Waiting(Placed(ps, a, q, b), b, q.level + 1, MidKey(q))
  {
    SplitPagesOk(q, b);
  }

  /** The thread after a store: done, or left with the new sibling to post at the level above. */
  lemma AfterPutOk(ps: Pages, th: Thread, a: Addr, q: Page, b: Addr, probe: Key)
    requires |q.keys| == |q.vals| && Evolves(ps, Placed(ps, a, q, b)) && PathOk(ps, th.path) && q.level in th.path
    requires Full(q) ==> Waiting(Placed(ps, a, q, b), b, q.level + 1, MidKey(q))
    requires MIN_KEY <= probe < MAX_KEY
    ensures var th' := AfterPut(th, q, b, probe);
            && ThreadOk(Placed(ps, a, q, b), th') && !HoldsMutex(th'.pc) && th'.node == th.node
            && Opt(PendOf(th'.pc)) == Made(q, b)
  {
    var qs := Placed(ps, a, q, b);
    if Full(q) {
      AfterSplitOk(ps, qs, th, MidKey(q), b, q.level, if q.level == 0 then probe else MidKey(q));
    } else {
      assert PathOk(qs, th.path);
    }
  }

  lemma PendIsOld(s: Sys, b: Addr)
    requires TreeInv(s.pages, s.top, s.threads) && b !in s.pages
    ensures b !in Pend(s.threads)
  {}

  /** A store inside the tree, with its split, moves a thread on and keeps the invariant. */
  lemma StoreStep(s: Sys, t: nat, a: Addr, q: Page, b: Addr, probe: Key, th: Thread)
    requires Inv(s) && t < |s.threads| && !HoldsMutex(s.threads[t].pc) && b !in s.pages && b != NULL
    requires PageOk(q) && Evolves(s.pages, Placed(s.pages, a, q, b)) && NoneFull(Placed(s.pages, a, q, b))
    requires Tree(Placed(s.pages, a, q, b), s.top, Pend(s.threads) - Opt(PendOf(s.threads[t].pc)) + Made(q, b))
    requires PathOk(s.pages, th.path) && q.level in th.path && th.node == s.threads[t].node &&
             MIN_KEY <= probe < MAX_KEY
    ensures Inv(s.(pages := Placed(s.pages, a, q, b), threads := s.threads[t := AfterPut(th, q, b, probe)]))
  {
    if Full(q) { SplitLeavesWaiting(s.pages, a, q, b); }
    AfterPutOk(s.pages, th, a, q, b, probe);
    PendIsOld(s, b);
    PageStep(s, t, Placed(s.pages, a, q, b), AfterPut(th, q, b, probe));
  }

  lemma NextPutLeaf(s: Sys, t: nat, b: Addr)
    requires Enabled(s, t, PutLeaf(b)) && s.pages[s.threads[t].pc.cur].Holds(s.threads[t].pc.k)
    ensures var ps, th := s.pages, s.threads[t];
            var a := th.pc.cur;
            var q := StoreIn(ps[a], th.pc.k, Row(th.pc.goal.row));
            && Next(s, t, PutLeaf(b)) ==
                 s.(pages := Placed(ps, a, q, b),
                    threads := s.threads[t := AfterPut(Reset(Visit(th, ps[a], a)), q, b, th.pc.k)])
            && q.level == ps[a].level
  {
    LinkedPage(s.pages, s.threads[t].pc.cur);
    hide PageOk, Linked, Placed, Full, Upper;
  }

  lemma NextPutInternal(s: Sys, t: nat, b: Addr)
    requires Enabled(s, t, PutInternal(b)) && s.pages[s.threads[t].pc.cur].Holds(s.threads[t].pc.sep)
    ensures var ps, th := s.pages, s.threads[t];
            var a := th.pc.cur;
            var q := StoreIn(ps[a], th.pc.sep, Child(th.pc.child));
            && Next(s, t, PutInternal(b)) ==
                 s.(pages := Placed(ps, a, q, b),
                    threads := s.threads[t := AfterPut(Reset(Visit(th, ps[a], a)), q, b, th.pc.sep)])
            && q.level == ps[a].level
  {
    LinkedPage(s.pages, s.threads[t].pc.cur);
    hide PageOk, Linked, Placed, Full, Upper;
  }

  lemma LeafStored(s: Sys, t: nat, b: Addr)
    requires Enabled(s, t, PutLeaf(b)) && s.pages[s.threads[t].pc.cur].Holds(s.threads[t].pc.k) && Inv(s)
    ensures Inv(Next(s, t, PutLeaf(b)))
  {
    hide Tree, OneOwner, RootInv, Evolves, PageOk, Linked, Split, Full, Covers, Next, StoreIn, AfterPut;
    var ps, pend, th := s.pages, Pend(s.threads), s.threads[t];
    var a, k, row := th.pc.cur, th.pc.k, th.pc.goal.row;
    LinkedPage(ps, a);
    var q := StoreIn(ps[a], k, Row(row));
    assert ThreadOk(ps, th);
    VisitOk(ps, th, a);
    assert Tree(Placed(ps, a, q, b), s.top, pend + Made(q, b)) && NoneFull(Placed(ps, a, q, b)) &&
           Evolves(ps, Placed(ps, a, q, b)) by {
      PutRowKeepsTree(ps, s.top, pend, a, k, row, b);
    }
    assert pend - {} == pend;
    assert PageOk(q) by { StoredPageOk(ps[a], k, Row(row)); }
    NextPutLeaf(s, t, b);
    StoreStep(s, t, a, q, b, k, Reset(Visit(th, ps[a], a)));
  }

  /** leaf_page_store keeps the invariant. */
  lemma PutLeafKeepsInv(s: Sys, t: nat, b: Addr)
    requires Inv(s) && Enabled(s, t, PutLeaf(b))
    ensures Inv(Next(s, t, PutLeaf(b)))
  {
    hide Tree, NoneFull, OneOwner, RootInv, StoreIn, Split;
    var ps, th := s.pages, s.threads[t];
    var a, k := th.pc.cur, th.pc.k;
    assert ThreadOk(ps, th);
    VisitOk(ps, th, a);
    if ps[a].Holds(k) { LeafStored(s, t, b); }
    else {
      if k >= ps[a].highest { RightMove(ps, a, k); }
      LocalStep(s, t, AfterPutLeaf(th, ps[a], a, b));
    }
  }

  lemma MissedOk(ps: Pages, th: Thread)
    requires th.pc.Post? && ThreadOk(ps, th)
    ensures ThreadOk(ps, Missed(th)) && PendOf(Missed(th).pc) == PendOf(th.pc) && !HoldsMutex(Missed(th).pc)
  {}

  lemma SeparatorStored(s: Sys, t: nat, b: Addr)
    requires Enabled(s, t, PutInternal(b)) && s.pages[s.threads[t].pc.cur].Holds(s.threads[t].pc.sep) && Inv(s)
    ensures Inv(Next(s, t, PutInternal(b)))
  {
    hide Tree, OneOwner, RootInv, Evolves, PageOk, Linked, Split, Full, Covers, Next, StoreIn, AfterPut;
    var ps, pend, th := s.pages, Pend(s.threads), s.threads[t];
    var a, k, c := th.pc.cur, th.pc.sep, th.pc.child;
    LinkedPage(ps, a);
    var q := StoreIn(ps[a], k, Child(c));
    assert ThreadOk(ps, th);
    VisitOk(ps, th, a);
    PendingIsInTree(s, t);
    assert Tree(Placed(ps, a, q, b), s.top, pend - {c} + Made(q, b)) && NoneFull(Placed(ps, a, q, b)) &&
           Evolves(ps, Placed(ps, a, q, b)) by {
      PutChildKeepsTree(ps, s.top, pend, a, c, b);
    }
    assert PageOk(q) by {
      SeparatorIsNew(ps, s.top, pend, a, c);
      StoredPageOk(ps[a], k, Child(c));
    }
    NextPutInternal(s, t, b);
    StoreStep(s, t, a, q, b, k, Reset(Visit(th, ps[a], a)));
  }

  /** internal_page_store keeps the invariant. */
  lemma PutInternalKeepsInv(s: Sys, t: nat, b: Addr)
    requires Inv(s) && Enabled(s, t, PutInternal(b))
    ensures Inv(Next(s, t, PutInternal(b)))
  {
    hide Tree, NoneFull, OneOwner, RootInv, StoreIn, Split;
    var ps, th := s.pages, s.threads[t];
    var a, k := th.pc.cur, th.pc.sep;
    assert ThreadOk(ps, th);
    VisitOk(ps, th, a);
    if ps[a].Holds(k) {
      PendingIsInTree(s, t);
      SeparatorStored(s, t, b);
    } else {
      if k >= ps[a].highest { RightMove(ps, a, k); }
      MissedOk(ps, Reset(Visit(th, ps[a], a)));
      LocalStep(s, t, AfterPutInternal(th, ps[a], a, b));
    }
  }
}
