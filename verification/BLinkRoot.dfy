/** Growing the tree under the root locks, and the theorems about every run. */
module BLinkRoot {
  import opened Options
  import opened BLinkPage
  import opened BLinkTree
  import opened BLinkSystem
  import opened BLinkSafety

  /* ---- Root actions that leave the pages alone ---- */

  lemma RefetchedOk(s: Sys, c: Cache)
    requires EntryOk(s) && CacheOk(s.pages, c) && NULL !in s.pages
    ensures var c' := Refetched(s, c);
            CacheOk(s.pages, c') && c'.gRoot == s.entry && c'.height == s.pages[s.entry].level && c'.mtx == c.mtx
  {}

  /** A root action: one thread and its node's cache change, the pages do not. */
  lemma RootStep(s: Sys, t: nat, s': Sys)
    requires Inv(s) && t < |s.threads| && s'.pages == s.pages && s'.top == s.top && |s'.threads| == |s.threads|
    requires s'.threads == s.threads[t := s'.threads[t]] && ThreadOk(s.pages, s'.threads[t])
    requires PendOf(s'.threads[t].pc) == PendOf(s.threads[t].pc)
    requires RootInv(s')
    ensures Inv(s')
  {
    hide Tree, NoneFull, OneOwner, RootInv;
    PendUpdate(s.threads, t, s'.threads[t]);
    if PendOf(s.threads[t].pc).Some? { PendingIsInTree(s, t); }
    assert Pend(s'.threads) == Pend(s.threads);
  }

  /** Only the acting thread takes or drops a root lock. */
  lemma LocksStep(s: Sys, t: nat, s': Sys)
    requires LocksOk(s) && t < |s.threads| && |s'.threads| == |s.threads| && s'.threads == s.threads[t := s'.threads[t]]
    requires s'.threads[t].node == s.threads[t].node
    requires var n := s.threads[t].node;
             && n < |s.caches| && |s'.caches| == |s.caches| && s'.caches == s.caches[n := s'.caches[n]]
             && (s'.caches[n].mtx == s.caches[n].mtx || {s.caches[n].mtx, s'.caches[n].mtx} <= {None, Some(t)})
             && (HoldsMutex(s'.threads[t].pc) <==> s'.caches[n].mtx == Some(t))
    requires s'.lock == s.lock || {s.lock, s'.lock} <= {None, Some(t)}
    requires HoldsLock(s'.threads[t].pc) <==> s'.lock == Some(t)
    ensures LocksOk(s')
  {}

  lemma GrowCheckLocks(s: Sys, t: nat)
    requires LocksOk(s) && Enabled(s, t, GrowCheck)
    ensures LocksOk(Next(s, t, GrowCheck))
  {
    LocksStep(s, t, Next(s, t, GrowCheck));
  }

  lemma GrowCheckRoot(s: Sys, t: nat)
    requires RootInv(s) && Enabled(s, t, GrowCheck) && NULL !in s.pages
    ensures RootInv(Next(s, t, GrowCheck))
  {
    hide LocksOk;
    var s' := Next(s, t, GrowCheck);
    assert CacheOk(s.pages, s.caches[s.threads[t].node]);
    RefetchedOk(s, s.caches[s.threads[t].node]);
    GrowCheckLocks(s, t);
    assert Swinging(s') <==> Swinging(s);
  }

  lemma GrowLockRoot(s: Sys, t: nat)
    requires RootInv(s) && Enabled(s, t, GrowLock)
    ensures RootInv(Next(s, t, GrowLock))
  {
    var s' := Next(s, t, GrowLock);
    LocksStep(s, t, s');
    assert !Swinging(s') && !Swinging(s);
  }

  lemma GrowRecheckRoot(s: Sys, t: nat)
    requires RootInv(s) && Enabled(s, t, GrowRecheck) && NULL !in s.pages
    ensures RootInv(Next(s, t, GrowRecheck))
  {
    var s' := Next(s, t, GrowRecheck);
    assert CacheOk(s.pages, s.caches[s.threads[t].node]);
    RefetchedOk(s, s.caches[s.threads[t].node]);
    LocksStep(s, t, s');
    assert !Swinging(s') && !Swinging(s);
  }

  lemma GrowThreadOk(s: Sys, t: nat, act: Action)
    requires Enabled(s, t, act) && (act.GrowCheck? || act.GrowLock? || act.GrowRecheck?) &&
             ThreadOk(s.pages, s.threads[t])
    ensures var s' := Next(s, t, act);
            && ThreadOk(s.pages, s'.threads[t]) && PendOf(s'.threads[t].pc) == PendOf(s.threads[t].pc)
            && s'.threads == s.threads[t := s'.threads[t]] && s'.pages == s.pages && s'.top == s.top
  {
    hide PathOk, Linked;
  }

  /** The local check goes by the node's own view of the root, stale or not; only a lost pointer makes it look at the
      index entry. A thread whose split page is no longer the root there inserts its separator top down. */
  lemma GrowCheckIsLocal(s: Sys, t: nat)
    requires Enabled(s, t, GrowCheck)
    ensures var th, s' := s.threads[t], Next(s, t, GrowCheck);
            var c := s.caches[th.node];
            var lost := c.gRoot == NULL;
            var root := if lost then s.entry else c.gRoot;
            var height := if lost && c.handle != s.entry then s.pages[s.entry].level else c.height;
            var sure := th.pc.level in th.path && th.path[th.pc.level] == root && height == th.pc.level;
            && s'.threads[t].pc == (if sure then Grow(th.pc.sep, th.pc.child, th.pc.level, WantLock)
                                    else Search(th.pc.sep, Publish(th.pc.child, th.pc.level + 1), NULL))
            && s'.caches[th.node].gRoot == root && s'.caches[th.node].height == height
            && (s'.caches[th.node].mtx == if sure then Some(t) else c.mtx)
            && s'.pages == s.pages && s'.entry == s.entry && s'.lock == s.lock
  {
    hide Linked;
  }

  /** The second check, under both locks, goes by the index entry. */
  lemma GrowRecheckIsGlobal(s: Sys, t: nat)
    requires Enabled(s, t, GrowRecheck)
    ensures var th, s' := s.threads[t], Next(s, t, GrowRecheck);
            var c := s.caches[th.node];
            var height := if c.handle == s.entry then c.height else s.pages[s.entry].level;
            var sure := th.pc.level in th.path && th.path[th.pc.level] == s.entry && height == th.pc.level;
            && s'.threads[t].pc == (if sure then Grow(th.pc.sep, th.pc.child, th.pc.level, Build)
                                    else Search(th.pc.sep, Publish(th.pc.child, th.pc.level + 1), NULL))
            && s'.caches[th.node].gRoot == s.entry && (!sure ==> s'.lock.None? && s'.caches[th.node].mtx.None?)
            && (sure ==> s'.lock == s.lock && s'.caches[th.node].mtx == c.mtx) && s'.pages == s.pages
  {
    hide Linked;
  }

  lemma GrowWaits(s: Sys, t: nat, act: Action)
    requires Inv(s) && Enabled(s, t, act) && (act.GrowCheck? || act.GrowLock? || act.GrowRecheck?)
    ensures Inv(Next(s, t, act))
  {
    GrowThreadOk(s, t, act);
    match act {
      case GrowCheck => GrowCheckRoot(s, t);
      case GrowLock => GrowLockRoot(s, t);
      case GrowRecheck => GrowRecheckRoot(s, t);
    }
    RootStep(s, t, Next(s, t, act));
  }

  /* ---- Building the new root and swinging the index entry ---- */

  lemma GrowBuildRoot(s: Sys, t: nat, r: Addr)
    requires RootInv(s) && Enabled(s, t, GrowBuild(r))
    ensures RootInv(Next(s, t, GrowBuild(r)))
    ensures s.entry == s.top == s.threads[t].path[s.threads[t].pc.level]
    ensures s.pages[s.top].level == s.threads[t].pc.level
  {
    var s' := Next(s, t, GrowBuild(r));
    LocksStep(s, t, s');
    assert s.lock == Some(t) && !Swinging(s) && Swinging(s');
  }

  lemma NewRootNotFull(ps: Pages, r: Addr, left: Addr, k: Key, c: Addr, level: nat)
    requires NoneFull(ps) && level > 0
    ensures NoneFull(ps[r := NewRoot(left, k, c, level)])
  {}

  lemma GrowBuildTree(ps: Pages, top: Addr, ths: seq<Thread>, t: nat, c: Addr, r: Addr, th: Thread)
    requires TreeInv(ps, top, ths) && t < |ths| && r !in ps && r != NULL
    requires PendOf(ths[t].pc) == Some(c) && PendOf(th.pc).None?
    requires c in ps && ps[c].level == ps[top].level
    ensures var qs := ps[r := NewRoot(top, ps[c].lowest, c, ps[top].level + 1)];
            TreeInv(qs, r, ths[t := th]) && Evolves(ps, qs)
  {
    assert c in Pend(ths);
    NewRootKeepsTree(ps, top, Pend(ths), c, r);
    NewRootNotFull(ps, r, top, ps[c].lowest, c, ps[top].level + 1);
    PendUpdate(ths, t, th);
    assert Pend(ths[t := th]) == Pend(ths) - {c};
  }

  lemma PathStable(ps: Pages, qs: Pages, path: map<nat, Addr>)
    requires PathOk(ps, path) && Evolves(ps, qs)
    ensures PathOk(qs, path)
  {}

  lemma GrowBuildKeepsInv(s: Sys, t: nat, r: Addr)
    requires Inv(s) && Enabled(s, t, GrowBuild(r))
    ensures Inv(Next(s, t, GrowBuild(r)))
  {
    hide Tree, NoneFull, OneOwner, RootInv, Evolves, PathOk;
    var th, s' := s.threads[t], Next(s, t, GrowBuild(r));
    assert ThreadOk(s.pages, th);
    assert RootInv(s') && s.top == th.path[th.pc.level] && s.pages[s.top].level == th.pc.level by {
      GrowBuildRoot(s, t, r);
    }
    assert TreeInv(s'.pages, s'.top, s'.threads) && Evolves(s.pages, s'.pages) by {
      GrowBuildTree(s.pages, s.top, s.threads, t, th.pc.child, r, s'.threads[t]);
    }
    PathStable(s.pages, s'.pages, th.path);
    ThreadsStable(s.pages, s'.pages, s.threads, t, s'.threads[t]);
  }

  /** The compare-and-swap of update_new_root always finds the old root, and the new one is one level higher. */
  lemma RootCasSucceeds(s: Sys, t: nat)
    requires Inv(s) && Enabled(s, t, GrowCas)
    ensures s.threads[t].pc.Grow? && s.threads[t].pc.phase.Cas?
    ensures var ph := s.threads[t].pc.phase;
            && s.entry == ph.oldRoot && Next(s, t, GrowCas).entry == ph.newRoot
            && s.entry in s.pages && ph.newRoot in s.pages
            && s.pages[ph.newRoot].level == s.pages[s.entry].level + 1 && s.pages[ph.newRoot].lowest == MIN_KEY
  {
    assert s.lock == Some(t);
  }

  lemma GrowCasRoot(s: Sys, t: nat)
    requires RootInv(s) && Enabled(s, t, GrowCas) && ThreadOk(s.pages, s.threads[t]) && RootOnTop(s.pages, s.top)
    ensures RootInv(Next(s, t, GrowCas))
  {
    var s' := Next(s, t, GrowCas);
    LocksStep(s, t, s');
    assert s.lock == Some(t) && Swinging(s) && !Swinging(s');
    assert CacheOk(s.pages, s.caches[s.threads[t].node]);
  }

  lemma GrowCasKeepsInv(s: Sys, t: nat)
    requires Inv(s) && Enabled(s, t, GrowCas)
    ensures Inv(Next(s, t, GrowCas))
  {
    assert ThreadOk(s.pages, s.threads[t]);
    GrowCasRoot(s, t);
    RootStep(s, t, Next(s, t, GrowCas));
  }

  lemma NodeActionsKeepInv(s: Sys, n: nat)
    requires Inv(s) && n < |s.caches|
    ensures Inv(Invalidated(s, n))
    ensures s.caches[n].mtx.None? ==> Inv(RootRefetched(s, n))
  {
    hide Tree, NoneFull, OneOwner, ThreadsInv;
    assert Swinging(Invalidated(s, n)) <==> Swinging(s);
    if s.caches[n].mtx.None? {
      assert NULL !in s.pages by { TreeHasNoNull(s.pages, s.top, Pend(s.threads)); }
      RefetchedOk(s, s.caches[n]);
      assert Swinging(RootRefetched(s, n)) <==> Swinging(s);
    }
  }

  /** Every action of every thread keeps the invariant. */
  lemma ActionKeepsInv(s: Sys, t: nat, act: Action)
    requires Inv(s) && Enabled(s, t, act)
    ensures Inv(Next(s, t, act))
  {
    if IsLocal(act) { LocalKeepsInv(s, t, act); }
    else if act.PutLeaf? { PutLeafKeepsInv(s, t, act.spare); }
    else if act.PutInternal? { PutInternalKeepsInv(s, t, act.spare); }
    else if act.GrowBuild? { GrowBuildKeepsInv(s, t, act.spare); }
    else if act.GrowCas? { GrowCasKeepsInv(s, t); }
    else { GrowWaits(s, t, act); }
  }
}
