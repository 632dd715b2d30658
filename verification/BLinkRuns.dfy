/** Every run of the system: what its states satisfy, what each action means, and what searches answer. */
module BLinkRuns {
  import opened Options
  import opened Endian
  import opened BLinkPage
  import opened BLinkTree
  import opened BLinkMeaning
  import opened BLinkSystem
  import opened BLinkSafety
  import opened BLinkRoot

  /** A fresh tree: one empty leaf that the index entry names; node 0 has it cached; every thread is idle. */
  ghost predicate Init(s: Sys) {
    && s.entry != NULL && s.top == s.entry && s.lock.None?
    && s.pages == map[s.entry := Page(0, MIN_KEY, MAX_KEY, NULL, NULL, [], [], 1)]
    && (forall t :: 0 <= t < |s.threads| ==>
          && s.threads[t].pc.Idle? && s.threads[t].path == map[] && s.threads[t].turns == 0
          && s.threads[t].node < |s.caches|)
    && (forall n :: 0 <= n < |s.caches| ==>
          s.caches[n] == Cache(s.entry, s.entry, 0, None) || s.caches[n] == Cache(NULL, NULL, 0, None))
  }

  lemma InitIsTree(a: Addr)
    requires a != NULL
    ensures Tree(map[a := Page(0, MIN_KEY, MAX_KEY, NULL, NULL, [], [], 1)], a, {})
  {
    var ps: Pages := map[a := Page(0, MIN_KEY, MAX_KEY, NULL, NULL, [], [], 1)];
    assert Linked(ps, a);
  }

  lemma InitHasInv(s: Sys)
    requires Init(s)
    ensures Inv(s)
  {
    InitIsTree(s.entry);
    assert Pend(s.threads) == {};
    assert !Swinging(s);
  }

  /** One step of the system: an action of a thread, or a node losing or refetching its root pointer. */
  ghost predicate ThreadStep(s: Sys, s': Sys, t: nat, act: Action) { Enabled(s, t, act) && s' == Next(s, t, act) }

  ghost predicate NodeStep(s: Sys, s': Sys, n: nat) {
    && n < |s.caches| && s.entry in s.pages
    && (s' == Invalidated(s, n) || (s.caches[n].mtx.None? && s' == RootRefetched(s, n)))
  }

  ghost predicate Step(s: Sys, s': Sys) {
    (exists t, act :: ThreadStep(s, s', t, act)) || (exists n :: NodeStep(s, s', n))
  }

  lemma StepKeepsInv(s: Sys, s': Sys)
    requires Inv(s) && Step(s, s')
    ensures Inv(s')
  {
    hide Inv, Next, Enabled;
    if t, act :| ThreadStep(s, s', t, act) {
      ActionKeepsInv(s, t, act);
    } else {
      var n :| NodeStep(s, s', n);
      NodeActionsKeepInv(s, n);
    }
  }

  ghost predicate Run(tr: seq<Sys>) {
    |tr| > 0 && Init(tr[0]) && forall i :: 0 < i < |tr| ==> Step(tr[i - 1], tr[i])
  }

  /** Every reachable state satisfies the invariant: each level is a right-linked chain of sorted pages
      with abutting ranges, each child starts at its separator, no child is lost or posted twice. */
  lemma {:induction false} ReachableIsSafe(tr: seq<Sys>, i: nat)
    requires Run(tr) && i < |tr|
    ensures Inv(tr[i])
  {
    hide Init, Step, Inv;
    if i == 0 { InitHasInv(tr[0]); }
    else {
      ReachableIsSafe(tr, i - 1);
      StepKeepsInv(tr[i - 1], tr[i]);
    }
  }

  /* ---- The abstract map ---- */

  /** Whether an action stores a row, and where. */
  ghost predicate StoresRow(s: Sys, t: nat, act: Action)
    requires Enabled(s, t, act)
  {
    act.PutLeaf? && s.pages[s.threads[t].pc.cur].Holds(s.threads[t].pc.k)
  }

  ghost function Contents(s: Sys, x: Key): Option<Bytes>
    requires Inv(s) && MIN_KEY <= x < MAX_KEY
  {
    View(s.pages, s.top, x)
  }

  lemma PutInternalContents(s: Sys, t: nat, b: Addr, x: Key)
    requires Inv(s) && Enabled(s, t, PutInternal(b)) && MIN_KEY <= x < MAX_KEY && Inv(Next(s, t, PutInternal(b)))
    ensures Contents(Next(s, t, PutInternal(b)), x) == Contents(s, x)
  {
    hide RootInv, NoneFull, Evolves;
    var th := s.threads[t];
    var a, c := th.pc.cur, th.pc.child;
    assert ThreadOk(s.pages, th);
    if s.pages[a].Holds(th.pc.sep) {
      PendingIsInTree(s, t);
      PutChildView(s.pages, s.top, Pend(s.threads), a, c, b, x);
    }
  }

  lemma GrowBuildContents(s: Sys, t: nat, r: Addr, x: Key)
    requires Inv(s) && Enabled(s, t, GrowBuild(r)) && MIN_KEY <= x < MAX_KEY && Inv(Next(s, t, GrowBuild(r)))
    ensures Contents(Next(s, t, GrowBuild(r)), x) == Contents(s, x)
  {
    hide RootInv, NoneFull, Evolves, ThreadsInv, OneOwner, NoneLost, NotLinkedYet, Linked;
    var s' := Next(s, t, GrowBuild(r));
    assert forall a :: a in s.pages ==> a in s'.pages && s'.pages[a] == s.pages[a];
    ViewStable(s.pages, s.top, s'.pages, s'.top, x);
  }

  lemma PutLeafContents(s: Sys, t: nat, b: Addr, x: Key)
    requires Inv(s) && Enabled(s, t, PutLeaf(b)) && MIN_KEY <= x < MAX_KEY && Inv(Next(s, t, PutLeaf(b)))
    ensures var pc := s.threads[t].pc;
            Contents(Next(s, t, PutLeaf(b)), x) ==
            if StoresRow(s, t, PutLeaf(b)) && x == pc.k then Some(pc.goal.row) else Contents(s, x)
  {
    hide RootInv, NoneFull, Evolves;
    var pc := s.threads[t].pc;
    if StoresRow(s, t, PutLeaf(b)) {
      PutRowView(s.pages, s.top, Pend(s.threads), pc.cur, pc.k, pc.goal.row, b, x);
    }
  }

  /** The abstract map changes only when a leaf store takes effect, and then at exactly that key. */
  lemma ActionMeaning(s: Sys, t: nat, act: Action, x: Key)
    requires Inv(s) && Enabled(s, t, act) && MIN_KEY <= x < MAX_KEY
    ensures Inv(Next(s, t, act))
    ensures var pc := s.threads[t].pc;
            Contents(Next(s, t, act), x) ==
            if StoresRow(s, t, act) && x == pc.k then Some(pc.goal.row) else Contents(s, x)
  {
    hide Inv, View;
    ActionKeepsInv(s, t, act);
    if act.PutLeaf? { PutLeafContents(s, t, act.spare, x); }
    else if act.PutInternal? { PutInternalContents(s, t, act.spare, x); }
    else if act.GrowBuild? { GrowBuildContents(s, t, act.spare, x); }
  }

  /** A leaf answers what the abstract map holds. */
  lemma LeafAnswersTheMap(s: Sys, t: nat)
    requires Inv(s) && Enabled(s, t, ReadLeaf) && Next(s, t, ReadLeaf).threads[t].pc.Answered?
    ensures var pc := s.threads[t].pc;
            MIN_KEY <= pc.k < MAX_KEY && Next(s, t, ReadLeaf).threads[t].pc == Answered(pc.k, Contents(s, pc.k))
  {
    hide RootInv, NoneFull;
    assert ThreadOk(s.pages, s.threads[t]);
    ViewAt(s.pages, s.top, s.threads[t].pc.cur, s.threads[t].pc.k);
  }

  /** No search or insert ever stands on a page that starts after its key, whatever happened in between;
      so right and down moves alone reach the leaf that holds the key. */
  lemma NeverTooFarRight(s: Sys, t: nat)
    requires Inv(s) && t < |s.threads|
    ensures var pc := s.threads[t].pc;
            (pc.Search? && !pc.goal.Publish? && pc.cur != NULL) || pc.AtLeaf? ==>
              && pc.cur in s.pages && s.pages[pc.cur].lowest <= pc.k < MAX_KEY
              && s.pages[Descend(s.pages, pc.cur, pc.k)].Holds(pc.k)
  {
    hide RootInv, NoneFull;
    assert ThreadOk(s.pages, s.threads[t]);
  }

  /** The branch that throws "internal node entry shall never get updated" is never taken. */
  lemma SeparatorNeverPostedTwice(s: Sys, t: nat, b: Addr)
    requires Inv(s) && Enabled(s, t, PutInternal(b)) && s.pages[s.threads[t].pc.cur].Holds(s.threads[t].pc.sep)
    ensures var pc := s.threads[t].pc;
            pc.sep !in s.pages[pc.cur].keys && pc.sep > s.pages[pc.cur].lowest && !Full(s.pages[pc.cur])
  {
    hide RootInv;
    assert ThreadOk(s.pages, s.threads[t]);
    PendingIsInTree(s, t);
    SeparatorIsNew(s.pages, s.top, Pend(s.threads), s.threads[t].pc.cur, s.threads[t].pc.child);
  }

  /* ---- What never goes back ---- */

  /** No action moves a page to another level, moves its start, or widens it. */
  lemma ActionEvolves(s: Sys, t: nat, act: Action)
    requires Inv(s) && Enabled(s, t, act)
    ensures Evolves(s.pages, Next(s, t, act).pages)
  {
    hide RootInv, Tree, NoneFull, Evolves, PageOk;
    var th := s.threads[t];
    assert ThreadOk(s.pages, th);
    if act.PutLeaf? && s.pages[th.pc.cur].Holds(th.pc.k) {
      PutRowKeepsTree(s.pages, s.top, Pend(s.threads), th.pc.cur, th.pc.k, th.pc.goal.row, act.spare);
    } else if act.PutInternal? && s.pages[th.pc.cur].Holds(th.pc.sep) {
      PendingIsInTree(s, t);
      PutChildKeepsTree(s.pages, s.top, Pend(s.threads), th.pc.cur, th.pc.child, act.spare);
    } else {
      MorePagesEvolve(s.pages, Next(s, t, act).pages);
    }
  }

  lemma MorePagesEvolve(ps: Pages, qs: Pages)
    requires forall a :: a in ps ==> a in qs && qs[a] == ps[a]
    ensures Evolves(ps, qs)
  {}

  lemma StepEvolves(s: Sys, s': Sys)
    requires Inv(s) && Step(s, s')
    ensures Evolves(s.pages, s'.pages)
  {
    hide Inv, Next, Enabled;
    if t, act :| ThreadStep(s, s', t, act) { ActionEvolves(s, t, act); }
  }

  /** A key that was ever stored is there ever after. */
  lemma StepKeepsKey(s: Sys, s': Sys, x: Key)
    requires Inv(s) && Step(s, s') && MIN_KEY <= x < MAX_KEY
    ensures Inv(s') && (Contents(s, x).Some? ==> Contents(s', x).Some?)
  {
    hide Inv, Next, Enabled, View;
    StepKeepsInv(s, s');
    if t, act :| ThreadStep(s, s', t, act) { ActionMeaning(s, t, act, x); }
  }

  lemma {:induction false} KeyStays(tr: seq<Sys>, i: nat, j: nat, x: Key)
    requires Run(tr) && i <= j < |tr| && MIN_KEY <= x < MAX_KEY
    ensures Inv(tr[i]) && Inv(tr[j]) && (Contents(tr[i], x).Some? ==> Contents(tr[j], x).Some?)
    decreases j
  {
    hide Init, Step, Inv, Contents;
    ReachableIsSafe(tr, i);
    ReachableIsSafe(tr, j);
    if i < j {
      KeyStays(tr, i, j - 1, x);
      StepKeepsKey(tr[j - 1], tr[j], x);
    }
  }

  /* ---- What searches answer ---- */

  /** Some step before state j stored a row. */
  ghost predicate RowStored(tr: seq<Sys>, j: nat)
    requires j < |tr|
  {
    exists i: nat, t: nat, act: Action {:trigger StoresAt(tr, i, t, act)} :: i < j && StoresAt(tr, i, t, act)
  }

  ghost predicate StoresAt(tr: seq<Sys>, i: nat, t: nat, act: Action) {
    i + 1 < |tr| && ThreadStep(tr[i], tr[i + 1], t, act) && StoresRow(tr[i], t, act)
  }

  ghost predicate HasRow(s: Sys, x: Key) {
    Inv(s) && MIN_KEY <= x < MAX_KEY && Contents(s, x).Some?
  }

  lemma InitHasNoRow(s: Sys, x: Key)
    requires Init(s)
    ensures !HasRow(s, x)
  {
    if MIN_KEY <= x < MAX_KEY && Inv(s) {
      hide LocksOk, HeightsOk, ThreadsInv;
      assert s.pages[s.entry].keys == [];
      ViewAt(s.pages, s.top, s.entry, x);
    }
  }

  /** A key is present only when some row was stored, and a stored row stays. */
  lemma {:induction false} RowsWereStored(tr: seq<Sys>, j: nat, x: Key)
    requires Run(tr) && j < |tr| && HasRow(tr[j], x)
    ensures RowStored(tr, j)
  {
    hide Init, Inv, Contents, Enabled, Next, StoresRow;
    if j == 0 { InitHasNoRow(tr[0], x); }
    else {
      ReachableIsSafe(tr, j - 1);
      assert Step(tr[j - 1], tr[j]);
      if RowStored(tr, j - 1) {
        var i: nat, t: nat, act: Action :| i < j - 1 && StoresAt(tr, i, t, act);
        assert StoresAt(tr, i, t, act);
      } else if HasRow(tr[j - 1], x) {
        RowsWereStored(tr, j - 1, x);
      } else {
        NewRowIsStored(tr[j - 1], tr[j], x);
        var t: nat, act: Action :| ThreadStep(tr[j - 1], tr[j], t, act) && StoresRow(tr[j - 1], t, act);
        assert StoresAt(tr, j - 1, t, act);
      }
    }
  }

  lemma NewRowIsStored(s: Sys, s': Sys, x: Key)
    requires Inv(s) && Step(s, s') && !HasRow(s, x) && HasRow(s', x)
    ensures exists t: nat, act: Action :: ThreadStep(s, s', t, act) && StoresRow(s, t, act)
  {
    hide Inv, Enabled, Next, View, StoresRow;
    if t: nat, act: Action :| ThreadStep(s, s', t, act) { ActionMeaning(s, t, act, x); }
  }

  lemma StoredRowStays(tr: seq<Sys>, j: nat) returns (x: Key)
    requires Run(tr) && j < |tr| && RowStored(tr, j)
    ensures HasRow(tr[j], x)
  {
    hide Init, Inv, Contents, Step;
    var i: nat, t: nat, act: Action :| i < j && StoresAt(tr, i, t, act);
    ReachableIsSafe(tr, i);
    x := StoredKey(tr[i], t, act);
    ActionMeaning(tr[i], t, act, x);
    KeyStays(tr, i + 1, j, x);
  }

  lemma StoredKey(s: Sys, t: nat, act: Action) returns (x: Key)
    requires Inv(s) && Enabled(s, t, act) && StoresRow(s, t, act)
    ensures x == s.threads[t].pc.k && MIN_KEY <= x < MAX_KEY
  {
    hide TreeInv, RootInv;
    x := s.threads[t].pc.k;
    assert ThreadOk(s.pages, s.threads[t]);
  }

  lemma LeafListsRows(s: Sys, a: Addr, x: Key)
    requires Inv(s) && a in s.pages && s.pages[a].level == 0 && s.pages[a].Holds(x)
    ensures PageOk(s.pages[a]) && (HasRow(s, x) <==> x in s.pages[a].keys)
  {
    hide RootInv, ThreadsInv, NoneFull, OneOwner, NoneLost, NotLinkedYet;
    assert Linked(s.pages, a);
    ViewAt(s.pages, s.top, a, x);
    if x in s.pages[a].keys { FindComplete(s.pages[a].keys, x); }
  }

  /** In every run, exactly: a leaf has a record if and only if some row has been stored. */
  lemma LeafHasRecord(tr: seq<Sys>, j: nat, a: Addr)
    requires Run(tr) && j < |tr| && a in tr[j].pages && tr[j].pages[a].level == 0
    ensures tr[j].pages[a].keys != [] <==> RowStored(tr, j)
  {
    hide Init, Step, Inv, HasRow, RowStored;
    ReachableIsSafe(tr, j);
    var p := tr[j].pages[a];
    assert PageOk(p) by { LeafIsOk(tr[j], a); }
    if p.keys != [] {
      LeafListsRows(tr[j], a, p.keys[0]);
      assert p.keys[0] in p.keys;
      RowsWereStored(tr, j, p.keys[0]);
    } else if RowStored(tr, j) {
      var x := StoredRowStays(tr, j);
      InRange(tr[j], x);
      LeafListsRows(tr[j], a, x);
    }
  }

  lemma LeafIsOk(s: Sys, a: Addr)
    requires Inv(s) && a in s.pages
    ensures PageOk(s.pages[a])
  {
    hide RootInv, ThreadsInv, NoneFull, OneOwner, NoneLost, NotLinkedYet, PageOk;
    assert Linked(s.pages, a);
  }

  lemma InRange(s: Sys, x: Key)
    requires HasRow(s, x)
    ensures MIN_KEY <= x < MAX_KEY
  {}

  /** In every run, a search that has come to the leaf of its key gets an answer if and only if some row has been stored
      before; and then the answer is what the abstract map holds at that moment. On a tree without rows the code reads
      outside the page. */
  lemma SearchAnswersTheMap(tr: seq<Sys>, j: nat, t: nat)
    requires Run(tr) && j < |tr| && t < |tr[j].threads|
    requires var s, pc := tr[j], tr[j].threads[t].pc;
             pc.AtLeaf? && pc.goal.Lookup? && pc.cur in s.pages && s.pages[pc.cur].Holds(pc.k)
    ensures Inv(tr[j]) && MIN_KEY <= tr[j].threads[t].pc.k < MAX_KEY
    ensures Enabled(tr[j], t, ReadLeaf) <==> RowStored(tr, j)
    ensures var k := tr[j].threads[t].pc.k;
            RowStored(tr, j) ==> Next(tr[j], t, ReadLeaf).threads[t].pc == Answered(k, Contents(tr[j], k))
  {
    hide Init, Step, RowStored, TreeInv, HeightsOk, EntryOk, CacheOk, View;
    var s, pc := tr[j], tr[j].threads[t].pc;
    ReachableIsSafe(tr, j);
    assert ThreadOk(s.pages, s.threads[t]);
    PagesAreLinked(s, pc.cur);
    LeafHasRecord(tr, j, pc.cur);
    if RowStored(tr, j) { LeafAnswersTheMap(s, t); }
  }

  lemma PagesAreLinked(s: Sys, a: Addr)
    requires Inv(s) && a in s.pages
    ensures Linked(s.pages, a) && s.entry in s.pages
  {
    hide ThreadsInv, NoneFull, OneOwner, NoneLost, NotLinkedYet, PageOk, LocksOk, HeightsOk;
  }

  /** A search that answers "not found" shows that its key was in no earlier state of the run. */
  lemma SearchNeverMisses(tr: seq<Sys>, t: nat, j: nat, i: nat)
    requires Run(tr) && i <= j < |tr| && Enabled(tr[j], t, ReadLeaf)
    requires Next(tr[j], t, ReadLeaf).threads[t].pc.Answered?
    ensures var k := tr[j].threads[t].pc.k;
            && MIN_KEY <= k < MAX_KEY && Inv(tr[i])
            && (Next(tr[j], t, ReadLeaf).threads[t].pc.answer.None? ==> Contents(tr[i], k).None?)
  {
    hide Init, Step, Inv, View, Linked;
    ReachableIsSafe(tr, j);
    LeafAnswersTheMap(tr[j], t);
    KeyStays(tr, i, j, tr[j].threads[t].pc.k);
  }

  /* ---- Roots ---- */

  /** The index entry changes only to a page one level higher that starts at the lowest key. */
  lemma EntryOnlySwings(s: Sys, s': Sys)
    requires Inv(s) && Step(s, s')
    ensures s.entry in s.pages && s'.entry in s'.pages && s'.pages[s'.entry].lowest == MIN_KEY
    ensures s'.entry == s.entry ||
            (s'.entry in s.pages && s'.pages == s.pages && s.pages[s'.entry].level == s.pages[s.entry].level + 1)
  {
    hide TreeInv, ThreadsInv, Linked, LocksOk, HeightsOk, CacheOk;
    StepKeepsInv(s, s');
    if t, act :| ThreadStep(s, s', t, act) {
      if act.GrowCas? { RootCasSucceeds(s, t); }
    }
  }

  /** Successive roots rise: a later root is the same page or stands on a higher level, so no level ever gets
      two roots. */
  lemma {:induction false} RootsRise(tr: seq<Sys>, i: nat, j: nat)
    requires Run(tr) && i <= j < |tr|
    ensures tr[i].entry in tr[j].pages && tr[j].entry in tr[j].pages && tr[j].pages[tr[j].entry].lowest == MIN_KEY
    ensures tr[i].entry == tr[j].entry || tr[j].pages[tr[i].entry].level < tr[j].pages[tr[j].entry].level
    decreases j
  {
    hide Init, Step, TreeInv, ThreadsInv, LocksOk, HeightsOk;
    ReachableIsSafe(tr, j);
    if i < j {
      RootsRise(tr, i, j - 1);
      ReachableIsSafe(tr, j - 1);
      EntryOnlySwings(tr[j - 1], tr[j]);
      StepEvolves(tr[j - 1], tr[j]);
    }
  }

  /** A node never caches a root above the one the index entry names, except while it swings the entry itself:
      the height assertions of refetch_rootnode and update_new_root hold. */
  lemma HeightsNeverFall(s: Sys, n: nat)
    requires Inv(s) && n < |s.caches| && s.caches[n].mtx.None? && s.caches[n].handle != NULL
    ensures s.entry in s.pages && Refetched(s, s.caches[n]).height >= s.caches[n].height
  {
    hide TreeInv, ThreadsInv;
    assert CacheOk(s.pages, s.caches[n]);
  }
}
