/** Scanning the leaves while other threads insert. The iterator holds a shared latch on its leaf, drops it
    before it latches the right sibling, and either page may split in between. */
module BLinkScan {
  import opened BLinkPage
  import opened BLinkTree
  import opened BLinkSystem
  import opened BLinkRuns

  datatype Cursor = At(node: Addr, position: nat) | End

  /** Where Btr::iterator::Next goes from a position in its latched leaf. */
  function Advance(c: Cursor, leaf: Page): Cursor
    requires c.At?
  {
    if c.position + 1 < |leaf.keys| then At(c.node, c.position + 1)
    else if leaf.sibling == NULL then End
    else At(leaf.sibling, 0)
  }

  /** Btr::iterator, with the page it has latched. */
  class Iterator {
    var node: Addr
    var position: nat
    var valid: bool

    ghost function Where(): Cursor
      reads this
    {
      if valid then At(node, position) else End
    }

    constructor (node: Addr, position: nat)
      ensures Where() == At(node, position)
    {
      this.node, this.position, this.valid := node, position, true;
    }

    method Next(leaf: Page)
      requires Where().At?
      modifies this
      ensures Where() == Advance(old(Where()), leaf)
    {
      if position + 1 < |leaf.keys| {
        position := position + 1;
      } else {
        var nextLeaf := leaf.sibling;
        if nextLeaf == NULL {
          valid := false;
          return;
        }
        node, position := nextLeaf, 0;
      }
    }
  }

  /** A scan of a run: from[i] is when the i-th position was latched. A latched leaf does not change. */
  ghost predicate Scan(tr: seq<Sys>, from: seq<nat>, cs: seq<Cursor>) {
    && Run(tr) && 0 < |cs| == |from|
    && (forall i :: 0 <= i < |cs| ==> from[i] < |tr|)
    && OnRecord(tr[from[0]].pages, cs[0])
    && forall i :: 0 < i < |cs| ==> ScanStep(tr, from[i - 1], cs[i - 1], from[i], cs[i])
  }

  ghost predicate OnRecord(ps: Pages, c: Cursor) {
    c.At? && c.node in ps && ps[c.node].level == 0 && c.position < |ps[c.node].keys|
  }

  ghost predicate ScanStep(tr: seq<Sys>, i: nat, c: Cursor, j: nat, c': Cursor) {
    && i <= j < |tr| && c.At? && c.node in tr[i].pages
    && c' == Advance(c, tr[i].pages[c.node])
    && (c'.At? && c'.node == c.node ==> c.node in tr[j].pages && tr[j].pages[c.node] == tr[i].pages[c.node])
  }

  ghost function KeyAt(ps: Pages, c: Cursor): Key
    requires OnRecord(ps, c)
  {
    ps[c.node].keys[c.position]
  }

  lemma LeafFacts(s: Sys, a: Addr)
    requires Inv(s) && a in s.pages
    ensures PageOk(s.pages[a]) && RightLinked(s.pages, s.pages[a])
  {
    hide RootInv, ThreadsInv, NoneFull, OneOwner, NoneLost, NotLinkedYet, PageOk;
    assert Linked(s.pages, a);
  }

  /** One Next lands on a record with a larger key, and passes over no key that is present before and after. */
  lemma NextIsNext(tr: seq<Sys>, i: nat, c: Cursor, j: nat, c': Cursor)
    requires Run(tr) && ScanStep(tr, i, c, j, c') && OnRecord(tr[i].pages, c)
    ensures c'.At? ==>
              && OnRecord(tr[j].pages, c') && KeyAt(tr[i].pages, c) < KeyAt(tr[j].pages, c')
              && forall x :: KeyAt(tr[i].pages, c) < x < KeyAt(tr[j].pages, c') ==>
                 !(HasRow(tr[i], x) && HasRow(tr[j], x))
    ensures c'.End? ==> forall x :: KeyAt(tr[i].pages, c) < x ==> !HasRow(tr[i], x)
  {
    hide Run, Inv, Evolves, Contents;
    var p := tr[i].pages[c.node];
    ReachableIsSafe(tr, i);
    ReachableIsSafe(tr, j);
    RunEvolves(tr, i, j);
    LeafFacts(tr[i], c.node);
    forall x | HasRow(tr[i], x) && KeyAt(tr[i].pages, c) < x < p.highest ensures x in p.keys {
      LeafListsRows(tr[i], c.node, x);
    }
    if c'.At? && c'.node != c.node {
      SiblingLater(tr, i, j, c.node);
      var q := tr[j].pages[c'.node];
      LeafFacts(tr[j], c'.node);
      forall x | HasRow(tr[j], x) && p.highest <= x < q.highest ensures x in q.keys {
        LeafListsRows(tr[j], c'.node, x);
      }
    }
  }

  lemma {:induction false} RunEvolves(tr: seq<Sys>, i: nat, j: nat)
    requires Run(tr) && i <= j < |tr|
    ensures Evolves(tr[i].pages, tr[j].pages)
    decreases j
  {
    hide Init, Step, Inv;
    if i < j {
      RunEvolves(tr, i, j - 1);
      ReachableIsSafe(tr, j - 1);
      StepEvolves(tr[j - 1], tr[j]);
    }
  }

  /** The right sibling of a leaf still starts where that leaf ended, however both have split since. */
  lemma SiblingLater(tr: seq<Sys>, i: nat, j: nat, a: Addr)
    requires Run(tr) && i <= j < |tr| && a in tr[i].pages && tr[i].pages[a].sibling != NULL
    ensures var p := tr[i].pages[a];
            && p.sibling != a && p.sibling in tr[j].pages
            && tr[j].pages[p.sibling].level == p.level && tr[j].pages[p.sibling].lowest == p.highest
  {
    hide Run, Inv;
    ReachableIsSafe(tr, i);
    RunEvolves(tr, i, j);
    LeafFacts(tr[i], a);
  }

  lemma {:induction false} ScanOnRecord(tr: seq<Sys>, from: seq<nat>, cs: seq<Cursor>, j: nat)
    requires Scan(tr, from, cs) && j < |cs| && cs[j].At?
    ensures OnRecord(tr[from[j]].pages, cs[j])
  {
    hide Run;
    if j > 0 {
      ScanOnRecord(tr, from, cs, j - 1);
      NextIsNext(tr, from[j - 1], cs[j - 1], from[j], cs[j]);
    }
  }

  /** The keys of a scan are strictly increasing. */
  lemma {:induction false} ScanIncreases(tr: seq<Sys>, from: seq<nat>, cs: seq<Cursor>, i: nat, j: nat)
    requires Scan(tr, from, cs) && i < j < |cs| && cs[j].At?
    ensures cs[i].At? && OnRecord(tr[from[i]].pages, cs[i]) && OnRecord(tr[from[j]].pages, cs[j])
    ensures KeyAt(tr[from[i]].pages, cs[i]) < KeyAt(tr[from[j]].pages, cs[j])
    decreases j
  {
    hide Run, OnRecord;
    assert ScanStep(tr, from[j - 1], cs[j - 1], from[j], cs[j]);
    ScanOnRecord(tr, from, cs, j - 1);
    NextIsNext(tr, from[j - 1], cs[j - 1], from[j], cs[j]);
    if i < j - 1 { ScanIncreases(tr, from, cs, i, j - 1); }
  }

  lemma {:induction false} ScanTimes(tr: seq<Sys>, from: seq<nat>, cs: seq<Cursor>, j: nat)
    requires Scan(tr, from, cs) && j < |cs|
    ensures from[0] <= from[j] < |tr|
  {
    hide Run, OnRecord;
    if j > 0 {
      assert ScanStep(tr, from[j - 1], cs[j - 1], from[j], cs[j]);
      ScanTimes(tr, from, cs, j - 1);
    }
  }

  ghost predicate Yielded(tr: seq<Sys>, from: seq<nat>, cs: seq<Cursor>, x: Key, i: nat)
    requires |cs| == |from|
  {
    i < |cs| && from[i] < |tr| && OnRecord(tr[from[i]].pages, cs[i]) && KeyAt(tr[from[i]].pages, cs[i]) == x
  }

  ghost predicate StartsBy(ps: Pages, c: Cursor, x: Key) {
    OnRecord(ps, c) && KeyAt(ps, c) <= x
  }

  lemma StartsAt(ps: Pages, c: Cursor, x: Key)
    requires StartsBy(ps, c, x)
    ensures c.At?
  {}

  /** The scan has reached x or gone beyond it. */
  ghost predicate Passes(tr: seq<Sys>, from: seq<nat>, cs: seq<Cursor>, j: nat, x: Key)
    requires |cs| == |from| && j < |cs|
  {
    cs[j].End? || (from[j] < |tr| && OnRecord(tr[from[j]].pages, cs[j]) && x <= KeyAt(tr[from[j]].pages, cs[j]))
  }

  /** A scan that lands beyond a present key has passed it one step earlier. */
  lemma PassedBefore(tr: seq<Sys>, from: seq<nat>, cs: seq<Cursor>, j: nat, x: Key)
    requires Scan(tr, from, cs) && |cs| == |from| && 0 < j < |cs| && from[0] < |tr|
    requires HasRow(tr[from[0]], x) && Passes(tr, from, cs, j, x) && !Yielded(tr, from, cs, x, j)
    ensures Passes(tr, from, cs, j - 1, x)
  {
    hide Run, OnRecord, Inv, Contents, Advance, HasRow;
    assert ScanStep(tr, from[j - 1], cs[j - 1], from[j], cs[j]);
    ScanOnRecord(tr, from, cs, j - 1);
    NextIsNext(tr, from[j - 1], cs[j - 1], from[j], cs[j]);
    StillPresent(tr, from, cs, j - 1, x);
    StillPresent(tr, from, cs, j, x);
  }

  /** No key is skipped: a key present when the scan began and not before its first record has been yielded
      once the scan has passed it, and by the end every such key has. */
  lemma {:induction false} ScanSkipsNothing(tr: seq<Sys>, from: seq<nat>, cs: seq<Cursor>, j: nat, x: Key)
    requires Scan(tr, from, cs) && |cs| == |from| && 0 <= j < |cs| && from[0] < |tr|
    requires HasRow(tr[from[0]], x) && StartsBy(tr[from[0]].pages, cs[0], x) && Passes(tr, from, cs, j, x)
    ensures exists i :: 0 <= i <= j && Yielded(tr, from, cs, x, i)
    decreases j
  {
    hide Scan, OnRecord, HasRow;
    StartsAt(tr[from[0]].pages, cs[0], x);
    if j == 0 || Yielded(tr, from, cs, x, j) {
      assert Yielded(tr, from, cs, x, j);
    } else {
      PassedBefore(tr, from, cs, j, x);
      ScanSkipsNothing(tr, from, cs, j - 1, x);
    }
  }

  lemma StillPresent(tr: seq<Sys>, from: seq<nat>, cs: seq<Cursor>, j: nat, x: Key)
    requires Scan(tr, from, cs) && j < |cs| && HasRow(tr[from[0]], x)
    ensures from[j] < |tr| && HasRow(tr[from[j]], x)
  {
    hide Run, OnRecord, Inv, Contents;
    ScanTimes(tr, from, cs, j);
    KeyStays(tr, from[0], from[j], x);
  }
}
