/** The tree and its log together. What a replica holds that has replayed the whole log is what the log says of the
    pages; and that is the tree itself exactly when every change was logged and every row is as it was last logged. */
module ReplicatedTree {
  import opened Options
  import opened Endian
  import opened RedoPage
  import opened BLinkPage
  import opened BLinkTree
  import opened BLinkSystem
  import opened BLinkRuns
  import opened PageBytes
  import opened ReplayOrder
  import opened ReplayRuns
  import opened PartialLog
  import R = Replication

  type Change = R.Change

  /** The changes of a store that may end in a split, with the bytes that log them: p is the page, and `was` what the
      log says of it so far. A row written over another one changes neither the version nor the log. The record of a
      store has the new row, that of a cut has no row at all, and that of a new sibling has all its rows. */
  ghost predicate MakesPut(l: Layout, p: Page, was: Page, a: Addr, k: Key, v: Val, b: Addr, chs: seq<Change>) {
    && |p.keys| == |p.vals| && |was.keys| == |was.vals|
    && (forall i :: 0 <= i < |chs| ==> R.ChangeOk(l, chs[i]))
    && if v.Row? && k in p.keys then chs == []
       else
         && k !in p.keys
         && var q, said := WithRecord(p, k, v), WithRecord(was, k, v);
            && |chs| == (if Full(q) then 3 else 1)
            && chs[0].StoreRecord? && chs[0] == R.StoreRecord(a, was, k, v, chs[0].rec)
            && (Full(q) ==>
                  && q.keys != [] && chs[1].CutPage? && chs[1] == R.CutPage(a, said, b, chs[1].image)
                  && LayoutOk(l) && Represents(l, chs[1].image, SplitLeft(q, b))
                  && chs[2].NewPage? && chs[2] == R.NewPage(b, SplitRight(q), chs[2].image))
  }

  /** The changes an action makes, when the log says `said` of the pages. */
  ghost predicate MakesStep(l: Layout, s: Sys, said: Pages, t: nat, act: Action, chs: seq<Change>)
    requires t < |s.threads|
  {
    var th := s.threads[t];
    var pc := th.pc;
    match act
    case PutLeaf(b) =>
      pc.AtLeaf? && pc.goal.Upsert? && pc.cur in s.pages && pc.cur in said &&
      if s.pages[pc.cur].Holds(pc.k)
      then MakesPut(l, s.pages[pc.cur], said[pc.cur], pc.cur, pc.k, Row(pc.goal.row), b, chs)
      else chs == []
    case PutInternal(b) =>
      pc.Post? && pc.cur in s.pages && pc.cur in said &&
      if s.pages[pc.cur].Holds(pc.sep)
      then MakesPut(l, s.pages[pc.cur], said[pc.cur], pc.cur, pc.sep, Child(pc.child), b, chs)
      else chs == []
    case GrowBuild(r) =>
      && pc.Grow? && pc.level in th.path && |chs| == 1 && chs[0].NewPage? && R.ChangeOk(l, chs[0])
      && chs[0] == R.NewPage(r, NewRoot(th.path[pc.level], pc.sep, pc.child, pc.level + 1), chs[0].image)
    case _ => chs == []
  }

  lemma NoChange(l: Layout, ps: Pages)
    ensures R.AllNext(l, ps, []) && R.PagesAfter(ps, [], 0) == ps
  {
  }

  lemma OneChange(l: Layout, ps: Pages, ch: Change)
    requires R.Fits(ch) && R.IsNext(l, ps, ch)
    ensures R.AllNext(l, ps, [ch]) && R.PagesAfter(ps, [ch], 1) == ps[ch.addr := R.After(ch)]
  {
    hide R.ChangeOk, R.After;
    assert R.PagesAfter(ps, [ch], 0) == ps;
  }

  /** Changes, and then more changes. */
  lemma {:induction false} MoreChanges(l: Layout, ps: Pages, x: seq<Change>, y: seq<Change>, n: nat)
    requires R.AllNext(l, ps, x) && R.AllNext(l, R.PagesAfter(ps, x, |x|), y) && n <= |y|
    ensures R.AllFit(x + y)
    ensures R.PagesAfter(ps, x + y, |x| + n) == R.PagesAfter(R.PagesAfter(ps, x, |x|), y, n)
    decreases n
  {
    hide R.ChangeOk, R.After, R.AllFit, R.NextAt;
    FitBoth(l, ps, x, y);
    if n == 0 { SameChanges(ps, x, y, |x|); }
    else { MoreChanges(l, ps, x, y, n - 1); }
  }

  lemma FitBoth(l: Layout, ps: Pages, x: seq<Change>, y: seq<Change>)
    requires R.AllNext(l, ps, x) && R.AllNext(l, R.PagesAfter(ps, x, |x|), y)
    ensures R.AllFit(x + y)
  {
    hide R.ChangeOk, R.Fits, R.IsNext;
  }

  lemma {:induction false} SameChanges(ps: Pages, x: seq<Change>, y: seq<Change>, n: nat)
    requires n <= |x| && R.AllFit(x) && R.AllFit(x + y)
    ensures R.PagesAfter(ps, x + y, n) == R.PagesAfter(ps, x, n)
  {
    hide R.Fits;
    if n > 0 { SameChanges(ps, x, y, n - 1); }
  }

  lemma AllNextMore(l: Layout, ps: Pages, x: seq<Change>, y: seq<Change>)
    requires R.AllNext(l, ps, x) && R.AllNext(l, R.PagesAfter(ps, x, |x|), y)
    ensures R.AllNext(l, ps, x + y)
  {
    hide R.ChangeOk, R.Fits, R.AllFit, R.NextAt, R.PagesAfter;
    FitBoth(l, ps, x, y);
    var z := x + y;
    forall i {:trigger R.NextAt(l, ps, z, i)} | 0 <= i < |z| ensures R.NextAt(l, ps, z, i) { NthNext(l, ps, x, y, i); }
  }

  lemma NthNext(l: Layout, ps: Pages, x: seq<Change>, y: seq<Change>, i: nat)
    requires R.AllNext(l, ps, x) && R.AllNext(l, R.PagesAfter(ps, x, |x|), y) && i < |x| + |y|
    ensures R.AllFit(x + y)
    ensures R.NextAt(l, ps, x + y, i)
  {
    hide R.ChangeOk, R.Fits, R.IsNext, R.PagesAfter;
    FitBoth(l, ps, x, y);
    if i < |x| {
      SameChanges(ps, x, y, i);
      assert R.NextAt(l, ps, x, i);
    } else {
      MoreChanges(l, ps, x, y, i - |x|);
      assert R.NextAt(l, R.PagesAfter(ps, x, |x|), y, i - |x|);
    }
  }

  /** After a store that may end in a split, what the log says of the pages and the pages differ in rows at most. */
  lemma PutChanges(l: Layout, ps: Pages, said: Pages, a: Addr, k: Key, v: Val, b: Addr, chs: seq<Change>)
    requires Linked(ps, a) && b !in ps && !Full(ps[a]) && (v.Row? <==> ps[a].level == 0) && Alike(said, ps)
    requires MakesPut(l, ps[a], said[a], a, k, v, b, chs)
    ensures R.AllNext(l, said, chs) && Alike(R.PagesAfter(said, chs, |chs|), Put(ps, a, k, v, b))
  {
    hide R.ChangeOk, Linked, R.PagesAfter, R.AllNext, PageOk, MakesPut, Put, Alike, Full;
    LinkedPage(ps, a);
    SameKeys(said, ps);
    if v.Row? && k in ps[a].keys { OverwriteChanges(l, ps, said, a, k, v.row, b, chs); }
    else { FreshPutChanges(l, ps, said, a, k, v, b, chs); }
  }

  lemma OverwriteChanges(l: Layout, ps: Pages, said: Pages, a: Addr, k: Key, row: Bytes, b: Addr, chs: seq<Change>)
    requires Linked(ps, a) && !Full(ps[a]) && ps[a].level == 0 && Alike(said, ps) && k in ps[a].keys
    requires MakesPut(l, ps[a], said[a], a, k, Row(row), b, chs)
    ensures R.AllNext(l, said, chs) && Alike(R.PagesAfter(said, chs, |chs|), Put(ps, a, k, Row(row), b))
  {
    hide R.ChangeOk, Represents, R.PagesAfter, R.AllNext, Upper;
    NoChange(l, said);
    FindComplete(ps[a].keys, k);
    OverwrittenAlike(said[a], ps[a], k, row);
  }

  lemma FreshPutChanges(l: Layout, ps: Pages, said: Pages, a: Addr, k: Key, v: Val, b: Addr, chs: seq<Change>)
    requires Linked(ps, a) && b !in ps && Alike(said, ps) && !(v.Row? && k in ps[a].keys)
    requires MakesPut(l, ps[a], said[a], a, k, v, b, chs)
    ensures R.AllNext(l, said, chs) && Alike(R.PagesAfter(said, chs, |chs|), Put(ps, a, k, v, b))
  {
    hide R.ChangeOk, Represents, R.PagesAfter, R.AllNext, Linked, WithRecord, SplitLeft, SplitRight;
    LinkedPage(ps, a);
    FreshChanges(l, said, a, k, v, b, chs, ps[a]);
    StoredFresh(ps[a], k, v);
    PutAlike(said[a], ps[a], k, v, b);
  }

  lemma OverwrittenAlike(was: Page, p: Page, k: Key, row: Bytes)
    requires PageAlike(was, p) && |p.keys| == |p.vals| && p.level == 0 && !Full(p) && Find(p.keys, k).Some?
    ensures PageAlike(was, LeafPut(p, k, row)) && !Full(LeafPut(p, k, row))
  {
    hide Upper, Find;
  }

  lemma FreshChanges(l: Layout, said: Pages, a: Addr, k: Key, v: Val, b: Addr, chs: seq<Change>, p: Page)
    requires a in said && b !in said && MakesPut(l, p, said[a], a, k, v, b, chs) && k !in p.keys
    requires PageAlike(said[a], p)
    ensures R.AllNext(l, said, chs) && |chs| == if Full(WithRecord(p, k, v)) then 3 else 1
    ensures var q, r := WithRecord(p, k, v), WithRecord(said[a], k, v);
            && q.keys != [] && r.keys != []
            && R.PagesAfter(said, chs, |chs|) ==
               if Full(q) then said[a := SplitLeft(r, b)][b := SplitRight(q)] else said[a := r]
  {
    hide R.ChangeOk, Represents, Upper;
    var q, r := WithRecord(p, k, v), WithRecord(said[a], k, v);
    OneChange(l, said, chs[0]);
    var ps1 := said[a := r];
    if Full(q) {
      OneChange(l, ps1, chs[1]);
      var ps2 := ps1[a := SplitLeft(r, b)];
      OneChange(l, ps2, chs[2]);
      AllNextMore(l, said, [chs[0]], [chs[1]]);
      MoreChanges(l, said, [chs[0]], [chs[1]], 1);
      AllNextMore(l, said, [chs[0]] + [chs[1]], [chs[2]]);
      MoreChanges(l, said, [chs[0]] + [chs[1]], [chs[2]], 1);
      assert chs == [chs[0]] + [chs[1]] + [chs[2]];
    } else {
      assert chs == [chs[0]];
    }
  }

  lemma PutAlike(was: Page, p: Page, k: Key, v: Val, b: Addr)
    requires PageAlike(was, p) && |p.keys| == |p.vals|
    ensures var q, r := WithRecord(p, k, v), WithRecord(was, k, v);
            PageAlike(r, q) && q.keys != [] && PageAlike(SplitLeft(r, b), SplitLeft(q, b))
  {
    hide Upper;
  }

  lemma StoredFresh(p: Page, k: Key, v: Val)
    requires |p.keys| == |p.vals| && k !in p.keys
    ensures StoreIn(p, k, v) == WithRecord(p, k, v)
  {
    hide Upper;
  }

  lemma SameAlike(ps: Pages, r: Addr, q: Page, said: Pages)
    requires Alike(said, ps)
    ensures Alike(said[r := q], ps[r := q])
  {}

  lemma StepChanges(l: Layout, s: Sys, said: Pages, t: nat, act: Action, chs: seq<Change>)
    requires Inv(s) && Enabled(s, t, act) && Alike(said, s.pages) && MakesStep(l, s, said, t, act, chs)
    ensures R.AllNext(l, said, chs) && Alike(R.PagesAfter(said, chs, |chs|), Next(s, t, act).pages)
  {
    hide R.ChangeOk, R.AllNext, R.PagesAfter, MakesPut, Linked, Put, AfterPutLeaf, AfterPutInternal, AfterRead,
         AfterReadLeaf, AfterReadProbe, Missed, Tree, RootInv, OneOwner, Alike;
    var pc := s.threads[t].pc;
    match act {
      case PutLeaf(b) =>
        if s.pages[pc.cur].Holds(pc.k) { PutChanges(l, s.pages, said, pc.cur, pc.k, Row(pc.goal.row), b, chs); }
        else { NoChange(l, said); }
      case PutInternal(b) =>
        assert ThreadOk(s.pages, s.threads[t]);
        if s.pages[pc.cur].Holds(pc.sep) { PutChanges(l, s.pages, said, pc.cur, pc.sep, Child(pc.child), b, chs); }
        else { NoChange(l, said); }
      case GrowBuild(r) =>
        assert r !in said by { SameKeys(said, s.pages); }
        OneChange(l, said, chs[0]);
        SameAlike(s.pages, r, R.After(chs[0]), said);
        assert chs == [chs[0]];
      case _ => { NoChange(l, said); }
    }
  }

  lemma SameKeys(said: Pages, ps: Pages)
    requires Alike(said, ps)
    ensures said.Keys == ps.Keys
  {}

  /* ---- Whole runs ---- */

  /** A step of the system, the changes it makes, and whether the thread has a redo logger to log them with. */
  ghost predicate TreeStep(l: Layout, s: Sys, s': Sys, said: Pages, chs: seq<Change>, logged: bool) {
    || (exists t: nat, act ::
          ThreadStep(s, s', t, act) && t < |s.threads| && MakesStep(l, s, said, t, act, chs)
          && logged == s.threads[t].logging)
    || ((exists n :: NodeStep(s, s', n)) && chs == [])
  }

  /** A run of the tree, what a full log would say of the pages in each state, the changes of each step, and whether
      they were logged. */
  datatype Story = Story(tr: seq<Sys>, said: seq<Pages>, made: seq<seq<Change>>, logged: seq<bool>)

  ghost predicate StoryStep(l: Layout, y: Story, i: nat)
    requires i + 1 < |y.tr| && i + 1 < |y.said| && i < |y.made| && i < |y.logged|
  {
    && TreeStep(l, y.tr[i], y.tr[i + 1], y.said[i], y.made[i], y.logged[i])
    && R.AllFit(y.made[i]) && y.said[i + 1] == R.PagesAfter(y.said[i], y.made[i], |y.made[i]|)
  }

  ghost predicate TreeRun(l: Layout, y: Story) {
    && |y.tr| == |y.said| == |y.made| + 1 == |y.logged| + 1 && Init(y.tr[0]) && y.said[0] == y.tr[0].pages
    && forall i {:trigger StoryStep(l, y, i)} :: 0 <= i < |y.made| ==> StoryStep(l, y, i)
  }

  /** All changes of the first n steps, and which of them were logged. */
  function Whole(made: seq<seq<Change>>, n: nat): seq<Change>
    requires n <= |made|
  {
    if n == 0 then [] else Whole(made, n - 1) + made[n - 1]
  }

  function Flags(made: seq<seq<Change>>, logged: seq<bool>, n: nat): (r: seq<bool>)
    requires n <= |made| == |logged|
    ensures |r| == |Whole(made, n)|
  {
    if n == 0 then [] else Flags(made, logged, n - 1) + seq(|made[n - 1]|, i => logged[n - 1])
  }

  function Changes(y: Story): seq<Change> { Whole(y.made, |y.made|) }

  function Kept(y: Story): seq<bool>
    requires |y.made| == |y.logged|
  {
    Flags(y.made, y.logged, |y.made|)
  }

  lemma TreeStepIsStep(l: Layout, s: Sys, s': Sys, said: Pages, chs: seq<Change>, logged: bool)
    requires TreeStep(l, s, s', said, chs, logged)
    ensures Step(s, s')
  {
    hide Enabled, Next, MakesStep, NodeStep;
  }

  lemma StoryIsRun(l: Layout, y: Story)
    requires TreeRun(l, y)
    ensures Run(y.tr)
  {
    hide Init, TreeStep, Step;
    forall i | 0 < i < |y.tr| ensures Step(y.tr[i - 1], y.tr[i]) {
      assert StoryStep(l, y, i - 1);
      TreeStepIsStep(l, y.tr[i - 1], y.tr[i], y.said[i - 1], y.made[i - 1], y.logged[i - 1]);
    }
  }

  lemma TreeStepChanges(l: Layout, s: Sys, s': Sys, said: Pages, chs: seq<Change>, logged: bool)
    requires TreeStep(l, s, s', said, chs, logged) && Inv(s) && Alike(said, s.pages)
    ensures R.AllNext(l, said, chs) && Alike(R.PagesAfter(said, chs, |chs|), s'.pages)
  {
    hide Enabled, Next, MakesStep, R.AllNext, R.PagesAfter, Inv, Alike;
    if t: nat, act :| ThreadStep(s, s', t, act) && t < |s.threads| && MakesStep(l, s, said, t, act, chs) {
      StepChanges(l, s, said, t, act, chs);
    } else {
      NoChange(l, said);
    }
  }

  /** The changes of a run lead from its first pages to what a full log says of its last ones, and that differs from
      them in rows at most. */
  lemma {:induction false} RunChanges(l: Layout, y: Story, n: nat)
    requires TreeRun(l, y) && n <= |y.made|
    ensures R.AllNext(l, y.tr[0].pages, Whole(y.made, n))
    ensures R.PagesAfter(y.tr[0].pages, Whole(y.made, n), |Whole(y.made, n)|) == y.said[n]
    ensures Alike(y.said[n], y.tr[n].pages) && Inv(y.tr[n])
  {
    hide TreeStep, R.AllNext, R.PagesAfter, Init, Run, Inv;
    StoryIsRun(l, y);
    ReachableIsSafe(y.tr, n);
    if n == 0 { NoChange(l, y.tr[0].pages); }
    else {
      RunChanges(l, y, n - 1);
      assert StoryStep(l, y, n - 1);
      TreeStepChanges(l, y.tr[n - 1], y.tr[n], y.said[n - 1], y.made[n - 1], y.logged[n - 1]);
      AllNextMore(l, y.tr[0].pages, Whole(y.made, n - 1), y.made[n - 1]);
      MoreChanges(l, y.tr[0].pages, Whole(y.made, n - 1), y.made[n - 1], |y.made[n - 1]|);
    }
  }

  /* ---- What the log says of the rows ---- */

  type Rows = map<Key, Bytes>

  function WithRows(m: Rows, p: Page, n: nat): Rows
    requires n <= |p.keys| == |p.vals|
  {
    if n == 0 then m
    else
      var m' := WithRows(m, p, n - 1);
      match p.vals[n - 1] case Row(row) => m'[p.keys[n - 1] := row] case Child(_) => m'
  }

  /** The row that the log last gave each key: a store logs its row, and the new page of a split all its rows. */
  function RowsAfter(m: Rows, chs: seq<Change>, n: nat): Rows
    requires n <= |chs|
  {
    if n == 0 then m
    else
      var m' := RowsAfter(m, chs, n - 1);
      match chs[n - 1]
      case StoreRecord(_, _, k, v, _) => (match v case Row(row) => m'[k := row] case Child(_) => m')
      case CutPage(_, _, _, _) => m'
      case NewPage(_, p, _) => if |p.keys| == |p.vals| then WithRows(m', p, |p.keys|) else m'
  }

  lemma {:induction false} RowsMore(m: Rows, x: seq<Change>, y: seq<Change>, n: nat)
    requires n <= |y|
    ensures RowsAfter(m, x + y, |x| + n) == RowsAfter(RowsAfter(m, x, |x|), y, n)
  {
    if n > 0 { RowsMore(m, x, y, n - 1); } else { RowsSame(m, x, y, |x|); }
  }

  lemma {:induction false} RowsSame(m: Rows, x: seq<Change>, y: seq<Change>, n: nat)
    requires n <= |x|
    ensures RowsAfter(m, x + y, n) == RowsAfter(m, x, n)
  {
    if n > 0 { RowsSame(m, x, y, n - 1); }
  }

  /** The rows of a page. */
  lemma {:induction false} RowsAt(m: Rows, p: Page, n: nat, i: nat)
    requires i < n <= |p.keys| == |p.vals| && Sorted(p.keys) && p.vals[i].Row?
    ensures p.keys[i] in WithRows(m, p, n) && WithRows(m, p, n)[p.keys[i]] == p.vals[i].row
  {
    if i < n - 1 { RowsAt(m, p, n - 1, i); }
  }

  lemma {:induction false} RowsElsewhere(m: Rows, p: Page, n: nat, k: Key)
    requires n <= |p.keys| == |p.vals| && forall i :: 0 <= i < n && p.vals[i].Row? ==> p.keys[i] != k
    ensures k in WithRows(m, p, n) <==> k in m
    ensures k in m ==> WithRows(m, p, n)[k] == m[k]
  {
    if n > 0 { RowsElsewhere(m, p, n - 1, k); }
  }

  /** Page p holds, under each of its keys, the row that m has. */
  ghost predicate PageSays(p: Page, m: Rows) {
    |p.keys| == |p.vals| && forall i :: 0 <= i < |p.keys| ==> p.keys[i] in m && p.vals[i] == Row(m[p.keys[i]])
  }

  ghost predicate Says(said: Pages, m: Rows) {
    forall a :: a in said && said[a].level == 0 ==> PageSays(said[a], m)
  }

  /** A page without the keys whose rows change says the same. */
  ghost predicate Agree(m: Rows, m': Rows, keys: seq<Key>) {
    forall i :: 0 <= i < |keys| && keys[i] in m ==> keys[i] in m' && m'[keys[i]] == m[keys[i]]
  }

  lemma SaysStill(p: Page, m: Rows, m': Rows)
    requires PageSays(p, m) && Agree(m, m', p.keys)
    ensures PageSays(p, m')
  {}

  lemma StoredSays(was: Page, k: Key, row: Bytes, m: Rows)
    requires PageSays(was, m) && k !in was.keys
    ensures PageSays(WithRecord(was, k, Row(row)), m[k := row])
  {
    hide Upper;
    var u, r := Upper(was.keys, k), WithRecord(was, k, Row(row));
    forall i | 0 <= i < |r.keys| ensures r.keys[i] in m[k := row] && r.vals[i] == Row(m[k := row][r.keys[i]]) {
      if i != u {
        var j := if i < u then i else i - 1;
        assert r.keys[i] == was.keys[j] && r.vals[i] == was.vals[j];
        assert was.keys[j] in was.keys;
      }
    }
  }

  lemma CutSays(r: Page, b: Addr, q: Page, m: Rows)
    requires PageSays(r, m) && PageAlike(r, q) && q.level == 0 && Sorted(q.keys) && q.keys != []
    requires forall i :: 0 <= i < |q.vals| ==> q.vals[i].Row?
    ensures var right := SplitRight(q);
            && |right.keys| == |right.vals|
            && PageSays(SplitLeft(r, b), WithRows(m, right, |right.keys|))
            && PageSays(right, WithRows(m, right, |right.keys|))
  {
    var left, right := SplitLeft(r, b), SplitRight(q);
    var h := |q.keys| / 2;
    var m' := WithRows(m, right, |right.keys|);
    hide WithRows;
    forall i | 0 <= i < |right.keys| ensures right.keys[i] in m' && right.vals[i] == Row(m'[right.keys[i]]) {
      SortedSlice(q.keys, h, |q.keys|);
      assert right.keys == q.keys[h..|q.keys|];
      assert right.vals[i] == q.vals[h + i];
      RowsAt(m, right, |right.keys|, i);
    }
    forall i | 0 <= i < |left.keys| ensures left.keys[i] in m' && left.vals[i] == Row(m'[left.keys[i]]) {
      assert left.keys[i] == q.keys[i] && left.vals[i] == r.vals[i];
      forall j | 0 <= j < |right.keys| ensures right.keys[j] != left.keys[i] { assert right.keys[j] == q.keys[h + j]; }
      RowsElsewhere(m, right, |right.keys|, left.keys[i]);
    }
  }

  /** Every key of a page lies in its range, so no other leaf has it. */
  lemma KeysApart(s: Sys, a: Addr, c: Addr, k: Key)
    requires Inv(s) && a in s.pages && c in s.pages && a != c && s.pages[a].level == s.pages[c].level == 0
    requires s.pages[a].Holds(k)
    ensures k !in s.pages[c].keys
  {
    hide RootInv, ThreadsInv, NoneFull, OneOwner, NoneLost, NotLinkedYet;
    assert Linked(s.pages, a) && Linked(s.pages, c) && Apart(s.pages, a, c);
  }

  lemma NotShared(s: Sys, a: Addr, c: Addr, q: Page, i: nat)
    requires Inv(s) && a in s.pages && c in s.pages && a != c && s.pages[a].level == s.pages[c].level == 0
    requires i < |s.pages[c].keys| && forall j :: 0 <= j < |q.keys| ==> s.pages[a].Holds(q.keys[j])
    ensures s.pages[c].keys[i] !in q.keys
  {
    hide Inv;
    forall j | 0 <= j < |q.keys| ensures q.keys[j] != s.pages[c].keys[i] { KeysApart(s, a, c, q.keys[j]); }
  }

  lemma StoredPage(s: Sys, a: Addr, k: Key, row: Bytes)
    requires Inv(s) && a in s.pages && s.pages[a].level == 0 && s.pages[a].Holds(k) && k !in s.pages[a].keys
    ensures |s.pages[a].keys| == |s.pages[a].vals|
    ensures var q := WithRecord(s.pages[a], k, Row(row));
            && Sorted(q.keys) && |q.keys| == |q.vals| && q.keys != [] && q.level == 0
            && (forall i :: 0 <= i < |q.keys| ==> q.vals[i].Row? && s.pages[a].Holds(q.keys[i]))
  {
    hide RootInv, ThreadsInv, OneOwner, NoneLost, NotLinkedYet, Disjoint;
    assert Linked(s.pages, a);
    hide Upper;
    WithRecordOk(s.pages[a], k, Row(row));
  }

  /** The rows that a store logs. */
  function RowsLogged(m: Rows, q: Page, k: Key, row: Bytes): Rows
    requires |q.keys| == |q.vals| && q.keys != [] && q.level == 0
  {
    if Full(q) then WithRows(m[k := row], SplitRight(q), |SplitRight(q).keys|) else m[k := row]
  }

  lemma OnlyThose(m: Rows, q: Page, k: Key, row: Bytes, x: Key)
    requires |q.keys| == |q.vals| && q.keys != [] && q.level == 0 && k in q.keys && x !in q.keys
    ensures x in RowsLogged(m, q, k, row) <==> x in m
    ensures x in m ==> RowsLogged(m, q, k, row)[x] == m[x]
  {
    if Full(q) {
      var right := SplitRight(q);
      forall i | 0 <= i < |right.keys| ensures right.keys[i] != x {
        assert right.keys[i] == q.keys[|q.keys| / 2 + i];
      }
      RowsElsewhere(m[k := row], right, |right.keys|, x);
    }
  }

  lemma FewChanges(l: Layout, p: Page, was: Page, a: Addr, k: Key, row: Bytes, b: Addr, chs: seq<Change>, m: Rows)
    requires MakesPut(l, p, was, a, k, Row(row), b, chs) && k !in p.keys && p.level == 0
    ensures var q := WithRecord(p, k, Row(row));
            q.keys != [] && k in q.keys && RowsAfter(m, chs, |chs|) == RowsLogged(m, q, k, row)
  {
    hide R.ChangeOk, Represents, Upper, WithRows;
    var q := WithRecord(p, k, Row(row));
    assert q.keys[Upper(p.keys, k)] == k;
    assert RowsAfter(m, chs, 0) == m;
    assert RowsAfter(m, chs, 1) == m[k := row];
    if Full(q) {
      assert RowsAfter(m, chs, 2) == m[k := row];
      assert RowsAfter(m, chs, 3) == RowsLogged(m, q, k, row);
    }
  }

  /** A leaf store keeps what the log says of the rows in step with what it says of the pages. */
  lemma PutSays(l: Layout, s: Sys, said: Pages, a: Addr, k: Key, row: Bytes, b: Addr, chs: seq<Change>, m: Rows)
    requires Inv(s) && a in s.pages && s.pages[a].level == 0 && s.pages[a].Holds(k) && b !in s.pages
    requires Alike(said, s.pages) && Says(said, m) && MakesPut(l, s.pages[a], said[a], a, k, Row(row), b, chs)
    ensures R.AllFit(chs) && Says(R.PagesAfter(said, chs, |chs|), RowsAfter(m, chs, |chs|))
  {
    hide R.ChangeOk, Represents, Inv, R.PagesAfter, Full, Upper, WithRows, RowsAfter, WithRecord, RowsLogged, MakesPut,
         SplitLeft, SplitRight, R.Fits;
    if k in s.pages[a].keys { NothingPut(l, s.pages[a], said[a], a, k, row, b, chs, said, m); }
    else {
      var p := s.pages[a];
      FreshChanges(l, said, a, k, Row(row), b, chs, p);
      StoredPage(s, a, k, row);
      var q, r := WithRecord(p, k, Row(row)), WithRecord(said[a], k, Row(row));
      FewChanges(l, p, said[a], a, k, row, b, chs, m);
      var m' := RowsLogged(m, q, k, row);
      ChangedSay(said[a], p, k, row, b, m);
      forall c | c in said && c != a && said[c].level == 0 ensures PageSays(said[c], m') {
        forall i | 0 <= i < |said[c].keys| && said[c].keys[i] in m
          ensures said[c].keys[i] in m' && m'[said[c].keys[i]] == m[said[c].keys[i]]
        {
          NotShared(s, a, c, q, i);
          OnlyThose(m, q, k, row, said[c].keys[i]);
        }
        SaysStill(said[c], m, m');
      }
    }
  }

  lemma NothingPut(l: Layout, p: Page, was: Page, a: Addr, k: Key, row: Bytes, b: Addr, chs: seq<Change>, said: Pages,
                   m: Rows)
    requires MakesPut(l, p, was, a, k, Row(row), b, chs) && k in p.keys
    ensures chs == [] && R.AllFit(chs) && R.PagesAfter(said, chs, |chs|) == said && RowsAfter(m, chs, |chs|) == m
  {
    hide Upper;
  }

  lemma ChangedSay(was: Page, p: Page, k: Key, row: Bytes, b: Addr, m: Rows)
    requires PageSays(was, m) && PageAlike(was, p) && p.level == 0 && |p.keys| == |p.vals| && k !in p.keys
    requires var q := WithRecord(p, k, Row(row));
             Sorted(q.keys) && q.keys != [] && forall i :: 0 <= i < |q.keys| ==> q.vals[i].Row?
    ensures var q, r := WithRecord(p, k, Row(row)), WithRecord(was, k, Row(row));
            && r.keys != []
            && var m' := RowsLogged(m, q, k, row);
               if Full(q) then PageSays(SplitLeft(r, b), m') && PageSays(SplitRight(q), m') else PageSays(r, m')
  {
    var q, r := WithRecord(p, k, Row(row)), WithRecord(was, k, Row(row));
    StoredSays(was, k, row, m);
    PutAlike(was, p, k, Row(row), b);
    hide Upper, WithRecord, WithRows;
    if Full(q) { CutSays(r, b, q, m[k := row]); }
  }

  lemma StepSays(l: Layout, s: Sys, said: Pages, t: nat, act: Action, chs: seq<Change>, m: Rows)
    requires Inv(s) && Enabled(s, t, act) && Alike(said, s.pages) && MakesStep(l, s, said, t, act, chs) && Says(said, m)
    ensures R.AllFit(chs) && Says(R.PagesAfter(said, chs, |chs|), RowsAfter(m, chs, |chs|))
  {
    hide R.ChangeOk, MakesPut, Linked, Put, AfterPutLeaf, AfterPutInternal, AfterRead,
         AfterReadLeaf, AfterReadProbe, Missed, Tree, RootInv, OneOwner, Alike, Says, R.Fits;
    var pc := s.threads[t].pc;
    match act {
      case PutLeaf(b) =>
        if s.pages[pc.cur].Holds(pc.k) { PutSays(l, s, said, pc.cur, pc.k, pc.goal.row, b, chs, m); }
      case PutInternal(b) =>
        assert ThreadOk(s.pages, s.threads[t]);
        LinkedPage(s.pages, pc.cur);
        if s.pages[pc.cur].Holds(pc.sep) { PostSays(l, s, said, pc.cur, pc.sep, pc.child, b, chs, m); }
      case GrowBuild(r) => RootSays(said, chs, m);
      case _ =>
    }
  }

  lemma PostSays(l: Layout, s: Sys, said: Pages, a: Addr, k: Key, c: Addr, b: Addr, chs: seq<Change>, m: Rows)
    requires a in s.pages && s.pages[a].level > 0 && PageOk(s.pages[a]) && b !in s.pages && Alike(said, s.pages)
    requires Says(said, m) && MakesPut(l, s.pages[a], said[a], a, k, Child(c), b, chs)
    ensures R.AllFit(chs) && Says(R.PagesAfter(said, chs, |chs|), RowsAfter(m, chs, |chs|))
  {
    hide R.ChangeOk, Represents, Upper, R.PagesAfter;
    var p := s.pages[a];
    FreshChanges(l, said, a, k, Child(c), b, chs, p);
    assert RowsAfter(m, chs, 1) == RowsAfter(m, chs, 0) == m;
    if Full(WithRecord(p, k, Child(c))) {
      assert RowsAfter(m, chs, 2) == m;
      NoRows(m, SplitRight(WithRecord(p, k, Child(c))), |SplitRight(WithRecord(p, k, Child(c))).keys|);
    }
  }

  lemma {:induction false} NoRows(m: Rows, p: Page, n: nat)
    requires n <= |p.keys| == |p.vals| && forall i :: 0 <= i < |p.vals| ==> p.vals[i].Child?
    ensures WithRows(m, p, n) == m
  {
    if n > 0 { NoRows(m, p, n - 1); }
  }

  lemma RootSays(said: Pages, chs: seq<Change>, m: Rows)
    requires |chs| == 1 && chs[0].NewPage? && chs[0].page.level > 0 && Says(said, m)
    requires |chs[0].page.keys| == |chs[0].page.vals|
    requires forall i :: 0 <= i < |chs[0].page.vals| ==> chs[0].page.vals[i].Child?
    ensures R.AllFit(chs) && Says(R.PagesAfter(said, chs, |chs|), RowsAfter(m, chs, |chs|))
  {
    NoRows(m, chs[0].page, |chs[0].page.keys|);
    assert RowsAfter(m, chs, 0) == m && R.PagesAfter(said, chs, 0) == said;
  }

  lemma TreeStepSays(l: Layout, s: Sys, s': Sys, said: Pages, chs: seq<Change>, logged: bool, m: Rows)
    requires TreeStep(l, s, s', said, chs, logged) && Inv(s) && Alike(said, s.pages) && Says(said, m)
    ensures R.AllFit(chs) && Says(R.PagesAfter(said, chs, |chs|), RowsAfter(m, chs, |chs|))
  {
    hide Enabled, Next, MakesStep, Inv, Alike, Says;
    if t: nat, act :| ThreadStep(s, s', t, act) && t < |s.threads| && MakesStep(l, s, said, t, act, chs) {
      StepSays(l, s, said, t, act, chs, m);
    }
  }

  /** In every state of a run, a full log says of every row what it last said of it. */
  lemma {:induction false} RunSays(l: Layout, y: Story, n: nat)
    requires TreeRun(l, y) && n <= |y.made|
    ensures Says(y.said[n], RowsAfter(map[], Whole(y.made, n), |Whole(y.made, n)|))
  {
    hide TreeStep, R.PagesAfter, Run, Inv, Says, RowsAfter, Alike;
    if n == 0 { assert Says(y.said[0], RowsAfter(map[], [], 0)) by { NothingSaid(y); } }
    else {
      RunSays(l, y, n - 1);
      RunChanges(l, y, n - 1);
      assert StoryStep(l, y, n - 1);
      var x := Whole(y.made, n - 1);
      TreeStepSays(l, y.tr[n - 1], y.tr[n], y.said[n - 1], y.made[n - 1], y.logged[n - 1], RowsAfter(map[], x, |x|));
      RowsMore(map[], x, y.made[n - 1], |y.made[n - 1]|);
    }
  }

  lemma NothingSaid(y: Story)
    requires |y.said| > 0 && |y.tr| > 0 && Init(y.tr[0]) && y.said[0] == y.tr[0].pages
    ensures Says(y.said[0], RowsAfter(map[], [], 0))
  {}

  /** Every row of the tree is as m has it. */
  ghost predicate AsLogged(s: Sys, m: Rows) {
    forall x {:trigger HasRow(s, x)} :: HasRow(s, x) ==> x in m && Contents(s, x) == Some(m[x])
  }

  /** What the log says of the pages is the pages exactly when it says of every row what the row is. */
  lemma SameIffAsLogged(s: Sys, said: Pages, m: Rows)
    requires Inv(s) && Alike(said, s.pages) && Says(said, m)
    ensures said == s.pages <==> AsLogged(s, m)
  {
    hide Inv, View;
    if said == s.pages {
      forall x {:trigger HasRow(s, x)} | HasRow(s, x) ensures x in m && Contents(s, x) == Some(m[x]) {
        var a, i := RowAt(s, x);
      }
    }
    if AsLogged(s, m) {
      forall a | a in said ensures said[a] == s.pages[a] {
        if said[a].level == 0 {
          forall i | 0 <= i < |said[a].vals| ensures said[a].vals[i] == s.pages[a].vals[i] { RowIsThere(s, a, i); }
          assert said[a].vals == s.pages[a].vals;
        }
      }
    }
  }

  lemma RowAt(s: Sys, x: Key) returns (a: Addr, i: nat)
    requires HasRow(s, x)
    ensures a in s.pages && s.pages[a].level == 0 && i < |s.pages[a].keys| == |s.pages[a].vals| &&
            s.pages[a].keys[i] == x
    ensures s.pages[a].vals[i].Row? && Contents(s, x) == Some(s.pages[a].vals[i].row)
  {
    hide RootInv, ThreadsInv, NoneFull, OneOwner, NoneLost, NotLinkedYet, Upper;
    a := Descend(s.pages, s.top, x);
    assert Linked(s.pages, a);
    i := Find(s.pages[a].keys, x).value;
  }

  lemma RowIsThere(s: Sys, a: Addr, i: nat)
    requires Inv(s) && a in s.pages && s.pages[a].level == 0 && i < |s.pages[a].vals|
    ensures |s.pages[a].keys| == |s.pages[a].vals| && s.pages[a].vals[i].Row?
    ensures HasRow(s, s.pages[a].keys[i]) && Contents(s, s.pages[a].keys[i]) == Some(s.pages[a].vals[i].row)
  {
    hide RootInv, ThreadsInv, NoneFull, OneOwner, NoneLost, NotLinkedYet, Upper;
    assert Linked(s.pages, a);
    FindAt(s.pages[a].keys, s.pages[a].keys[i], i);
    ViewAt(s.pages, s.top, a, s.pages[a].keys[i]);
  }

  /** Every step that changed a page had a redo logger. */
  ghost predicate AllStepsLogged(made: seq<seq<Change>>, logged: seq<bool>)
    requires |made| == |logged|
  {
    forall i :: 0 <= i < |made| && made[i] != [] ==> logged[i]
  }

  lemma {:induction false} FlagsOfSteps(made: seq<seq<Change>>, logged: seq<bool>, n: nat)
    requires n <= |made| == |logged|
    ensures AllTrue(Flags(made, logged, n)) <==> forall i :: 0 <= i < n && made[i] != [] ==> logged[i]
  {
    if n > 0 {
      hide AllTrue;
      FlagsOfSteps(made, logged, n - 1);
      AllOfBoth(Flags(made, logged, n - 1), seq(|made[n - 1]|, i => logged[n - 1]));
      AllOfSame(|made[n - 1]|, logged[n - 1]);
    } else {
      assert Flags(made, logged, n) == [];
    }
  }

  lemma AllOfSame(n: nat, b: bool)
    ensures AllTrue(seq(n, i => b)) <==> n == 0 || b
  {
    if n > 0 { assert seq(n, i => b)[0] == b; }
  }

  lemma AllOfBoth(x: seq<bool>, y: seq<bool>)
    ensures AllTrue(x + y) <==> AllTrue(x) && AllTrue(y)
  {
    if AllTrue(x + y) {
      forall i | 0 <= i < |x| ensures x[i] { assert (x + y)[i] == x[i]; }
      forall i | 0 <= i < |y| ensures y[i] { assert (x + y)[|x| + i] == y[i]; }
    }
  }

  /** The history h is what the run logged, over any number of streams, and the replica starts with the first page. */
  ghost predicate LogOfRun(l: Layout, y: Story, h: History) {
    && TreeRun(l, y) && LayoutOk(l)
    && IsKeptLog(l, y.tr[0].pages, Changes(y), Kept(y), h) && StartsWith(l, y.tr[0].pages, Changes(y), h)
  }

  /** The last pages of the run, what a full log says of them, and of their rows. */
  function Ends(y: Story): Sys
    requires |y.tr| > 0
  {
    y.tr[|y.tr| - 1]
  }

  function SaidAtEnd(y: Story): Pages
    requires |y.said| > 0
  {
    y.said[|y.said| - 1]
  }

  function RowsAtEnd(y: Story): Rows { RowsAfter(map[], Changes(y), |Changes(y)|) }

  lemma EndOfRun(l: Layout, y: Story)
    requires TreeRun(l, y)
    ensures R.AllNext(l, y.tr[0].pages, Changes(y)) && Inv(Ends(y)) && Alike(SaidAtEnd(y), Ends(y).pages)
    ensures R.PagesAfter(y.tr[0].pages, Changes(y), |Changes(y)|) == SaidAtEnd(y)
    ensures SaidAtEnd(y) == Ends(y).pages <==> AsLogged(Ends(y), RowsAtEnd(y))
  {
    hide StoryStep, R.AllNext, R.PagesAfter, Init, Whole, RowsAfter, Inv, Alike, AsLogged, Says;
    RunChanges(l, y, |y.made|);
    RunSays(l, y, |y.made|);
    SameIffAsLogged(Ends(y), SaidAtEnd(y), RowsAtEnd(y));
  }

  /** Replication, exactly: take any run of the tree by any threads and any spread of its log over streams. Some run of
      the replayer ends with every page of the tree if and only if every change of the tree was logged, and every row is
      as it was last logged. */
  lemma TreeIsReplicated(l: Layout, y: Story, h: History, streams: nat)
    requires LogOfRun(l, y, h) && Spread(h, streams)
    ensures AllStepsLogged(y.made, y.logged) && AsLogged(Ends(y), RowsAtEnd(y)) <==>
            exists rt: seq<State>, n :: Replays(h, streams, rt) && 0 <= n < |rt| &&
              Mirrors(l, rt[n].store, Ends(y).pages)
  {
    hide StoryStep, Init, IsKeptLog, StartsWith, LayoutOk, R.PagesAfter, R.AllNext, Mirrors, Replays, Flags, Whole,
         AllTrue, AsLogged, Alike, RowsAfter, Inv;
    EndOfRun(l, y);
    FlagsOfSteps(y.made, y.logged, |y.made|);
    MirroredIffLogged(l, y.tr[0].pages, Changes(y), Kept(y), h, streams, Ends(y).pages);
  }

  /** And it does not matter which: every run of the replayer, under any schedule, that has replayed the whole log of a
      fully logged run ends with every page as the log says it; so it ends with the tree exactly when every row is as it
      was last logged. */
  lemma EveryReplayMirrors(l: Layout, y: Story, h: History, streams: nat, rt: seq<State>, n: nat)
    requires LogOfRun(l, y, h) && AllStepsLogged(y.made, y.logged)
    requires Replays(h, streams, rt) && n < |rt| && AllReplayed(h, rt[n])
    ensures Mirrors(l, rt[n].store, SaidAtEnd(y))
    ensures Mirrors(l, rt[n].store, Ends(y).pages) <==> AsLogged(Ends(y), RowsAtEnd(y))
  {
    hide StoryStep, Init, IsKeptLog, StartsWith, LayoutOk, R.PagesAfter, R.AllNext, Mirrors, Replays, Flags, Whole,
         R.IsLogOf, AllReplayed, AsLogged, Alike, RowsAfter, Inv, Spread;
    EndOfRun(l, y);
    LoggedRunIsLog(l, y, h);
    CompleteRunMirrors(l, y.tr[0].pages, Changes(y), h, streams, rt, n);
    if Mirrors(l, rt[n].store, Ends(y).pages) {
      MirroredIsSame(l, y.tr[0].pages, Changes(y), h, streams, rt, n, Ends(y).pages);
    }
  }

  lemma LoggedRunIsLog(l: Layout, y: Story, h: History)
    requires LogOfRun(l, y, h) && AllStepsLogged(y.made, y.logged)
    ensures R.IsLogOf(l, y.tr[0].pages, Changes(y), h)
  {
    hide StoryStep, Init, IsKeptLog, StartsWith, LayoutOk, R.AllNext, Flags, Whole, R.IsLogOf, AllTrue;
    FlagsOfSteps(y.made, y.logged, |y.made|);
    AllKeptIsLog(l, y.tr[0].pages, Changes(y), Kept(y), h);
  }

  /** Whether or not the log has holes, it can be replayed to its end exactly when no page has a logged change after an
      unlogged one. */
  lemma TreeLogCompletes(l: Layout, y: Story, h: History, streams: nat)
    requires LogOfRun(l, y, h) && Spread(h, streams)
    ensures GapFree(Changes(y), Kept(y)) <==>
            exists rt: seq<State>, n :: Replays(h, streams, rt) && 0 <= n < |rt| && AllReplayed(h, rt[n])
  {
    hide StoryStep, Init, IsKeptLog, StartsWith, LayoutOk, R.AllNext, Replays, Flags, Whole, AllReplayed, GapFree,
         UpToDate, StartsBelow;
    var ps, chs, kept := y.tr[0].pages, Changes(y), Kept(y);
    KeptLengths(l, ps, chs, kept, h);
    StartIsUpToDate(l, ps, chs, kept, h);
    CompleteIffNoGap(l, ps, chs, kept, h, streams);
  }

  /** And the log of a fully logged run never asks for a version out of turn. */
  lemma TreeLogIsHistory(l: Layout, y: Story, h: History)
    requires LogOfRun(l, y, h) && AllStepsLogged(y.made, y.logged)
    ensures HistoryOk(h)
  {
    hide StoryStep, Init, IsKeptLog, StartsWith, LayoutOk, Flags, Whole, R.IsLogOf;
    LoggedRunIsLog(l, y, h);
    R.LogIsHistory(l, y.tr[0].pages, Changes(y), h);
  }

  /* ---- When a change is not logged ---- */

  /** A row written over another one changes neither the version nor the log. A replica that represents the leaf before
      represents it afterwards exactly when the two rows are the same. */
  lemma OverwriteOnReplica(l: Layout, b: Image, p: Page, k: Key, row: Bytes)
    requires LayoutOk(l) && Represents(l, b, p) && LeafShape(p) && Sorted(p.keys) && k in p.keys
    ensures LeafPut(p, k, row).version == p.version
    ensures Represents(l, b, LeafPut(p, k, row)) <==> Get(p, k) == Some(row)
  {
    hide LayoutOk, HeaderIs, RangeIs, Records, Upper;
    FindComplete(p.keys, k);
    var i := Find(p.keys, k).value;
    var q := LeafPut(p, k, row);
    var s := Records(b, RecBase(l), RecSize(l, 0), |p.keys|);
    RowIs(l, s, p.keys, p.vals, i);
    if Represents(l, b, q) { RowIs(l, s, q.keys, q.vals, i); }
    if Get(p, k) == Some(row) { assert q.vals == p.vals; assert q == p; }
  }

  lemma RowIs(l: Layout, s: seq<Bytes>, keys: seq<Key>, vals: seq<Val>, i: nat)
    requires LayoutOk(l) && RecordsAre(l, 0, s, keys, vals) && i < |s|
    ensures vals[i] == Row(s[i])
  {
    assert RecordIs(l, 0, s[i], keys[i], vals[i]);
  }

  /** In a run: after an overwrite in a tree whose rows were all as logged, they still are exactly when the row is the
      old one. */
  lemma OverwriteGoesStale(l: Layout, s: Sys, said: Pages, t: nat, b: Addr, chs: seq<Change>, m: Rows)
    requires Inv(s) && Enabled(s, t, PutLeaf(b)) && StoresRow(s, t, PutLeaf(b)) && AsLogged(s, m)
    requires MakesStep(l, s, said, t, PutLeaf(b), chs) && s.threads[t].pc.k in s.pages[s.threads[t].pc.cur].keys
    ensures chs == [] && Inv(Next(s, t, PutLeaf(b))) && HasRow(s, s.threads[t].pc.k)
    ensures AsLogged(Next(s, t, PutLeaf(b)), RowsAfter(m, chs, |chs|)) <==>
            Contents(s, s.threads[t].pc.k) == Some(s.threads[t].pc.goal.row)
  {
    hide Inv, View, R.ChangeOk, Represents, Linked, Next;
    var s', pc := Next(s, t, PutLeaf(b)), s.threads[t].pc;
    LeafListsRows(s, pc.cur, pc.k);
    ActionMeaning(s, t, PutLeaf(b), pc.k);
    forall x | MIN_KEY <= x < MAX_KEY ensures x != pc.k ==> Contents(s', x) == Contents(s, x) {
      ActionMeaning(s, t, PutLeaf(b), x);
    }
    if Contents(s, pc.k) == Some(pc.goal.row) {
      forall x {:trigger HasRow(s', x)} | HasRow(s', x) ensures x in m && Contents(s', x) == Some(m[x]) {
        assert HasRow(s, x);
      }
    } else {
      assert HasRow(s', pc.k);
    }
  }

  /** And a split logs the rows of its right half again, as they are; those of the left half stay as logged before. */
  lemma SplitLogsRight(m: Rows, q: Page, k: Key, row: Bytes, i: nat)
    requires PageOk(q) && q.level == 0 && Full(q) && i < |q.keys|
    ensures i >= |q.keys| / 2 ==>
              q.keys[i] in RowsLogged(m, q, k, row) && q.vals[i] == Row(RowsLogged(m, q, k, row)[q.keys[i]])
    ensures i < |q.keys| / 2 && q.keys[i] != k && q.keys[i] in m ==>
              q.keys[i] in RowsLogged(m, q, k, row) && RowsLogged(m, q, k, row)[q.keys[i]] == m[q.keys[i]]
  {
    hide WithRows;
    var h, right := |q.keys| / 2, SplitRight(q);
    SortedSlice(q.keys, h, |q.keys|);
    assert right.keys == q.keys[h..|q.keys|];
    if i >= h { RowsAt(m[k := row], right, |right.keys|, i - h); }
    else {
      forall j | 0 <= j < |right.keys| ensures right.keys[j] != q.keys[i] { assert right.keys[j] == q.keys[h + j]; }
      RowsElsewhere(m[k := row], right, |right.keys|, q.keys[i]);
    }
  }

  /** One change without a redo logger and a later logged change of the same page: no run of the replayer ever replays
      that log to its end, none ever replays the later record, and none ever holds that page again. */
  lemma UnloggedThenLogged(l: Layout, y: Story, h: History, streams: nat, rt: seq<State>, n: nat, i: nat, j: nat)
    requires LogOfRun(l, y, h) && Replays(h, streams, rt) && n < |rt|
    requires i < j < |Changes(y)| && Changes(y)[i].addr == Changes(y)[j].addr && !Kept(y)[i] && Kept(y)[j]
    ensures !AllReplayed(h, rt[n])
    ensures var a := Changes(y)[i].addr;
            && Logged(Kept(y), j) < |h.recs| && StreamsOk(h, rt[n]) && !Done(h, rt[n], Logged(Kept(y), j))
            && a in Ends(y).pages && a in rt[n].store && Version(rt[n].store[a]) < Ends(y).pages[a].version
  {
    hide StoryStep, Init, LayoutOk, R.AllNext, Replays, Flags, Whole, AllReplayed, StartsBelow, R.ChangeOk, R.After,
         Missing, R.RecordOf, KeptRecords, AllChangesOk, StartsWith, UpToDate, AsLogged, RowsAfter, Inv, R.PagesAfter;
    var ps, chs, kept := y.tr[0].pages, Changes(y), Kept(y);
    EndOfRun(l, y);
    StartIsUpToDate(l, ps, chs, kept, h);
    UnloggedIsMissing(l, ps, chs, kept, h, i);
    ChangeVersion(l, ps, chs, i);
    ChangeVersion(l, ps, chs, j);
    ChangesGrow(chs, i, j, chs[i].addr);
    KeptAt(l, chs, kept, |chs|, j);
    RunStreams(h, streams, rt, n);
    BehindGapIsNeverDone(h, streams, rt, n, Logged(kept, j), R.After(chs[i]).version);
    GapIsNeverComplete(h, streams, rt, n, Logged(kept, j), R.After(chs[i]).version);
    NeverRepresents(l, ps, chs, kept, h, streams, rt, n, i);
  }

  /** The tree's first page has version 1 and was never logged. On a replica where its place is blank, a log can be
      replayed to its end exactly when it has no record of that page and no gap elsewhere. */
  lemma BlankFirstPage(l: Layout, y: Story, h: History, streams: nat)
    requires TreeRun(l, y) && Spread(h, streams) && IsKeptLog(l, y.tr[0].pages, Changes(y), Kept(y), h)
    requires StartsBelow(y.tr[0].pages, Changes(y), h)
    requires y.tr[0].entry in h.start && Version(h.start[y.tr[0].entry]) == 0
    ensures var chs, kept := Changes(y), Kept(y);
            (GapFree(chs, kept) && forall i :: 0 <= i < |chs| && kept[i] ==> chs[i].addr != y.tr[0].entry) <==>
            exists rt: seq<State>, n :: Replays(h, streams, rt) && 0 <= n < |rt| && AllReplayed(h, rt[n])
  {
    hide StoryStep, R.AllNext, Replays, Flags, Whole, AllReplayed, GapFree, IsKeptLog, Version;
    var ps, chs, kept := y.tr[0].pages, Changes(y), Kept(y);
    KeptLengths(l, ps, chs, kept, h);
    CompleteIffNoGap(l, ps, chs, kept, h, streams);
    forall i | 0 <= i < |chs| && chs[i].addr != y.tr[0].entry
      ensures chs[i].addr in h.start && Version(h.start[chs[i].addr]) == Base(ps, chs[i].addr) {
      ChangePlaced(l, ps, chs, h, i);
    }
    assert Base(ps, y.tr[0].entry) == 1;
  }
}
