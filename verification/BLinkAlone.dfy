/** Where a thread comes to while the others stand still: along its level to the page of its key, by right turns, and
    down from there. It may be any state of any run; siblings may wait for their separators. */
module BLinkAlone {
  import opened Options
  import opened BLinkPage
  import opened BLinkTree
  import opened BLinkSystem
  import opened BLinkSafety
  import opened BLinkRuns
  import opened BLinkLogger
  import opened BLinkSolo

  /* ---- Right turns ---- */

  /** The number of right turns from a page to the one of its level that holds k. */
  function Hops(ps: Pages, a: Addr, k: Key): nat
    requires AllLinked(ps) && a in ps && ps[a].lowest <= k < MAX_KEY
    decreases MAX_KEY - ps[a].lowest
  {
    assert Linked(ps, a);
    if k < ps[a].highest then 0
    else
      assert Linked(ps, ps[a].sibling);
      1 + Hops(ps, ps[a].sibling, k)
  }

  lemma {:induction false} HopsMonotone(ps: Pages, a: Addr, k: Key, x: Key)
    requires AllLinked(ps) && a in ps && ps[a].lowest <= k <= x < MAX_KEY
    ensures Hops(ps, a, k) <= Hops(ps, a, x)
    decreases MAX_KEY - ps[a].lowest
  {
    assert Linked(ps, a);
    if k >= ps[a].highest {
      assert Linked(ps, ps[a].sibling);
      HopsMonotone(ps, ps[a].sibling, k, x);
    }
  }

  /** The key that a thread turns right by. */
  function KeyOf(pc: Pc): Key {
    match pc
    case Search(k, _, _) => k
    case AtLeaf(k, _, _) => k
    case Post(sep, _, _, _, _) => sep
    case Probe(_, _, _, probe, _) => probe
    case _ => MIN_KEY
  }

  /** The same work at another page. */
  function AtPage(pc: Pc, a: Addr): Pc {
    match pc
    case Search(k, goal, _) => Search(k, goal, a)
    case AtLeaf(k, goal, _) => AtLeaf(k, goal, a)
    case Post(sep, child, target, origin, _) => Post(sep, child, target, origin, a)
    case Probe(sep, child, target, probe, _) => Probe(sep, child, target, probe, a)
    case _ => pc
  }

  /** The action with which a thread takes up its page. */
  predicate TakesUp(pc: Pc, act: Action) {
    match act
    case Read => pc.Search?
    case ReadLeaf => pc.AtLeaf? && pc.goal.Lookup?
    case PutLeaf(_) => pc.AtLeaf? && pc.goal.Upsert?
    case PutInternal(_) => pc.Post?
    case ReadProbe => pc.Probe?
    case _ => false
  }

  /** The thread is at a page that starts at or before its key, and can take it up. */
  ghost predicate AtWork(s: Sys, t: nat, act: Action) {
    && Inv(s) && t < |s.threads| && AllLinked(s.pages)
    && var pc := s.threads[t].pc;
       && TakesUp(pc, act) && CurOf(pc) in s.pages && s.pages[CurOf(pc)].lowest <= KeyOf(pc) < MAX_KEY
       && (pc.Search? ==> s.pages[CurOf(pc)].level > 0)
       && (act.PutLeaf? || act.PutInternal? ==> act.spare !in s.pages && act.spare != NULL)
  }

  lemma CanTakeUp(s: Sys, t: nat, act: Action)
    requires AtWork(s, t, act)
    requires act.ReadLeaf? && s.pages[CurOf(s.threads[t].pc)].Holds(KeyOf(s.threads[t].pc)) ==>
               s.pages[CurOf(s.threads[t].pc)].keys != []
    ensures Enabled(s, t, act)
  {
    AtLevel(s, t);
    IsRunning(s, t);
    hide Inv;
    assert Linked(s.pages, CurOf(s.threads[t].pc));
    hide Linked;
  }

  lemma IsRunning(s: Sys, t: nat)
    requires Inv(s) && t < |s.threads|
    ensures Running(s, t)
  {
    hide TreeInv, ThreadsInv, HeightsOk, CacheOk, Swinging;
  }

  /** The level of a thread's page. */
  lemma AtLevel(s: Sys, t: nat)
    requires Inv(s) && t < |s.threads|
    ensures var pc := s.threads[t].pc;
            && (pc.AtLeaf? ==> pc.cur in s.pages && s.pages[pc.cur].level == 0 && MIN_KEY <= pc.k < MAX_KEY)
            && (pc.Post? ==> pc.cur in s.pages && s.pages[pc.cur].level == pc.target > 0)
            && (pc.Probe? ==> pc.cur in s.pages && s.pages[pc.cur].level == pc.target + 1)
  {
    hide TreeInv, RootInv;
    assert ThreadOk(s.pages, s.threads[t]);
  }

  /** The thread after a right turn. */
  function ToSibling(th: Thread, p: Page): Thread {
    Thread(th.node, th.path[p.level := CurOf(th.pc)], th.logging, th.turns + 1, AtPage(th.pc, p.sibling))
  }

  lemma SearchTurns(s: Sys, t: nat)
    requires Enabled(s, t, Read) && s.threads[t].turns <= 4 && s.pages[s.threads[t].pc.cur].level > 0
    requires s.pages[s.threads[t].pc.cur].highest <= s.threads[t].pc.k
    ensures Next(s, t, Read) ==
            s.(threads := s.threads[t := ToSibling(s.threads[t], s.pages[s.threads[t].pc.cur])])
  {
    hide Linked, Down, InternalShape;
  }

  lemma LeafTurns(s: Sys, t: nat)
    requires Enabled(s, t, ReadLeaf) && s.threads[t].turns <= 4
    requires s.pages[s.threads[t].pc.cur].highest <= s.threads[t].pc.k
    ensures Next(s, t, ReadLeaf) ==
            s.(threads := s.threads[t := ToSibling(s.threads[t], s.pages[s.threads[t].pc.cur])])
  {
    hide Linked, Backed, Get, LeafShape;
  }

  lemma RowTurns(s: Sys, t: nat, b: Addr)
    requires Enabled(s, t, PutLeaf(b)) && s.threads[t].turns <= 4
    requires s.pages[s.threads[t].pc.cur].highest <= s.threads[t].pc.k
    ensures Next(s, t, PutLeaf(b)) ==
            s.(threads := s.threads[t := ToSibling(s.threads[t], s.pages[s.threads[t].pc.cur])])
  {
    LinkedPage(s.pages, s.threads[t].pc.cur);
    hide PageOk, Linked, Placed, StoreIn, Backed, AfterPut;
  }

  lemma PostTurns(s: Sys, t: nat, b: Addr)
    requires Enabled(s, t, PutInternal(b)) && s.threads[t].turns <= 4
    requires s.pages[s.threads[t].pc.cur].highest <= s.threads[t].pc.sep
    ensures Next(s, t, PutInternal(b)) ==
            s.(threads := s.threads[t := ToSibling(s.threads[t], s.pages[s.threads[t].pc.cur])])
  {
    LinkedPage(s.pages, s.threads[t].pc.cur);
    hide PageOk, Linked, Placed, StoreIn, Missed, AfterPut;
  }

  lemma ProbeTurns(s: Sys, t: nat)
    requires Enabled(s, t, ReadProbe) && s.threads[t].turns <= 4
    requires s.pages[s.threads[t].pc.cur].highest <= s.threads[t].pc.probe
    ensures Next(s, t, ReadProbe) ==
            s.(threads := s.threads[t := ToSibling(s.threads[t], s.pages[s.threads[t].pc.cur])])
  {
    hide Linked, Route, InternalShape;
  }

  /** A page that ends at or before the key sends the thread on to its sibling, while it has turns left. */
  lemma TurnsRight(s: Sys, t: nat, act: Action)
    requires AtWork(s, t, act) && Enabled(s, t, act) && s.threads[t].turns <= 4
    requires s.pages[CurOf(s.threads[t].pc)].highest <= KeyOf(s.threads[t].pc)
    ensures Next(s, t, act) ==
            s.(threads := s.threads[t := ToSibling(s.threads[t], s.pages[CurOf(s.threads[t].pc)])])
  {
    hide Inv, AllLinked, Enabled, Next, ToSibling;
    match act {
      case Read => SearchTurns(s, t);
      case ReadLeaf => LeafTurns(s, t);
      case PutLeaf(b) => RowTurns(s, t, b);
      case PutInternal(b) => PostTurns(s, t, b);
      case ReadProbe => ProbeTurns(s, t);
    }
  }

  /** The steps from the end of one run to the end of a longer one are this action of thread t, over and over. */
  ghost predicate Repeats(tr: seq<Sys>, us: seq<Sys>, t: nat, act: Action) {
    |tr| > 0 && tr <= us && forall i :: |tr| <= i < |us| ==> ThreadStep(us[i - 1], us[i], t, act)
  }

  lemma RepeatsOn(tr: seq<Sys>, us: seq<Sys>, vs: seq<Sys>, t: nat, act: Action)
    requires Repeats(tr, us, t, act) && Repeats(us, vs, t, act)
    ensures Repeats(tr, vs, t, act)
  {
    hide ThreadStep;
    forall i | |tr| <= i < |vs| ensures ThreadStep(vs[i - 1], vs[i], t, act) {
      if i < |us| { assert vs[i - 1] == us[i - 1] && vs[i] == us[i]; }
    }
  }

  lemma ActsOnce(tr: seq<Sys>, t: nat, act: Action) returns (us: seq<Sys>)
    requires |tr| > 0 && Run(tr) && Enabled(Last(tr), t, act)
    ensures |us| == |tr| + 1 && Run(us) && Last(us) == Next(Last(tr), t, act) && Inv(Last(us)) &&
            Repeats(tr, us, t, act)
  {
    hide Run, Inv, Enabled, Next;
    us := Acts(tr, t, act);
    assert us[|tr| - 1] == Last(tr);
    assert ThreadStep(Last(tr), Last(us), t, act);
  }

  /** The pages and all other threads are as they were, and thread t works on as before at a page n right turns on. */
  ghost predicate WentRight(s: Sys, s': Sys, t: nat, act: Action, n: nat)
    requires AtWork(s, t, act) && AtWork(s', t, act)
  {
    && OnlyThread(s, s', t)
    && var th, th' := s.threads[t], s'.threads[t];
       var a, b, k := CurOf(th.pc), CurOf(th'.pc), KeyOf(th.pc);
       && th'.pc == AtPage(th.pc, b) && th'.node == th.node && th'.logging == th.logging && th'.turns == th.turns + n
       && s.pages[b].level == s.pages[a].level && MoveRight(s.pages, b, k) == MoveRight(s.pages, a, k)
       && Hops(s.pages, b, k) + n == Hops(s.pages, a, k)
       && SamePath(th.path, th'.path, s.pages[a].level)
  }

  /** The two paths agree on every level but this one. */
  ghost predicate SamePath(path: map<nat, Addr>, path': map<nat, Addr>, level: nat) {
    forall l :: l != level ==> (l in path' <==> l in path) && (l in path ==> path'[l] == path[l])
  }

  /** As long as it has turns left, every action of a thread before the page of its key is one right turn. */
  lemma {:induction false} Turns(tr: seq<Sys>, t: nat, act: Action, n: nat) returns (us: seq<Sys>)
    requires |tr| > 0 && Run(tr) && AtWork(Last(tr), t, act)
    requires var s, th := Last(tr), Last(tr).threads[t];
             n <= Hops(s.pages, CurOf(th.pc), KeyOf(th.pc)) && th.turns + n <= 5
    ensures |us| == |tr| + n && Run(us) && Repeats(tr, us, t, act) && AtWork(Last(us), t, act)
    ensures WentRight(Last(tr), Last(us), t, act, n)
    decreases n
  {
    hide Run, Inv, SamePath;
    var s, th := Last(tr), Last(tr).threads[t];
    var a := CurOf(th.pc);
    us := tr;
    PathsAgree(th.path, th.path, s.pages[a].level, a);
    if n > 0 {
      HopsOne(s.pages, CurOf(th.pc), KeyOf(th.pc));
      CanTakeUp(s, t, act);
      us := ActsOnce(tr, t, act);
      TurnsRight(s, t, act);
      hide Next, Enabled, Hops, MoveRight;
      var vs := Turns(us, t, act, n - 1);
      RepeatsOn(tr, us, vs, t, act);
      PathsAgree(th.path, Last(vs).threads[t].path, s.pages[a].level, a);
      us := vs;
    }
  }

  lemma PathsAgree(path: map<nat, Addr>, path': map<nat, Addr>, level: nat, a: Addr)
    ensures SamePath(path, path, level)
    ensures SamePath(path[level := a], path', level) ==> SamePath(path, path', level)
  {}

  lemma HopsOne(ps: Pages, a: Addr, k: Key)
    requires AllLinked(ps) && a in ps && ps[a].lowest <= k < MAX_KEY && Hops(ps, a, k) > 0
    ensures var b := ps[a].sibling;
            && ps[a].highest <= k && b in ps && ps[b].lowest <= k && ps[b].level == ps[a].level
            && Hops(ps, a, k) == 1 + Hops(ps, b, k) && MoveRight(ps, a, k) == MoveRight(ps, b, k)
  {
    assert Linked(ps, a);
    RightMove(ps, a, k);
  }

  lemma NoHops(ps: Pages, a: Addr, k: Key)
    requires AllLinked(ps) && a in ps && ps[a].lowest <= k < MAX_KEY
    ensures Hops(ps, a, k) == 0 <==> ps[a].Holds(k)
    ensures Hops(ps, a, k) == 0 ==> MoveRight(ps, a, k) == a
  {}

  /** The right turns that thread t still has before it. */
  ghost function TurnsLeft(s: Sys, t: nat, act: Action): nat
    requires AtWork(s, t, act)
  {
    Hops(s.pages, CurOf(s.threads[t].pc), KeyOf(s.threads[t].pc))
  }

  /** Where they lead: the page of its level that holds its key. */
  ghost function Destination(s: Sys, t: nat, act: Action): (a: Addr)
    requires AtWork(s, t, act)
    ensures a in s.pages && s.pages[a].level == s.pages[CurOf(s.threads[t].pc)].level
    ensures s.pages[a].Holds(KeyOf(s.threads[t].pc))
  {
    MoveRight(s.pages, CurOf(s.threads[t].pc), KeyOf(s.threads[t].pc))
  }

  /** A thread with enough turns left comes to the page that holds its key, after exactly as many actions as there are
      right turns to it. */
  lemma ComesToPage(tr: seq<Sys>, t: nat, act: Action) returns (us: seq<Sys>)
    requires |tr| > 0 && Run(tr) && AtWork(Last(tr), t, act)
    requires Last(tr).threads[t].turns + TurnsLeft(Last(tr), t, act) <= 5
    ensures |us| == |tr| + TurnsLeft(Last(tr), t, act) && Run(us) && Repeats(tr, us, t, act)
    ensures OnlyThread(Last(tr), Last(us), t) && AtWork(Last(us), t, act)
    ensures var th, th' := Last(tr).threads[t], Last(us).threads[t];
            && th'.pc == AtPage(th.pc, Destination(Last(tr), t, act))
            && th'.node == th.node && th'.logging == th.logging
            && SamePath(th.path, th'.path, Last(tr).pages[CurOf(th.pc)].level)
  {
    hide Run, Inv, Hops, MoveRight;
    us := Turns(tr, t, act, TurnsLeft(Last(tr), t, act));
    var s, th' := Last(tr), Last(us).threads[t];
    NoHops(s.pages, CurOf(th'.pc), KeyOf(th'.pc));
  }

  /* ---- Leaves ---- */

  /** In every run, a thread at a leaf can go on from there. */
  lemma AtLeafAtWork(tr: seq<Sys>, j: nat, t: nat, act: Action)
    requires Run(tr) && j < |tr| && t < |tr[j].threads| && tr[j].threads[t].pc.AtLeaf? &&
             TakesUp(tr[j].threads[t].pc, act)
    requires act.PutLeaf? ==> act.spare !in tr[j].pages && act.spare != NULL
    ensures AtWork(tr[j], t, act)
  {
    hide Run, RootInv, NoneFull, OneOwner;
    ReachableIsSafe(tr, j);
    assert ThreadOk(tr[j].pages, tr[j].threads[t]);
  }

  /** A search at any leaf left of its key is answered after one action for each right turn and one more, with what the
      abstract map holds. */
  lemma LookupAnswers(tr: seq<Sys>, t: nat) returns (us: seq<Sys>)
    requires |tr| > 0 && Run(tr) && AtWork(Last(tr), t, ReadLeaf) && RowStored(tr, |tr| - 1)
    requires Last(tr).threads[t].turns + TurnsLeft(Last(tr), t, ReadLeaf) <= 5
    ensures |us| == |tr| + TurnsLeft(Last(tr), t, ReadLeaf) + 1 && Run(us) && Repeats(tr, us, t, ReadLeaf)
    ensures OnlyThread(Last(tr), Last(us), t)
    ensures var s, k := Last(tr), Last(tr).threads[t].pc.k;
            && MIN_KEY <= k < MAX_KEY && Last(us).threads[t].pc == Answered(k, Contents(s, k))
            && Last(us).threads[t].turns == 0
  {
    hide Run, Inv, RowStored, TurnsLeft, Destination, View;
    var s := Last(tr);
    us := ComesToPage(tr, t, ReadLeaf);
    var s1 := Last(us);
    AtLevel(s1, t);
    LeafHasRecord(tr, |tr| - 1, s1.threads[t].pc.cur);
    CanTakeUp(s1, t, ReadLeaf);
    var vs := ActsOnce(us, t, ReadLeaf);
    Answers(s1, t);
    LeafAnswersTheMap(s1, t);
    RepeatsOn(tr, us, vs, t, ReadLeaf);
    us := vs;
  }

  lemma Answers(s: Sys, t: nat)
    requires Enabled(s, t, ReadLeaf) && s.pages[s.threads[t].pc.cur].Holds(s.threads[t].pc.k)
    ensures Next(s, t, ReadLeaf).threads[t].pc.Answered? && OnlyThread(s, Next(s, t, ReadLeaf), t)
    ensures Next(s, t, ReadLeaf).threads[t].turns == 0
  {
    hide Linked, Get, LeafShape;
  }

  /** Where a thread goes from a store at a level: it is done, or, with a new page at b, it posts the start of that page
      at the page remembered above, or goes to grow the tree where none is. What it falls back on is the key of the
      insert for a leaf, and the separator itself above. */
  function AfterStore(path: map<nat, Addr>, qs: Pages, b: Addr, level: nat, k: Key): Pc {
    if b !in qs then Idle
    else
      var sep := qs[b].lowest;
      if level + 1 in path then Post(sep, b, level + 1, Nested(if level == 0 then k else sep), path[level + 1])
      else Grow(sep, b, level, Check)
  }

  lemma StoreGoesOn(ps: Pages, th: Thread, a: Addr, q: Page, b: Addr, k: Key)
    requires a in ps && |q.keys| == |q.vals| && q.level == ps[a].level && b !in ps && (Full(q) ==> q.keys != [])
    ensures AfterPut(Reset(Visit(th, ps[a], a)), q, b, k).pc == AfterStore(th.path, Placed(ps, a, q, b), b, q.level, k)
    ensures AfterPut(Reset(Visit(th, ps[a], a)), q, b, k).turns == 0
  {}

  lemma RowGoesOn(s: Sys, t: nat, b: Addr)
    requires Inv(s) && Enabled(s, t, PutLeaf(b)) && s.pages[s.threads[t].pc.cur].Holds(s.threads[t].pc.k)
    ensures var s', th := Next(s, t, PutLeaf(b)), s.threads[t];
            s'.threads[t].pc == AfterStore(th.path, s'.pages, b, 0, th.pc.k) && s'.threads[t].turns == 0
  {
    hide Inv, Next, Linked, Placed, AfterPut, AfterStore, StoreIn, PageOk;
    var th := s.threads[t];
    NextPutLeaf(s, t, b);
    LinkedPage(s.pages, th.pc.cur);
    var q := StoreIn(s.pages[th.pc.cur], th.pc.k, Row(th.pc.goal.row));
    hide Enabled;
    FullHasKeys(q);
    StoreGoesOn(s.pages, th, th.pc.cur, q, b, th.pc.k);
  }

  lemma SeparatorGoesOn(s: Sys, t: nat, b: Addr)
    requires Inv(s) && Enabled(s, t, PutInternal(b)) && s.pages[s.threads[t].pc.cur].Holds(s.threads[t].pc.sep)
    ensures var s', th := Next(s, t, PutInternal(b)), s.threads[t];
            s'.threads[t].pc == AfterStore(th.path, s'.pages, b, th.pc.target, th.pc.sep) && s'.threads[t].turns == 0
  {
    hide Inv, Next, Linked, Placed, AfterPut, AfterStore, StoreIn, PageOk;
    var th := s.threads[t];
    AtLevel(s, t);
    NextPutInternal(s, t, b);
    LinkedPage(s.pages, th.pc.cur);
    var q := StoreIn(s.pages[th.pc.cur], th.pc.sep, Child(th.pc.child));
    hide Enabled;
    FullHasKeys(q);
    StoreGoesOn(s.pages, th, th.pc.cur, q, b, th.pc.sep);
  }

  lemma SameAbove(path: map<nat, Addr>, path': map<nat, Addr>, qs: Pages, b: Addr, level: nat, k: Key)
    requires SamePath(path, path', level)
    ensures AfterStore(path', qs, b, level, k) == AfterStore(path, qs, b, level, k)
  {}

  lemma FullHasKeys(q: Page)
    ensures Full(q) ==> q.keys != []
  {}

  /** An insert at any leaf left of its key stores its row after one action for each right turn and one more, and
      changes the abstract map nowhere else. */
  lemma UpsertStores(tr: seq<Sys>, t: nat, b: Addr) returns (us: seq<Sys>)
    requires |tr| > 0 && Run(tr) && AtWork(Last(tr), t, PutLeaf(b))
    requires Last(tr).threads[t].turns + TurnsLeft(Last(tr), t, PutLeaf(b)) <= 5
    ensures |us| == |tr| + TurnsLeft(Last(tr), t, PutLeaf(b)) + 1 && Run(us) && Repeats(tr, us, t, PutLeaf(b))
    ensures Inv(Last(us))
    ensures var pc := Last(tr).threads[t].pc;
            forall x :: MIN_KEY <= x < MAX_KEY ==>
              Contents(Last(us), x) == if x == pc.k then Some(pc.goal.row) else Contents(Last(tr), x)
    ensures var th := Last(tr).threads[t];
            && t < |Last(us).threads| && Last(us).threads[t].turns == 0
            && Last(us).threads[t].pc == AfterStore(th.path, Last(us).pages, b, 0, th.pc.k)
  {
    hide Run, Inv, TurnsLeft, Destination, View, AfterStore;
    us := ComesToPage(tr, t, PutLeaf(b));
    var s1 := Last(us);
    CanTakeUp(s1, t, PutLeaf(b));
    var vs := ActsOnce(us, t, PutLeaf(b));
    RowGoesOn(s1, t, b);
    SameAbove(Last(tr).threads[t].path, s1.threads[t].path, Last(vs).pages, b, 0, s1.threads[t].pc.k);
    hide Next, Enabled;
    RepeatsOn(tr, us, vs, t, PutLeaf(b));
    forall x | MIN_KEY <= x < MAX_KEY
      ensures Contents(Last(vs), x) ==
              if x == Last(tr).threads[t].pc.k then Some(Last(tr).threads[t].pc.goal.row) else Contents(Last(tr), x)
    {
      ActionMeaning(s1, t, PutLeaf(b), x);
    }
    us := vs;
  }

  /* ---- Internal pages ---- */

  /** Where a search goes from the page of level n that holds its key, c being the child for its key. */
  function OneDown(k: Key, goal: Goal, a: Addr, n: nat, c: Addr): Pc {
    match goal
    case Publish(child, target) =>
      if n > target + 1 then Search(k, goal, c)
      else if n == target + 1 then Post(k, child, target, TopDown, c)
      else if n == target then Post(k, child, target, TopDown, a)
      else Search(k, goal, NULL)
    case _ => if n > 1 then Search(k, goal, c) else AtLeaf(k, goal, c)
  }

  /** A descent goes to the child for its key of the page that holds it, after one read for each right turn and one
      more. */
  lemma SearchDescends(tr: seq<Sys>, t: nat) returns (us: seq<Sys>)
    requires |tr| > 0 && Run(tr) && AtWork(Last(tr), t, Read)
    requires Last(tr).threads[t].turns + TurnsLeft(Last(tr), t, Read) <= 5
    ensures |us| == |tr| + TurnsLeft(Last(tr), t, Read) + 1 && Run(us) && Repeats(tr, us, t, Read)
    ensures OnlyThread(Last(tr), Last(us), t) && Inv(Last(us))
    ensures var s, th, th' := Last(tr), Last(tr).threads[t], Last(us).threads[t];
            var a := Destination(s, t, Read);
            && InternalShape(s.pages[a]) && th'.turns == 0 && th'.node == th.node && th'.logging == th.logging
            && th'.pc == OneDown(th.pc.k, th.pc.goal, a, s.pages[a].level, Route(s.pages[a], th.pc.k))
  {
    hide Run, Inv, TurnsLeft, Destination;
    us := ComesToPage(tr, t, Read);
    var s1 := Last(us);
    CanTakeUp(s1, t, Read);
    assert InternalShape(s1.pages[s1.threads[t].pc.cur]) by { assert Linked(s1.pages, s1.threads[t].pc.cur); }
    var vs := ActsOnce(us, t, Read);
    hide Linked, InternalShape, Route;
    RepeatsOn(tr, us, vs, t, Read);
    us := vs;
  }

  /** A probe hands its separator to the child, for the probe key, of the page that holds that key. */
  lemma ProbeDescends(tr: seq<Sys>, t: nat) returns (us: seq<Sys>)
    requires |tr| > 0 && Run(tr) && AtWork(Last(tr), t, ReadProbe)
    requires Last(tr).threads[t].turns + TurnsLeft(Last(tr), t, ReadProbe) <= 5
    ensures |us| == |tr| + TurnsLeft(Last(tr), t, ReadProbe) + 1 && Run(us) && Repeats(tr, us, t, ReadProbe)
    ensures OnlyThread(Last(tr), Last(us), t)
    ensures var s, pc := Last(tr), Last(tr).threads[t].pc;
            var a := Destination(s, t, ReadProbe);
            && InternalShape(s.pages[a]) && Last(us).threads[t].turns == 0
            && Last(us).threads[t].pc ==
               Post(pc.sep, pc.child, pc.target, Nested(pc.probe), Route(s.pages[a], pc.probe))
  {
    hide Run, Inv, TurnsLeft, Destination;
    us := ComesToPage(tr, t, ReadProbe);
    var s1 := Last(us);
    AtLevel(s1, t);
    CanTakeUp(s1, t, ReadProbe);
    assert InternalShape(s1.pages[s1.threads[t].pc.cur]) by { assert Linked(s1.pages, s1.threads[t].pc.cur); }
    var vs := ActsOnce(us, t, ReadProbe);
    hide Linked, InternalShape, Route;
    RepeatsOn(tr, us, vs, t, ReadProbe);
    us := vs;
  }

  /** A posted child gains a parent. */
  lemma ParentGained(ps: Pages, root: Addr, pend: set<Addr>, a: Addr, c: Addr, b: Addr)
    requires Tree(ps, root, pend) && NoneFull(ps) && Linked(ps, a) && c in pend && c in ps &&
             ps[a].level == ps[c].level + 1
    requires ps[a].Holds(ps[c].lowest) && b !in ps && b != NULL
    ensures !HasParent(ps, c) && HasParent(Put(ps, a, ps[c].lowest, Child(c), b), c)
  {
    PutChildKeepsTree(ps, root, pend, a, c, b);
    hide AllLinked, Disjoint, Linked, NoneFull, Placed, StoreIn, IsChild;
    assert c != root && c != b;
  }

  lemma PostedGains(s: Sys, t: nat, b: Addr)
    requires Inv(s) && Enabled(s, t, PutInternal(b)) && s.pages[s.threads[t].pc.cur].Holds(s.threads[t].pc.sep)
    ensures var c := s.threads[t].pc.child;
            !HasParent(s.pages, c) && HasParent(Next(s, t, PutInternal(b)).pages, c)
  {
    var pc := s.threads[t].pc;
    hide RootInv, Tree, OneOwner, NoneFull, Linked;
    assert ThreadOk(s.pages, s.threads[t]);
    PendingIsInTree(s, t);
    ParentGained(s.pages, s.top, Pend(s.threads), pc.cur, pc.child, b);
    NextPutInternal(s, t, b);
    hide Next, Placed, StoreIn, HasParent;
  }

  /** A post gives its child a parent, after one action for each right turn and one more. */
  lemma PostLinks(tr: seq<Sys>, t: nat, b: Addr) returns (us: seq<Sys>)
    requires |tr| > 0 && Run(tr) && AtWork(Last(tr), t, PutInternal(b))
    requires Last(tr).threads[t].turns + TurnsLeft(Last(tr), t, PutInternal(b)) <= 5
    ensures |us| == |tr| + TurnsLeft(Last(tr), t, PutInternal(b)) + 1 && Run(us) && Repeats(tr, us, t, PutInternal(b))
    ensures var c := Last(tr).threads[t].pc.child; !HasParent(Last(tr).pages, c) && HasParent(Last(us).pages, c)
    ensures var th := Last(tr).threads[t];
            && t < |Last(us).threads| && Last(us).threads[t].turns == 0
            && Last(us).threads[t].pc == AfterStore(th.path, Last(us).pages, b, th.pc.target, th.pc.sep)
  {
    hide Run, Inv, TurnsLeft, Destination, HasParent, AfterStore;
    AtLevel(Last(tr), t);
    us := ComesToPage(tr, t, PutInternal(b));
    var s1 := Last(us);
    CanTakeUp(s1, t, PutInternal(b));
    hide Enabled, Next;
    var vs := ActsOnce(us, t, PutInternal(b));
    PostedGains(s1, t, b);
    SeparatorGoesOn(s1, t, b);
    SameAbove(Last(tr).threads[t].path, s1.threads[t].path, Last(vs).pages, b, s1.threads[t].pc.target,
              s1.threads[t].pc.sep);
    RepeatsOn(tr, us, vs, t, PutInternal(b));
    us := vs;
  }

  /* ---- A whole search ---- */

  /** From page a down, the search for k meets no level with too many right turns. */
  ghost predicate InReach(ps: Pages, a: Addr, k: Key, turns: nat)
    requires AllLinked(ps) && a in ps && ps[a].lowest <= k < MAX_KEY
    decreases ps[a].level
  {
    && turns + Hops(ps, a, k) <= 5
    && (ps[a].level > 0 ==>
          var b := MoveRight(ps, a, k);
          assert Linked(ps, b);
          RouteFollowsRange(ps, ps[b], k);
          InReach(ps, Route(ps[b], k), k, 0))
  }

  /** The number of its actions: one for each page it comes to. */
  ghost function Way(ps: Pages, a: Addr, k: Key): nat
    requires AllLinked(ps) && a in ps && ps[a].lowest <= k < MAX_KEY
    decreases ps[a].level
  {
    Hops(ps, a, k) + 1 +
    if ps[a].level == 0 then 0
    else
      var b := MoveRight(ps, a, k);
      assert Linked(ps, b);
      RouteFollowsRange(ps, ps[b], k);
      Way(ps, Route(ps[b], k), k)
  }

  /** The steps from the end of one run to the end of a longer one are all thread t's. */
  ghost predicate AllBy(tr: seq<Sys>, us: seq<Sys>, t: nat) {
    |tr| > 0 && tr <= us && forall i :: |tr| <= i < |us| ==> StepBy(us[i - 1], us[i], t)
  }

  ghost predicate StepBy(s: Sys, s': Sys, t: nat) { exists act :: ThreadStep(s, s', t, act) }

  lemma RepeatsBy(tr: seq<Sys>, us: seq<Sys>, vs: seq<Sys>, t: nat, act: Action)
    requires Repeats(tr, us, t, act) && AllBy(us, vs, t)
    ensures AllBy(tr, vs, t)
  {
    hide ThreadStep;
    forall i | |tr| <= i < |vs| ensures StepBy(vs[i - 1], vs[i], t) {
      if i < |us| {
        assert vs[i - 1] == us[i - 1] && vs[i] == us[i];
        assert ThreadStep(us[i - 1], us[i], t, act);
      }
    }
  }

  lemma NoMore(tr: seq<Sys>, t: nat)
    requires |tr| > 0
    ensures AllBy(tr, tr, t)
  {}

  /** A search that is alone from any page at or left of its key is answered, after as many actions as there are pages
      on its way, with what the abstract map holds; new siblings that wait for their separators do not keep it. */
  lemma {:induction false} SearchAnswers(tr: seq<Sys>, t: nat) returns (us: seq<Sys>)
    requires |tr| > 0 && Run(tr) && RowStored(tr, |tr| - 1)
    requires t < |Last(tr).threads| && Last(tr).threads[t].pc.Search? && Last(tr).threads[t].pc.goal.Lookup?
    requires AtWork(Last(tr), t, Read)
    requires var s, th := Last(tr), Last(tr).threads[t]; InReach(s.pages, th.pc.cur, th.pc.k, th.turns)
    ensures var s, th := Last(tr), Last(tr).threads[t];
            && |us| == |tr| + Way(s.pages, th.pc.cur, th.pc.k)
            && Run(us) && AllBy(tr, us, t) && OnlyThread(s, Last(us), t)
            && MIN_KEY <= th.pc.k < MAX_KEY && Last(us).threads[t].pc == Answered(th.pc.k, Contents(s, th.pc.k))
    decreases Last(tr).pages[Last(tr).threads[t].pc.cur].level
  {
    hide Run, Inv, RowStored, Hops, MoveRight, View;
    var s, th := Last(tr), Last(tr).threads[t];
    var a := Destination(s, t, Read);
    us := SearchDescends(tr, t);
    var s1 := Last(us);
    assert Linked(s.pages, a);
    RouteFollowsRange(s.pages, s.pages[a], th.pc.k);
    RowStillStored(tr, us);
    var vs;
    if s.pages[a].level > 1 { vs := SearchAnswers(us, t); }
    else {
      vs := LookupAnswers(us, t);
      NoMore(vs, t);
      RepeatsBy(us, vs, vs, t, ReadLeaf);
    }
    RepeatsBy(tr, us, vs, t, Read);
    us := vs;
  }

  lemma RowStillStored(tr: seq<Sys>, us: seq<Sys>)
    requires |tr| > 0 && tr <= us && RowStored(tr, |tr| - 1)
    ensures RowStored(us, |us| - 1)
  {
    hide ThreadStep, StoresRow;
    var i: nat, t: nat, act :| i < |tr| - 1 && StoresAt(tr, i, t, act);
    assert us[i] == tr[i] && us[i + 1] == tr[i + 1];
    assert StoresAt(us, i, t, act);
  }

  /* ---- Too far ---- */

  function Remembered(path: map<nat, Addr>, level: nat): Addr {
    if level in path then path[level] else NULL
  }

  /** What a thread does when the page of its key is too far right: a leaf operation goes back to the page remembered
      above, a search and a probe to the root; a post of a split probes from the page above and a top-down one searches
      from it, and both start at the root where none is remembered. */
  function BackFrom(pc: Pc, path: map<nat, Addr>): Pc {
    match pc
    case AtLeaf(k, goal, _) => Search(k, goal, Remembered(path, 1))
    case Search(k, goal, _) => Search(k, goal, NULL)
    case Post(sep, child, target, Nested(probe), _) =>
      if target + 1 in path then Probe(sep, child, target, probe, path[target + 1])
      else Search(sep, Publish(child, target), NULL)
    case Post(sep, child, target, TopDown, _) => Search(sep, Publish(child, target), Remembered(path, target + 1))
    case Probe(sep, child, target, _, _) => Search(sep, Publish(child, target), NULL)
    case _ => pc
  }

  ghost predicate WentBack(th: Thread, th': Thread) {
    th'.pc == BackFrom(th.pc, th.path) && th'.turns == 0 && th'.node == th.node
  }

  /** The page fails the thread: it starts behind the key, or ends at or before it with no turn left. */
  predicate Fails(p: Page, k: Key, turns: nat) {
    k < p.lowest || (p.highest <= k && turns == 5)
  }

  lemma SearchGivesUp(s: Sys, t: nat)
    requires Enabled(s, t, Read) && s.pages[s.threads[t].pc.cur].level > 0 && s.threads[t].turns <= 5
    requires s.pages[s.threads[t].pc.cur].lowest < s.pages[s.threads[t].pc.cur].highest
    requires Fails(s.pages[s.threads[t].pc.cur], s.threads[t].pc.k, s.threads[t].turns)
    ensures WentBack(s.threads[t], Next(s, t, Read).threads[t]) && OnlyThread(s, Next(s, t, Read), t)
  {
    hide Linked, Down, InternalShape;
  }

  lemma LookupGivesUp(s: Sys, t: nat)
    requires Enabled(s, t, ReadLeaf) && s.threads[t].turns <= 5
    requires s.pages[s.threads[t].pc.cur].lowest < s.pages[s.threads[t].pc.cur].highest
    requires Fails(s.pages[s.threads[t].pc.cur], s.threads[t].pc.k, s.threads[t].turns)
    ensures WentBack(s.threads[t], Next(s, t, ReadLeaf).threads[t]) && OnlyThread(s, Next(s, t, ReadLeaf), t)
  {
    hide Linked, Get, LeafShape;
  }

  lemma ProbeGivesUp(s: Sys, t: nat)
    requires Enabled(s, t, ReadProbe) && s.threads[t].turns <= 5
    requires s.pages[s.threads[t].pc.cur].lowest < s.pages[s.threads[t].pc.cur].highest
    requires Fails(s.pages[s.threads[t].pc.cur], s.threads[t].pc.probe, s.threads[t].turns)
    ensures WentBack(s.threads[t], Next(s, t, ReadProbe).threads[t]) && OnlyThread(s, Next(s, t, ReadProbe), t)
  {
    hide Linked, Route, InternalShape;
  }

  lemma RowGivesUp(s: Sys, t: nat, b: Addr)
    requires Enabled(s, t, PutLeaf(b)) && s.threads[t].turns <= 5
    requires Fails(s.pages[s.threads[t].pc.cur], s.threads[t].pc.k, s.threads[t].turns)
    ensures WentBack(s.threads[t], Next(s, t, PutLeaf(b)).threads[t]) && OnlyThread(s, Next(s, t, PutLeaf(b)), t)
  {
    LinkedPage(s.pages, s.threads[t].pc.cur);
    hide Linked, PageOk, Placed, StoreIn, AfterPut;
  }

  lemma PostGivesUp(s: Sys, t: nat, b: Addr)
    requires Enabled(s, t, PutInternal(b)) && s.threads[t].turns <= 5
    requires Fails(s.pages[s.threads[t].pc.cur], s.threads[t].pc.sep, s.threads[t].turns)
    requires s.pages[s.threads[t].pc.cur].level == s.threads[t].pc.target
    ensures WentBack(s.threads[t], Next(s, t, PutInternal(b)).threads[t])
    ensures OnlyThread(s, Next(s, t, PutInternal(b)), t)
  {
    LinkedPage(s.pages, s.threads[t].pc.cur);
    hide Linked, PageOk, Placed, StoreIn, AfterPut;
  }

  /** A thread whose page fails it goes back. */
  lemma GivesUpPage(s: Sys, t: nat, act: Action)
    requires Inv(s) && Enabled(s, t, act) && TakesUp(s.threads[t].pc, act) && CurOf(s.threads[t].pc) in s.pages
    requires var th := s.threads[t];
             var p := s.pages[CurOf(th.pc)];
             th.turns <= 5 && Fails(p, KeyOf(th.pc), th.turns) && (act.Read? ==> p.level > 0)
    ensures WentBack(s.threads[t], Next(s, t, act).threads[t]) && OnlyThread(s, Next(s, t, act), t)
  {
    hide Next, Inv, Fails, WentBack, Linked;
    AtLevel(s, t);
    PageSpan(s, CurOf(s.threads[t].pc));
    match act {
      case Read => SearchGivesUp(s, t);
      case ReadLeaf => LookupGivesUp(s, t);
      case PutLeaf(b) => RowGivesUp(s, t, b);
      case PutInternal(b) => PostGivesUp(s, t, b);
      case ReadProbe => ProbeGivesUp(s, t);
    }
  }

  lemma PageSpan(s: Sys, a: Addr)
    requires Inv(s) && a in s.pages
    ensures s.pages[a].lowest < s.pages[a].highest
  {
    hide Inv, Linked;
    PagesAreLinked(s, a);
    LinkedPage(s.pages, a);
  }

  lemma BackFromThere(th: Thread, th': Thread, p: Page)
    requires th'.pc == AtPage(th.pc, CurOf(th'.pc))
    requires SamePath(th.path, th'.path, p.level)
    requires (th.pc.AtLeaf? ==> p.level == 0) && (th.pc.Post? ==> p.level == th.pc.target)
    ensures BackFrom(th'.pc, th'.path) == BackFrom(th.pc, th.path)
  {}

  /** With more right turns before it than it has left, a thread gives up with its sixth turn and goes back. */
  lemma GoesBack(tr: seq<Sys>, t: nat, act: Action) returns (us: seq<Sys>)
    requires |tr| > 0 && Run(tr) && AtWork(Last(tr), t, act)
    requires Last(tr).threads[t].turns <= 5 < Last(tr).threads[t].turns + TurnsLeft(Last(tr), t, act)
    ensures |us| == |tr| + 6 - Last(tr).threads[t].turns && Run(us) && Repeats(tr, us, t, act)
    ensures OnlyThread(Last(tr), Last(us), t) && WentBack(Last(tr).threads[t], Last(us).threads[t])
  {
    hide Run, Inv, Hops, MoveRight;
    var s, th := Last(tr), Last(tr).threads[t];
    AtLevel(s, t);
    us := Turns(tr, t, act, 5 - th.turns);
    var s1, th1 := Last(us), Last(us).threads[t];
    NoHops(s.pages, CurOf(th1.pc), KeyOf(th1.pc));
    CanTakeUp(s1, t, act);
    hide Enabled, Next;
    var vs := ActsOnce(us, t, act);
    GivesUpPage(s1, t, act);
    BackFromThere(th, th1, s.pages[CurOf(th.pc)]);
    RepeatsOn(tr, us, vs, t, act);
    us := vs;
  }

  /** A search that finds an internal page too far left may also climb to the page remembered above it. */
  lemma SearchClimbs(tr: seq<Sys>, t: nat) returns (us: seq<Sys>)
    requires |tr| > 0 && Run(tr) && AtWork(Last(tr), t, Read)
    requires Last(tr).threads[t].turns <= 5 < Last(tr).threads[t].turns + TurnsLeft(Last(tr), t, Read)
    requires var s, th := Last(tr), Last(tr).threads[t];
             var n := s.pages[th.pc.cur].level;
             n + 1 in th.path && (th.pc.goal.Publish? ==> n > th.pc.goal.target)
    ensures |us| == |tr| + 6 - Last(tr).threads[t].turns && Run(us) && OnlyThread(Last(tr), Last(us), t)
    ensures var s, th, th' := Last(tr), Last(tr).threads[t], Last(us).threads[t];
            && th'.pc == Search(th.pc.k, th.pc.goal, th.path[s.pages[th.pc.cur].level + 1])
            && th'.turns == 0 && th'.logging == th.logging
  {
    hide Run, Inv, Hops, MoveRight;
    var s, th := Last(tr), Last(tr).threads[t];
    us := Turns(tr, t, Read, 5 - th.turns);
    var s1, th1 := Last(us), Last(us).threads[t];
    NoHops(s.pages, CurOf(th1.pc), KeyOf(th1.pc));
    IsRunning(s1, t);
    hide Linked;
    us := ActsOnce(us, t, FallBack);
  }

  /** A top-down insert may post at the first page of its level that it comes to, wherever its separator belongs. */
  lemma PostsAtFirstPage(s: Sys, t: nat)
    requires Inv(s) && t < |s.threads| && s.threads[t].pc.Search? && s.threads[t].pc.goal.Publish?
    requires var pc := s.threads[t].pc; pc.cur in s.pages && s.pages[pc.cur].level == pc.goal.target
    ensures Enabled(s, t, PostHere)
    ensures var th, th' := s.threads[t], Next(s, t, PostHere).threads[t];
            && th'.pc == Post(th.pc.k, th.pc.goal.child, th.pc.goal.target, TopDown, th.pc.cur)
            && th'.turns == 0 && th'.logging == th.logging && OnlyThread(s, Next(s, t, PostHere), t)
  {
    hide Inv, Linked;
    IsRunning(s, t);
  }

  /** The root may be a leaf: a search that reads it is at its leaf, or starts again when the leaf has been split. */
  lemma ReadsRootLeaf(s: Sys, t: nat)
    requires Inv(s) && t < |s.threads| && s.threads[t].pc.Search? && !s.threads[t].pc.goal.Publish?
    requires s.threads[t].pc.cur in s.pages && s.pages[s.threads[t].pc.cur].level == 0
    ensures Enabled(s, t, Read) && OnlyThread(s, Next(s, t, Read), t)
    ensures var pc := s.threads[t].pc;
            Next(s, t, Read).threads[t].pc ==
            if s.pages[pc.cur].Holds(pc.k) then AtLeaf(pc.k, pc.goal, pc.cur) else Search(pc.k, pc.goal, NULL)
  {
    hide Inv, Linked;
    IsRunning(s, t);
    PagesAreLinked(s, s.threads[t].pc.cur);
  }
}
