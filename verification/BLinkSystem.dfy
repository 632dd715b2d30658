/** Many threads on many compute nodes working on one tree. One action is what a thread does under one page
    latch, or under the root locks; any thread may act at any time. A thread counts its right turns and gives up after
    five in a row. A top-down insert posts at the first page of its level that it came to (PostHere) and lets
    internal_page_store turn right. */
module BLinkSystem {
  import opened Options
  import opened Endian
  import opened BLinkPage
  import opened BLinkTree

  /** A compute node's view of the root: g_root_ptr, the cached root page, tree_height and root_mtx. */
  datatype Cache = Cache(gRoot: Addr, handle: Addr, height: nat, mtx: Option<nat>)

  /** What a descent is for: a search, an insert, or inserting a separator top down at a level. */
  datatype Goal = Lookup | Upsert(row: Bytes) | Publish(child: Addr, target: nat)

  /** Who asked for a separator post. A split remembers the key its fall-back search uses. */
  datatype Origin = Nested(probe: Key) | TopDown

  /** Growing the tree: local check, global lock, check again, build, swing the index entry. */
  datatype Phase = Check | WantLock | Locked | Build | Cas(oldRoot: Addr, newRoot: Addr)

  datatype Pc =
    | Idle
    | Answered(k: Key, answer: Option<Bytes>)
    | Search(k: Key, goal: Goal, cur: Addr)
    | AtLeaf(k: Key, goal: Goal, cur: Addr)
    | Post(sep: Key, child: Addr, target: nat, origin: Origin, cur: Addr)
    | Probe(sep: Key, child: Addr, target: nat, probe: Key, cur: Addr)
    | Grow(sep: Key, child: Addr, level: nat, phase: Phase)

  /** `path` is the path_stack; `logging` says whether the operation carries a redo logger; `turns` is the
      nested_retry_counter. */
  datatype Thread = Thread(node: nat, path: map<nat, Addr>, logging: bool, turns: nat, pc: Pc)

  /** `entry` is the slot of the global index table, `lock` the lock-table word; `top` is the topmost page. */
  datatype Sys = Sys(
    pages: Pages, entry: Addr, lock: Option<nat>, caches: seq<Cache>, threads: seq<Thread>, top: Addr)

  datatype Action =
    | Begin(k: Key, goal: Goal, logging: bool)
    | Restart
    | FallBack
    | PostHere
    | Read
    | ReadLeaf
    | PutLeaf(spare: Addr)
    | PutInternal(spare: Addr)
    | ReadProbe
    | GrowCheck
    | GrowLock
    | GrowRecheck
    | GrowBuild(spare: Addr)
    | GrowCas

  /* ---- The actions ---- */

  function SetPc(th: Thread, pc: Pc): Thread { th.(pc := pc) }

  function Visit(th: Thread, p: Page, a: Addr): Thread { th.(path := th.path[p.level := a]) }

  /** A thread may turn right while its counter is at most this. */
  const RETRIES: nat := 4

  predicate MayTurn(th: Thread) { th.turns <= RETRIES }

  function Turned(th: Thread): Thread { th.(turns := th.turns + 1) }

  function Reset(th: Thread): Thread { th.(turns := 0) }

  /** Where an operation goes once its split is done: up the remembered path, or to the root locks. */
  function AfterSplit(th: Thread, sep: Key, child: Addr, level: nat, probe: Key): Thread {
    if level + 1 in th.path
    then SetPc(th, Post(sep, child, level + 1, Nested(probe), th.path[level + 1]))
    else SetPc(th, Grow(sep, child, level, Check))
  }

  /** internal_page_search on the page under the latch, and what its caller does with the result. */
  function AfterRead(th: Thread, p: Page, a: Addr): Thread
    requires th.pc.Search? && (p.level > 0 ==> InternalShape(p))
  {
    var Search(k, goal, _) := th.pc;
    var th' := Visit(th, p, a);
    if p.level == 0 then
      SetPc(th', if !p.Holds(k) || goal.Publish? then Search(k, goal, NULL) else AtLeaf(k, goal, a))
    else if k >= p.highest && MayTurn(th) then SetPc(Turned(th'), Search(k, goal, p.sibling))
    else SetPc(Reset(th'), if p.Holds(k) then Down(p, a, k, goal) else Search(k, goal, NULL))
  }

  /** Where a search goes from an internal page that holds its key. */
  function Down(p: Page, a: Addr, k: Key, goal: Goal): Pc
    requires InternalShape(p)
  {
    if goal.Publish? then
      if p.level < goal.target then Search(k, goal, NULL)
      else if p.level == goal.target then Post(k, goal.child, goal.target, TopDown, a)
      else if p.level == goal.target + 1 then Post(k, goal.child, goal.target, TopDown, Route(p, k))
      else Search(k, goal, Route(p, k))
    else if p.level == 1 then AtLeaf(k, goal, Route(p, k))
    else Search(k, goal, Route(p, k))
  }

  /** internal_page_search returns false. */
  predicate ReadFails(th: Thread, p: Page)
    requires th.pc.Search?
  {
    th.pc.k < p.lowest || (th.pc.k >= p.highest && !MayTurn(th))
  }

  /** A leaf operation failed: back to the page remembered above, or to the root. */
  function Backed(th: Thread, k: Key, goal: Goal): Thread {
    SetPc(Reset(th), Search(k, goal, if 1 in th.path then th.path[1] else NULL))
  }

  /** leaf_page_search under the latch: turn right, fall back, or answer. The code cannot search a leaf without a
      record: it asserts that there is one and then takes the last index, -1, as an unsigned number. */
  function AfterReadLeaf(th: Thread, p: Page, a: Addr): Thread
    requires th.pc.AtLeaf? && LeafShape(p)
  {
    var AtLeaf(k, goal, _) := th.pc;
    var th' := Visit(th, p, a);
    if k >= p.highest && MayTurn(th) then SetPc(Turned(th'), AtLeaf(k, goal, p.sibling))
    else if !p.Holds(k) then Backed(th', k, goal)
    else SetPc(Reset(th'), Answered(k, Get(p, k)))
  }

  /** The fall-back search of a failed post: find its page again from one level above. */
  function AfterReadProbe(th: Thread, p: Page, a: Addr): Thread
    requires th.pc.Probe? && InternalShape(p)
  {
    var Probe(sep, child, target, probe, _) := th.pc;
    var th' := Visit(th, p, a);
    if probe >= p.highest && MayTurn(th) then SetPc(Turned(th'), Probe(sep, child, target, probe, p.sibling))
    else SetPc(Reset(th'), if p.Holds(probe) then Post(sep, child, target, Nested(probe), Route(p, probe))
                           else Search(sep, Publish(child, target), NULL))
  }

  /** internal_page_store returned false. A split looks one level up, or starts from the root without its
      logger when it remembers no page there; a top-down insert carries on from the level above. */
  function Missed(th: Thread): Thread
    requires th.pc.Post?
  {
    var Post(sep, child, target, origin, _) := th.pc;
    var up := target + 1;
    if origin.Nested? then
      if up in th.path then SetPc(th, Probe(sep, child, target, origin.probe, th.path[up]))
      else SetPc(th, Search(sep, Publish(child, target), NULL)).(logging := false)
    else SetPc(th, Search(sep, Publish(child, target), if up in th.path then th.path[up] else NULL))
  }

  /** leaf_page_store under the latch, and the split it may end in. */
  function AfterPutLeaf(th: Thread, p: Page, a: Addr, b: Addr): Thread
    requires th.pc.AtLeaf? && th.pc.goal.Upsert? && PageOk(p)
  {
    var AtLeaf(k, goal, _) := th.pc;
    var th' := Visit(th, p, a);
    if k >= p.highest && MayTurn(th) then SetPc(Turned(th'), AtLeaf(k, goal, p.sibling))
    else if !p.Holds(k) then Backed(th', k, goal)
    else AfterPut(Reset(th'), StoreIn(p, k, Row(goal.row)), b, k)
  }

  /** internal_page_store under the latch, and the split it may end in. */
  function AfterPutInternal(th: Thread, p: Page, a: Addr, b: Addr): Thread
    requires th.pc.Post? && PageOk(p)
  {
    var Post(sep, child, target, origin, _) := th.pc;
    var th' := Visit(th, p, a);
    if sep >= p.highest && MayTurn(th) then SetPc(Turned(th'), Post(sep, child, target, origin, p.sibling))
    else if !p.Holds(sep) then Missed(Reset(th'))
    else AfterPut(Reset(th'), StoreIn(p, sep, Child(child)), b, sep)
  }

  function PagesAfterPut(ps: Pages, a: Addr, k: Key, v: Val, b: Addr): Pages
    requires Linked(ps, a)
  {
    if ps[a].Holds(k) then Put(ps, a, k, v, b) else ps
  }

  /** A grown root is not wanted after all: insert the separator top down. */
  function GiveUpGrowing(th: Thread): Thread
    requires th.pc.Grow?
  {
    SetPc(th, Search(th.pc.sep, Publish(th.pc.child, th.pc.level + 1), NULL))
  }

  predicate StillRoot(th: Thread, c: Cache)
    requires th.pc.Grow?
  {
    th.pc.level in th.path && th.path[th.pc.level] == c.gRoot && c.height == th.pc.level
  }

  function AtPhase(th: Thread, ph: Phase): Thread
    requires th.pc.Grow?
  {
    SetPc(th, Grow(th.pc.sep, th.pc.child, th.pc.level, ph))
  }

  /** refetch_rootnode. */
  function Refetched(s: Sys, c: Cache): Cache
    requires s.entry in s.pages
  {
    if c.handle == s.entry then c.(gRoot := s.entry)
    else c.(gRoot := s.entry, handle := s.entry, height := s.pages[s.entry].level)
  }

  ghost predicate Running(s: Sys, t: nat) {
    t < |s.threads| && s.threads[t].node < |s.caches| && s.entry in s.pages
  }

  ghost predicate Enabled(s: Sys, t: nat, act: Action)
  {
    Running(s, t) &&
    var th := s.threads[t];
    var pc := th.pc;
    var cache := s.caches[th.node];
    match act
    case Begin(k, goal, _) => (pc.Idle? || pc.Answered?) && !goal.Publish? && MIN_KEY <= k < MAX_KEY
    case Restart => pc.Search? && cache.gRoot != NULL
    case FallBack =>
      && pc.Search? && pc.cur in s.pages && ReadFails(th, s.pages[pc.cur])
      && s.pages[pc.cur].level > (if pc.goal.Publish? then pc.goal.target else 0)
      && s.pages[pc.cur].level + 1 in th.path
    case PostHere =>
      pc.Search? && pc.goal.Publish? && pc.cur in s.pages && s.pages[pc.cur].level == pc.goal.target
    case Read => pc.Search? && Linked(s.pages, pc.cur)
    case ReadLeaf =>
      && pc.AtLeaf? && pc.goal.Lookup? && Linked(s.pages, pc.cur) && s.pages[pc.cur].level == 0
      && (s.pages[pc.cur].Holds(pc.k) ==> s.pages[pc.cur].keys != [])
    case PutLeaf(b) =>
      && pc.AtLeaf? && pc.goal.Upsert? && Linked(s.pages, pc.cur) && s.pages[pc.cur].level == 0
      && b !in s.pages && b != NULL
    case PutInternal(b) => pc.Post? && Linked(s.pages, pc.cur) && b !in s.pages && b != NULL
    case ReadProbe => pc.Probe? && Linked(s.pages, pc.cur) && s.pages[pc.cur].level > 0
    case GrowCheck => pc.Grow? && pc.phase.Check? && cache.mtx.None?
    case GrowLock => pc.Grow? && pc.phase.WantLock? && s.lock.None?
    case GrowRecheck => pc.Grow? && pc.phase.Locked?
    case GrowBuild(r) =>
      pc.Grow? && pc.phase.Build? && pc.level in th.path && r !in s.pages && r != NULL
    case GrowCas => pc.Grow? && pc.phase.Cas?
  }

  /** A page is rewritten, and split when that filled it. */
  function Placed(ps: Pages, a: Addr, q: Page, b: Addr): Pages
    requires |q.keys| == |q.vals|
  {
    if Full(q) then Split(ps[a := q], a, b) else ps[a := q]
  }

  /** The page steps of one action: a record stored, and the page split when that filled it. */
  function Put(ps: Pages, a: Addr, k: Key, v: Val, b: Addr): Pages
    requires Linked(ps, a)
  {
    Placed(ps, a, StoreIn(ps[a], k, v), b)
  }

  function AfterPut(th: Thread, q: Page, b: Addr, probe: Key): Thread {
    if Full(q)
    then AfterSplit(th, MidKey(q), b, q.level, if q.level == 0 then probe else MidKey(q))
    else SetPc(th, Idle)
  }

  /** The thread and cache of the acting thread after an action. */
  ghost function Next(s: Sys, t: nat, act: Action): Sys
    requires Enabled(s, t, act)
  {
    var th := s.threads[t];
    var pc := th.pc;
    var n := th.node;
    var cache := s.caches[n];
    match act
    case Begin(k, goal, logging) =>
      s.(threads := s.threads[t := Thread(n, map[], logging, th.turns, Search(k, goal, NULL))])
    case Restart =>
      s.(threads := s.threads[t := SetPc(th, Search(pc.k, pc.goal, cache.gRoot))])
    case FallBack =>
      var p := s.pages[pc.cur];
      s.(threads := s.threads[t := SetPc(Reset(Visit(th, p, pc.cur)), Search(pc.k, pc.goal, th.path[p.level + 1]))])
    case PostHere =>
      s.(threads := s.threads[t := SetPc(Reset(Visit(th, s.pages[pc.cur], pc.cur)),
                                         Post(pc.k, pc.goal.child, pc.goal.target, TopDown, pc.cur))])
    case Read =>
      s.(threads := s.threads[t := AfterRead(th, s.pages[pc.cur], pc.cur)])
    case ReadLeaf =>
      s.(threads := s.threads[t := AfterReadLeaf(th, s.pages[pc.cur], pc.cur)])
    case PutLeaf(b) =>
      s.(pages := PagesAfterPut(s.pages, pc.cur, pc.k, Row(pc.goal.row), b),
         threads := s.threads[t := AfterPutLeaf(th, s.pages[pc.cur], pc.cur, b)])
    case PutInternal(b) =>
      s.(pages := PagesAfterPut(s.pages, pc.cur, pc.sep, Child(pc.child), b),
         threads := s.threads[t := AfterPutInternal(th, s.pages[pc.cur], pc.cur, b)])
    case ReadProbe =>
      s.(threads := s.threads[t := AfterReadProbe(th, s.pages[pc.cur], pc.cur)])
    case GrowCheck =>
      var cache' := if cache.gRoot == NULL then Refetched(s, cache) else cache;
      if StillRoot(th, cache')
      then s.(caches := s.caches[n := cache'.(mtx := Some(t))], threads := s.threads[t := AtPhase(th, WantLock)])
      else s.(caches := s.caches[n := cache'], threads := s.threads[t := GiveUpGrowing(th)])
    case GrowLock =>
      s.(lock := Some(t), threads := s.threads[t := AtPhase(th, Locked)])
    case GrowRecheck =>
      var cache' := Refetched(s, cache);
      if StillRoot(th, cache')
      then s.(caches := s.caches[n := cache'], threads := s.threads[t := AtPhase(th, Build)])
      else s.(caches := s.caches[n := cache'.(mtx := None)], lock := None,
              threads := s.threads[t := GiveUpGrowing(th)])
    case GrowBuild(r) =>
      var left := th.path[pc.level];
      s.(pages := s.pages[r := NewRoot(left, pc.sep, pc.child, pc.level + 1)], top := r,
         caches := s.caches[n := cache.(gRoot := r, handle := r, height := pc.level + 1)],
         threads := s.threads[t := AtPhase(th, Cas(left, r))])
    case GrowCas =>
      s.(entry := if s.entry == pc.phase.oldRoot then pc.phase.newRoot else s.entry, lock := None,
         caches := s.caches[n := cache.(mtx := None)], threads := s.threads[t := SetPc(th, Idle)])
  }

  /** invalidate_root and the bare stores of a null g_root_ptr: any node may lose its root pointer at any time. */
  function Invalidated(s: Sys, n: nat): Sys
    requires n < |s.caches|
  {
    s.(caches := s.caches[n := s.caches[n].(gRoot := NULL)])
  }

  /** get_root_ptr_protected on a null pointer, under root_mtx. */
  function RootRefetched(s: Sys, n: nat): Sys
    requires n < |s.caches| && s.caches[n].mtx.None? && s.entry in s.pages
  {
    s.(caches := s.caches[n := Refetched(s, s.caches[n])])
  }

  /* ---- The invariant ---- */

  function PendOf(pc: Pc): Option<Addr> {
    match pc
    case Search(_, Publish(c, _), _) => Some(c)
    case Post(_, c, _, _, _) => Some(c)
    case Probe(_, c, _, _, _) => Some(c)
    case Grow(_, c, _, phase) => if phase.Cas? then None else Some(c)
    case _ => None
  }

  ghost predicate Owns(ths: seq<Thread>, t: nat, c: Addr) {
    t < |ths| && PendOf(ths[t].pc) == Some(c)
  }

  ghost function Pend(ths: seq<Thread>): set<Addr> {
    set t | 0 <= t < |ths| && PendOf(ths[t].pc).Some? :: PendOf(ths[t].pc).value
  }

  /** No separator is being posted twice. */
  ghost predicate OneOwner(ths: seq<Thread>) {
    forall t, u, c {:trigger Owns(ths, t, c), Owns(ths, u, c)} :: Owns(ths, t, c) && Owns(ths, u, c) ==> t == u
  }

  ghost predicate Waiting(ps: Pages, c: Addr, target: nat, k: Key) {
    c in ps && target == ps[c].level + 1 && ps[c].lowest == k && MIN_KEY < k < MAX_KEY
  }

  ghost predicate PathOk(ps: Pages, path: map<nat, Addr>) {
    forall l :: l in path ==> path[l] in ps && ps[path[l]].level == l
  }

  /** Everything a search or insert for k has visited starts at or before k. */
  ghost predicate Covers(ps: Pages, path: map<nat, Addr>, k: Key) {
    forall l :: l in path ==> path[l] in ps && ps[path[l]].lowest <= k
  }

  ghost predicate ThreadOk(ps: Pages, th: Thread) {
    && PathOk(ps, th.path)
    && match th.pc
       case Idle => true
       case Answered(_, _) => true
       case Search(k, goal, cur) =>
         && MIN_KEY <= k < MAX_KEY && (cur != NULL ==> cur in ps)
         && (if goal.Publish? then Waiting(ps, goal.child, goal.target, k)
             else Covers(ps, th.path, k) && (cur != NULL ==> ps[cur].lowest <= k))
       case AtLeaf(k, goal, cur) =>
         && MIN_KEY <= k < MAX_KEY && !goal.Publish? && Covers(ps, th.path, k)
         && cur in ps && ps[cur].level == 0 && ps[cur].lowest <= k
       case Post(sep, child, target, origin, cur) =>
         && Waiting(ps, child, target, sep) && cur in ps && ps[cur].level == target
         && (origin.Nested? ==> MIN_KEY <= origin.probe < MAX_KEY)
       case Probe(sep, child, target, probe, cur) =>
         Waiting(ps, child, target, sep) && cur in ps && ps[cur].level == target + 1 && MIN_KEY <= probe < MAX_KEY
       case Grow(sep, child, level, phase) =>
         phase.Cas? || (level in th.path && Waiting(ps, child, level + 1, sep))
  }

  ghost predicate CacheOk(ps: Pages, c: Cache) {
    && (c.gRoot == NULL || c.gRoot == c.handle)
    && (c.handle != NULL ==> c.handle in ps && ps[c.handle].lowest == MIN_KEY && ps[c.handle].level == c.height)
  }

  predicate HoldsLock(pc: Pc) { pc.Grow? && (pc.phase.Locked? || pc.phase.Build? || pc.phase.Cas?) }
  predicate HoldsMutex(pc: Pc) { pc.Grow? && !pc.phase.Check? }
  predicate InCas(pc: Pc) { pc.Grow? && pc.phase.Cas? }

  /** The root locks are held by exactly the threads whose phase says so. */
  ghost predicate LocksOk(s: Sys) {
    && (forall t :: 0 <= t < |s.threads| ==> s.threads[t].node < |s.caches|)
    && (forall t :: 0 <= t < |s.threads| ==> (HoldsLock(s.threads[t].pc) <==> s.lock == Some(t)))
    && (forall t :: 0 <= t < |s.threads| ==>
          (HoldsMutex(s.threads[t].pc) <==> s.caches[s.threads[t].node].mtx == Some(t)))
    && (s.lock.Some? ==> s.lock.value < |s.threads|)
    && (forall n :: 0 <= n < |s.caches| && s.caches[n].mtx.Some? ==>
          s.caches[n].mtx.value < |s.threads| && s.threads[s.caches[n].mtx.value].node == n)
  }

  ghost predicate Swinging(s: Sys) {
    s.lock.Some? && s.lock.value < |s.threads| && InCas(s.threads[s.lock.value].pc)
  }

  /** The index entry names the topmost page, except between building a new root and swinging the entry. */
  ghost predicate EntryOk(s: Sys) {
    && s.entry in s.pages && s.pages[s.entry].lowest == MIN_KEY && s.top in s.pages
    && (!Swinging(s) ==> s.top == s.entry)
    && (Swinging(s) ==>
          var ph := s.threads[s.lock.value].pc.phase;
          ph.oldRoot == s.entry && ph.newRoot == s.top && s.pages[s.top].level == s.pages[s.entry].level + 1)
    && (forall t :: 0 <= t < |s.threads| && s.threads[t].pc.Grow? && s.threads[t].pc.phase.Build? ==>
          var th := s.threads[t];
          th.pc.level in th.path && th.path[th.pc.level] == s.entry && s.pages[s.entry].level == th.pc.level)
  }

  /** No node believes in a taller tree than the index entry, except the one that is growing it. */
  ghost predicate HeightsOk(s: Sys) {
    forall n :: 0 <= n < |s.caches| && s.caches[n].handle != NULL && s.entry in s.pages ==>
      s.caches[n].height <= s.pages[s.entry].level || (Swinging(s) && s.threads[s.lock.value].node == n)
  }

  ghost predicate NoneFull(ps: Pages) {
    forall a :: a in ps ==> !Full(ps[a])
  }

  ghost predicate TreeInv(ps: Pages, top: Addr, ths: seq<Thread>) {
    Tree(ps, top, Pend(ths)) && NoneFull(ps) && OneOwner(ths)
  }

  ghost predicate ThreadsInv(ps: Pages, ths: seq<Thread>) {
    forall t :: 0 <= t < |ths| ==> ThreadOk(ps, ths[t])
  }

  ghost predicate RootInv(s: Sys) {
    && LocksOk(s) && EntryOk(s) && HeightsOk(s)
    && forall n :: 0 <= n < |s.caches| ==> CacheOk(s.pages, s.caches[n])
  }

  ghost predicate Inv(s: Sys) {
    TreeInv(s.pages, s.top, s.threads) && ThreadsInv(s.pages, s.threads) && RootInv(s)
  }
}
