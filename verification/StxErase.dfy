/** Erasing one pair from the B+ tree: merges, shifts between siblings, and collapse at the root. */
module StxErase {
  import opened Options
  import opened StxTree
  import opened StxInsert

  function RemoveAt<T>(s: seq<T>, i: nat): (r: seq<T>)
    requires i < |s|
    ensures |r| == |s| - 1
  {
    s[..i] + s[i + 1..]
  }

  /** What an erasure did to a node: nothing (the key was not there), or the node without the pair, with its new last
      key when that changed, and the two leaves of which the right one was merged into the left one. */
  datatype Era<V> = Missing | Gone(node: Node<V>, last: Option<Key>, merged: Option<(Id, Id)>)

  function EraseLeaf<V>(id: Id, items: seq<Item<V>>, k: Key): Era<V> {
    var slot := LowerItem(items, k);
    if slot >= |items| || items[slot].key != k then Missing
    else
      var rest := RemoveAt(items, slot);
      Gone(Leaf(id, rest), if slot == |rest| && rest != [] then Some(rest[|rest| - 1].key) else None, None)
  }

  /* ---- Choosing a repair ---- */

  /** A neighbour of an underfull node: none, one below the same parent, or one below another parent. */
  datatype Side = Absent | Near(use: nat) | Far(use: nat)

  datatype Repair = MergeLeft | MergeRight | TakeLeft | TakeRight

  predicate Few(s: Side, min: nat) {
    s.Absent? || s.use <= min
  }

  /** The case analysis on the neighbours. */
  function Choose(left: Side, right: Side, min: nat): Repair {
    if Few(left, min) && Few(right, min) then (if left.Near? then MergeLeft else MergeRight)
    else if !left.Absent? && Few(left, min) && !right.Absent? && !Few(right, min) then
      (if right.Near? then TakeRight else MergeLeft)
    else if !left.Absent? && !Few(left, min) && !right.Absent? && Few(right, min) then
      (if left.Near? then TakeLeft else MergeRight)
    else if left.Near? && right.Near? then (if left.use <= right.use then TakeRight else TakeLeft)
    else if left.Near? then TakeLeft
    else TakeRight
  }

  /** Cousins make no difference. Between two siblings a node merges with the left one when neither has anything to
      spare; otherwise it takes from the one that has, and from the right one unless the left one has more. With one
      sibling it merges with it when that has nothing to spare, else it takes from it. */
  lemma RepairChoice(left: Side, right: Side, min: nat)
    requires left.Near? || right.Near?
    ensures Choose(left, right, min) ==
            if left.Near? && right.Near? then
              if left.use <= min && right.use <= min then MergeLeft
              else if right.use >= left.use then TakeRight
              else TakeLeft
            else if left.Near? then (if left.use <= min then MergeLeft else TakeLeft)
            else if right.use <= min then MergeRight
            else TakeRight
  {}

  /** A shift leaves the two nodes even, or the giving one with one more. */
  lemma ShiftsEvenly<V>(l: Node<V>, key: Key, r: Node<V>)
    requires (l.Leaf? <==> r.Leaf?) && (l.Inner? ==> |l.kids| == |l.keys| + 1) &&
             (r.Inner? ==> |r.kids| == |r.keys| + 1)
    ensures Use(l) + 2 <= Use(r) ==>
              var (x, _, y) := ShiftLeft(l, key, r); Use(x) + Use(y) == Use(l) + Use(r) && 0 <= Use(y) - Use(x) <= 1
    ensures Use(r) + 2 <= Use(l) ==>
              var (x, _, y) := ShiftRight(l, key, r); Use(x) + Use(y) == Use(l) + Use(r) && 0 <= Use(x) - Use(y) <= 1
  {}

  /** Whatever lies below other parents, the repair is with a child of the same parent; a merge is with one that has
      nothing to spare, a shift with one that has. */
  lemma RepairIsLocal(left: Side, right: Side, min: nat)
    requires left.Near? || right.Near?
    ensures match Choose(left, right, min)
            case MergeLeft => left.Near? && left.use <= min
            case MergeRight => right.Near? && right.use <= min
            case TakeLeft => left.Near? && left.use > min
            case TakeRight => right.Near? && right.use > min
  {
  }

  /* ---- The repairs ---- */

  /** Two siblings and the key between them as one node. */
  function Join<V>(l: Node<V>, key: Key, r: Node<V>): Node<V> {
    if l.Leaf? && r.Leaf? then Leaf(l.id, l.items + r.items)
    else if l.Inner? && r.Inner? then Inner(l.keys + [key] + r.keys, l.kids + r.kids)
    else l
  }

  /** merge_leaves or merge_inner of children i and i + 1, and the removal of the emptied one from the parent. */
  function Merge<V>(keys: seq<Key>, kids: seq<Node<V>>, i: nat, h: nat): Node<V>
    requires i + 1 < |kids| == |keys| + 1
  {
    var m := Join(kids[i], keys[i], kids[i + 1]);
    var rest := keys[..i] + keys[i + 1..];
    Inner(if h == 0 && i < |rest| then rest[i := MaxKey(m, 0)] else rest, kids[..i] + [m] + kids[i + 2..])
  }

  /** shift_left_leaf and shift_left_inner: half the surplus of r moves to l. */
  function ShiftLeft<V>(l: Node<V>, key: Key, r: Node<V>): (Node<V>, Key, Node<V>)
    requires Use(l) + 2 <= Use(r) && (l.Leaf? <==> r.Leaf?) && (r.Inner? ==> |r.kids| == |r.keys| + 1)
  {
    var s := (Use(r) - Use(l)) / 2;
    match r
    case Leaf(_, items) =>
      var left := l.items + items[..s];
      (Leaf(l.id, left), left[|left| - 1].key, Leaf(r.id, items[s..]))
    case Inner(keys, kids) =>
      (Inner(l.keys + [key] + keys[..s - 1], l.kids + kids[..s]), keys[s - 1], Inner(keys[s..], kids[s..]))
  }

  /** shift_right_leaf and shift_right_inner: half the surplus of l moves to r. */
  function ShiftRight<V>(l: Node<V>, key: Key, r: Node<V>): (Node<V>, Key, Node<V>)
    requires Use(r) + 2 <= Use(l) && (l.Leaf? <==> r.Leaf?) && (l.Inner? ==> |l.kids| == |l.keys| + 1)
  {
    var s := (Use(l) - Use(r)) / 2;
    match l
    case Leaf(_, items) =>
      var n := |items| - s;
      (Leaf(l.id, items[..n]), items[n - 1].key, Leaf(r.id, items[n..] + r.items))
    case Inner(keys, kids) =>
      var n := |keys| - s;
      (Inner(keys[..n], kids[..n + 1]), keys[n], Inner(keys[n + 1..] + [key] + r.keys, kids[n + 1..] + r.kids))
  }

  function PutPair<V>(keys: seq<Key>, kids: seq<Node<V>>, i: nat, p: (Node<V>, Key, Node<V>)): (n: Node<V>)
    requires i + 1 < |kids| == |keys| + 1
    ensures n.Inner?
  {
    Inner(keys[i := p.1], kids[i := p.0][i + 1 := p.2])
  }

  /** A shift leaves the joined node, cut in two at another place. */
  ghost predicate IsJoinCut<V>(l: Node<V>, key: Key, r: Node<V>, p: (Node<V>, Key, Node<V>), m: nat) {
    if l.Leaf? then
      && r.Leaf? && 0 < m <= |l.items + r.items|
      && p == (Leaf(l.id, (l.items + r.items)[..m]), (l.items + r.items)[m - 1].key,
               Leaf(r.id, (l.items + r.items)[m..]))
    else
      r.Inner? && IsCut(Two(p.0, p.1, p.2), l.keys + [key] + r.keys, l.kids + r.kids, m)
  }

  lemma ShiftLeftIsCut<V>(l: Node<V>, key: Key, r: Node<V>)
    requires Use(l) + 2 <= Use(r) && (l.Leaf? <==> r.Leaf?)
    requires (l.Inner? ==> |l.kids| == |l.keys| + 1 && |r.kids| == |r.keys| + 1)
    ensures IsJoinCut(l, key, r, ShiftLeft(l, key, r), Use(l) + (Use(r) - Use(l)) / 2)
  {
    if l.Leaf? { CutBehind(l.items, r.items, (Use(r) - Use(l)) / 2); } else { InnerShiftIsCut(l, key, r); }
  }

  lemma InnerShiftIsCut<V>(l: Node<V>, key: Key, r: Node<V>)
    requires Use(l) + 2 <= Use(r) && l.Inner? && r.Inner?
    requires |l.kids| == |l.keys| + 1 && |r.kids| == |r.keys| + 1
    ensures IsJoinCut(l, key, r, ShiftLeft(l, key, r), Use(l) + (Use(r) - Use(l)) / 2)
  {
    var s := (|r.keys| - |l.keys|) / 2;
    CutBehind(l.keys + [key], r.keys, s - 1);
    CutBehind(l.keys + [key], r.keys, s);
    CutBehind(l.kids, r.kids, s);
  }

  lemma CutBehind<T>(a: seq<T>, b: seq<T>, s: nat)
    requires s <= |b|
    ensures (a + b)[..|a| + s] == a + b[..s] && (a + b)[|a| + s..] == b[s..]
  {
  }

  lemma ShiftRightIsCut<V>(l: Node<V>, key: Key, r: Node<V>)
    requires Use(r) + 2 <= Use(l) && (l.Leaf? <==> r.Leaf?)
    requires (l.Inner? ==> |l.kids| == |l.keys| + 1 && |r.kids| == |r.keys| + 1)
    ensures IsJoinCut(l, key, r, ShiftRight(l, key, r), Use(l) - (Use(l) - Use(r)) / 2)
  {
    var m := Use(l) - (Use(l) - Use(r)) / 2;
    if l.Leaf? {
      assert (l.items + r.items)[..m] == l.items[..m] && (l.items + r.items)[m..] == l.items[m..] + r.items;
    } else {
      var ks, cs := l.keys + [key] + r.keys, l.kids + r.kids;
      assert ks[..m] == l.keys[..m] && ks[m + 1..] == l.keys[m + 1..] + [key] + r.keys;
      assert cs[..m + 1] == l.kids[..m + 1] && cs[m + 1..] == l.kids[m + 1..] + r.kids;
    }
  }

  /* ---- What a repair keeps ---- */

  /** Two siblings, the key between them, as a pair of good nodes. */
  lemma JoinCutOk<V>(l: Node<V>, key: Key, r: Node<V>, p: (Node<V>, Key, Node<V>), m: nat, h: nat)
    requires Fits(l, h) && Fits(r, h) && key == MaxKey(l, h) && IsJoinCut(l, key, r, p, m)
    requires MinUse(h) <= m <= MaxUse(h)
    requires MinUse(h) <= Use(l) + Use(r) - m <= MaxUse(h)
    ensures KidOk(p.0, h) && KidOk(p.2, h) && p.1 == MaxKey(p.0, h)
    ensures Flatten(p.0, h) + Flatten(p.2, h) == Flatten(l, h) + Flatten(r, h)
  {
    hide KidsOk, KeysOk, MaxKey;
    if l.Leaf? {
      var js := l.items + r.items;
      assert js[..m] + js[m..] == js;
      MaxOfLeaf(p.0);
    } else {
      var ks, cs := l.keys + [key] + r.keys, l.kids + r.kids;
      KidsJoin(l, key, r, h);
      CutOk(Two(p.0, p.1, p.2), ks, cs, m, h);
      FlatConcat(l.kids, r.kids, h - 1);
    }
  }

  lemma MaxOfLeaf<V>(n: Node<V>)
    requires n.Leaf? && n.items != []
    ensures MaxKey(n, 0) == n.items[|n.items| - 1].key
  {
  }

  /** The children of two siblings, with the key between the siblings, are good children of one node. */
  lemma KidsJoin<V>(l: Node<V>, key: Key, r: Node<V>, h: nat)
    requires l.Inner? && r.Inner? && Fits(l, h) && Fits(r, h) && key == MaxKey(l, h)
    ensures h > 0 && KidsOk(l.kids + r.kids, h - 1) && KeysOk(l.keys + [key] + r.keys, l.kids + r.kids, h - 1)
  {
    hide MaxKey, KidOk;
    MaxOfInner(l, h);
    var ks, cs := l.keys + [key] + r.keys, l.kids + r.kids;
    forall i {:trigger ks[i]} | 0 <= i < |ks| ensures ks[i] == MaxKey(cs[i], h - 1) {
      if i < |l.keys| { assert ks[i] == l.keys[i] && cs[i] == l.kids[i]; }
      else if i > |l.keys| { assert ks[i] == r.keys[i - |l.kids|] && cs[i] == r.kids[i - |l.kids|]; }
    }
  }

  /** A merged pair is one good node. */
  lemma JoinOk<V>(l: Node<V>, key: Key, r: Node<V>, h: nat)
    requires Fits(l, h) && Fits(r, h) && key == MaxKey(l, h)
    requires MinUse(h) <= Use(l) + Use(r) < MaxUse(h)
    ensures KidOk(Join(l, key, r), h) && Flatten(Join(l, key, r), h) == Flatten(l, h) + Flatten(r, h)
  {
    hide KidsOk, KeysOk, MaxKey;
    if l.Inner? {
      KidsJoin(l, key, r, h);
      FlatConcat(l.kids, r.kids, h - 1);
    }
  }

  /** Children that are all good but for those at i and i + 1, which fit. */
  ghost predicate OkBut<V>(keys: seq<Key>, kids: seq<Node<V>>, i: nat, h: nat) {
    && KeysOk(keys, kids, h) && i + 1 < |kids| && Fits(kids[i], h) && Fits(kids[i + 1], h)
    && KidsOk(kids[..i], h) && KidsOk(kids[i + 2..], h)
  }

  lemma FlatPair<V>(kids: seq<Node<V>>, i: nat, h: nat)
    requires i + 1 < |kids|
    ensures FlatAll(kids, h)
         == FlatAll(kids[..i], h) + (Flatten(kids[i], h) + Flatten(kids[i + 1], h)) + FlatAll(kids[i + 2..], h)
  {
    hide FlatAll, Flatten;
    FlatAround(kids, i, h);
    FlatAround(kids[i + 1..], 0, h);
    assert kids[i + 1..][..0] == [] && kids[i + 1..][0 + 1..] == kids[i + 2..];
    FlatNone<V>(h);
  }

  lemma SameMax<V>(r: Node<V>, n: Node<V>, front: seq<Item<V>>, back: seq<Item<V>>, h: nat)
    requires Fits(r, h) && Fits(n, h) && front + Flatten(n, h) == back + Flatten(r, h)
    ensures MaxKey(n, h) == MaxKey(r, h)
  {
    hide Flatten, Fits, MaxKey;
    MaxIsLast(r, h);
    MaxIsLast(n, h);
    var a, b := front + Flatten(n, h), back + Flatten(r, h);
    assert a[|a| - 1] == b[|b| - 1];
  }

  /** Replacing two neighbours by a merged node. */
  lemma MergeOk<V>(keys: seq<Key>, kids: seq<Node<V>>, i: nat, h: nat)
    requires OkBut(keys, kids, i, h) && MinUse(h) <= Use(kids[i]) + Use(kids[i + 1]) < MaxUse(h)
    ensures var n := Merge(keys, kids, i, h);
            && n.Inner? && |n.keys| == |keys| - 1 && KidsOk(n.kids, h) && KeysOk(n.keys, n.kids, h)
            && FlatAll(n.kids, h) == FlatAll(kids, h)
  {
    hide KidOk, Fits, MaxKey, FlatAll, Flatten, Join;
    var l, r := kids[i], kids[i + 1];
    var m := Join(l, keys[i], r);
    JoinOk(l, keys[i], r, h);
    KidOkMeans(m, h);
    SameMax(r, m, [], Flatten(l, h), h);
    assert [] + Flatten(m, h) == Flatten(m, h);
    var n := Merge(keys, kids, i, h);
    MergedFlat(kids, i, m, h);
    MergedKeys(keys, kids, i, m, h);
  }

  lemma MergedFlat<V>(kids: seq<Node<V>>, i: nat, m: Node<V>, h: nat)
    requires i + 1 < |kids| && Flatten(m, h) == Flatten(kids[i], h) + Flatten(kids[i + 1], h)
    ensures FlatAll(kids[..i] + [m] + kids[i + 2..], h) == FlatAll(kids, h)
  {
    hide FlatAll, Flatten;
    FlatPair(kids, i, h);
    FlatAround(kids[..i] + [m] + kids[i + 2..], i, h);
    var cs := kids[..i] + [m] + kids[i + 2..];
    assert cs[..i] == kids[..i] && cs[i + 1..] == kids[i + 2..];
  }

  lemma MergedKeys<V>(keys: seq<Key>, kids: seq<Node<V>>, i: nat, m: Node<V>, h: nat)
    requires OkBut(keys, kids, i, h) && KidOk(m, h) && MaxKey(m, h) == MaxKey(kids[i + 1], h)
    ensures var rest, cs := keys[..i] + keys[i + 1..], kids[..i] + [m] + kids[i + 2..];
            && KidsOk(cs, h) && KeysOk(rest, cs, h) && (i < |rest| ==> rest[i] == MaxKey(m, h))
  {
    hide KidOk, Fits, MaxKey;
    var rest, cs := keys[..i] + keys[i + 1..], kids[..i] + [m] + kids[i + 2..];
    forall j {:trigger cs[j]} | 0 <= j < |cs| ensures KidOk(cs[j], h) {
      if j < i { assert cs[j] == kids[..i][j]; }
      else if j > i { assert cs[j] == kids[i + 2..][j - i - 1]; }
    }
    forall j {:trigger rest[j]} | 0 <= j < |rest| ensures rest[j] == MaxKey(cs[j], h) {
      if j < i { assert rest[j] == keys[j] && cs[j] == kids[j]; }
      else if j == i { assert rest[j] == keys[i + 1]; }
      else { assert rest[j] == keys[j + 1] && cs[j] == kids[j + 1]; }
    }
  }

  /** Replacing two neighbours by two that hold the same items. */
  lemma PairOk<V>(keys: seq<Key>, kids: seq<Node<V>>, i: nat, h: nat, p: (Node<V>, Key, Node<V>))
    requires OkBut(keys, kids, i, h) && KidOk(p.0, h) && KidOk(p.2, h) && p.1 == MaxKey(p.0, h)
    requires Flatten(p.0, h) + Flatten(p.2, h) == Flatten(kids[i], h) + Flatten(kids[i + 1], h)
    ensures var n := PutPair(keys, kids, i, p);
            && |n.keys| == |keys| && KidsOk(n.kids, h) && KeysOk(n.keys, n.kids, h)
            && FlatAll(n.kids, h) == FlatAll(kids, h)
  {
    hide KidOk, Fits, MaxKey, FlatAll, Flatten;
    KidOkMeans(p.2, h);
    SameMax(kids[i + 1], p.2, Flatten(p.0, h), Flatten(kids[i], h), h);
    var n := PutPair(keys, kids, i, p);
    var cs := n.kids;
    FlatPair(kids, i, h);
    FlatPair(cs, i, h);
    assert cs[..i] == kids[..i] && cs[i + 2..] == kids[i + 2..];
    forall j {:trigger cs[j]} | 0 <= j < |cs| ensures KidOk(cs[j], h) {
      if j < i { assert cs[j] == kids[..i][j]; }
      else if j > i + 1 { assert cs[j] == kids[i + 2..][j - i - 2]; }
    }
  }

  /* ---- Erasing ---- */

  function SideOf<V>(near: Option<Node<V>>, far: Option<Node<V>>): Side {
    if near.Some? then Near(Use(near.value)) else if far.Some? then Far(Use(far.value)) else Absent
  }

  function KidAtSlot<V>(kids: seq<Node<V>>, i: int): Option<Node<V>> {
    if 0 <= i < |kids| then Some(kids[i]) else None
  }

  function IdOf<V>(n: Node<V>): Id { if n.Leaf? then n.id else NONE }

  /** The leaves that the repair of child slot merges, if it does: the right one goes into the left one. */
  function MergedLeaves<V>(kids: seq<Node<V>>, slot: nat, h: nat, left: Option<Node<V>>,
                           right: Option<Node<V>>): Option<(Id, Id)>
    requires slot < |kids|
  {
    if h > 0 || Use(kids[slot]) >= MinUse(h) then None
    else
      match Choose(SideOf(KidAtSlot(kids, slot - 1), left), SideOf(KidAtSlot(kids, slot + 1), right), MinUse(h))
      case MergeLeft => if slot > 0 then Some((IdOf(kids[slot - 1]), IdOf(kids[slot]))) else None
      case MergeRight => if slot + 1 < |kids| then Some((IdOf(kids[slot]), IdOf(kids[slot + 1]))) else None
      case _ => None
  }

  /** Children that are all good but for an underfull one. */
  ghost predicate OneUnder<V>(keys: seq<Key>, kids: seq<Node<V>>, slot: nat, h: nat) {
    && KeysOk(keys, kids, h) && slot < |kids| && Fits(kids[slot], h) && Use(kids[slot]) + 1 == MinUse(h)
    && KidsOk(kids[..slot], h) && KidsOk(kids[slot + 1..], h)
  }

  lemma OneUnderPairs<V>(keys: seq<Key>, kids: seq<Node<V>>, slot: nat, h: nat)
    requires OneUnder(keys, kids, slot, h)
    ensures slot > 0 ==> OkBut(keys, kids, slot - 1, h) && MinUse(h) <= Use(kids[slot - 1]) <= MaxUse(h)
    ensures slot + 1 < |kids| ==> OkBut(keys, kids, slot, h) && MinUse(h) <= Use(kids[slot + 1]) <= MaxUse(h)
    ensures forall i {:trigger kids[i]} :: 0 <= i < |kids| ==> Fits(kids[i], h)
  {
    hide Fits, MaxKey;
    forall i {:trigger kids[i]} | 0 <= i < |kids| && i != slot ensures KidOk(kids[i], h) && Use(kids[i]) <= MaxUse(h) {
      if i < slot { KidAt(kids[..slot], i, h); } else { KidAt(kids[slot + 1..], i - slot - 1, h); }
      FitsUse(kids[i], h);
    }
    if slot > 0 {
      assert forall i :: 0 <= i < slot - 1 ==> kids[..slot - 1][i] == kids[i];
      assert kids[slot - 1 + 2..] == kids[slot + 1..];
    }
    if slot + 1 < |kids| {
      var rest := kids[slot + 2..];
      forall i {:trigger rest[i]} | 0 <= i < |rest| ensures KidOk(rest[i], h) { assert rest[i] == kids[slot + 2 + i]; }
    }
  }

  lemma FitsUse<V>(n: Node<V>, h: nat)
    requires Fits(n, h)
    ensures Use(n) <= MaxUse(h) && (n.Leaf? <==> h == 0) && (n.Inner? ==> |n.kids| == |n.keys| + 1)
  {
  }

  /** The repair of the underfull child at slot; left and right are the neighbours below other parents. */
  function Rebalance<V>(keys: seq<Key>, kids: seq<Node<V>>, slot: nat, h: nat, left: Option<Node<V>>,
                        right: Option<Node<V>>): Node<V>
    requires |kids| > 1 && OneUnder(keys, kids, slot, h)
  {
    var ls, rs := SideOf(KidAtSlot(kids, slot - 1), left), SideOf(KidAtSlot(kids, slot + 1), right);
    RepairIsLocal(ls, rs, MinUse(h));
    OneUnderPairs(keys, kids, slot, h);
    match Choose(ls, rs, MinUse(h))
    case MergeLeft => Merge(keys, kids, slot - 1, h)
    case MergeRight => Merge(keys, kids, slot, h)
    case TakeLeft =>
      FitsUse(kids[slot - 1], h);
      FitsUse(kids[slot], h);
      PutPair(keys, kids, slot - 1, ShiftRight(kids[slot - 1], keys[slot - 1], kids[slot]))
    case TakeRight =>
      FitsUse(kids[slot], h);
      FitsUse(kids[slot + 1], h);
      PutPair(keys, kids, slot, ShiftLeft(kids[slot], keys[slot], kids[slot + 1]))
  }

  /** Every repair leaves good children with the same items; each merge fits and each shift has something to give. */
  lemma RebalanceOk<V>(keys: seq<Key>, kids: seq<Node<V>>, slot: nat, h: nat, left: Option<Node<V>>,
                       right: Option<Node<V>>)
    requires |kids| > 1 && OneUnder(keys, kids, slot, h)
    ensures var n := Rebalance(keys, kids, slot, h, left, right);
            && n.Inner? && |keys| - 1 <= |n.keys| <= |keys| && KidsOk(n.kids, h) && KeysOk(n.keys, n.kids, h)
            && FlatAll(n.kids, h) == FlatAll(kids, h)
  {
    hide KidsOk, KeysOk, Fits, MaxKey, FlatAll, Flatten, Merge, PutPair, ShiftLeft, ShiftRight, Choose;
    var ls, rs := SideOf(KidAtSlot(kids, slot - 1), left), SideOf(KidAtSlot(kids, slot + 1), right);
    RepairIsLocal(ls, rs, MinUse(h));
    OneUnderPairs(keys, kids, slot, h);
    match Choose(ls, rs, MinUse(h)) {
      case MergeLeft => MergeOk(keys, kids, slot - 1, h);
      case MergeRight => MergeOk(keys, kids, slot, h);
      case TakeLeft =>
        FitsUse(kids[slot - 1], h);
        FitsUse(kids[slot], h);
        TakeLeftOk(keys, kids, slot, h);
      case TakeRight =>
        FitsUse(kids[slot], h);
        FitsUse(kids[slot + 1], h);
        TakeRightOk(keys, kids, slot, h);
    }
  }

  lemma TakeLeftOk<V>(keys: seq<Key>, kids: seq<Node<V>>, slot: nat, h: nat)
    requires 0 < slot && OkBut(keys, kids, slot - 1, h) && Use(kids[slot]) + 1 == MinUse(h)
    requires MinUse(h) < Use(kids[slot - 1]) <= MaxUse(h)
    requires (kids[slot - 1].Leaf? <==> kids[slot].Leaf?) &&
             (kids[slot - 1].Inner? ==> |kids[slot - 1].kids| == |kids[slot - 1].keys| + 1)
    ensures var n := PutPair(keys, kids, slot - 1, ShiftRight(kids[slot - 1], keys[slot - 1], kids[slot]));
            && |n.keys| == |keys| && KidsOk(n.kids, h) && KeysOk(n.keys, n.kids, h)
            && FlatAll(n.kids, h) == FlatAll(kids, h)
  {
    hide KidsOk, Fits, MaxKey, FlatAll, Flatten, ShiftRight, IsJoinCut, PutPair;
    var l, key, r := kids[slot - 1], keys[slot - 1], kids[slot];
    FitsUse(r, h);
    ShiftRightIsCut(l, key, r);
    JoinCutOk(l, key, r, ShiftRight(l, key, r), Use(l) - (Use(l) - Use(r)) / 2, h);
    PairOk(keys, kids, slot - 1, h, ShiftRight(l, key, r));
  }

  lemma TakeRightOk<V>(keys: seq<Key>, kids: seq<Node<V>>, slot: nat, h: nat)
    requires OkBut(keys, kids, slot, h) && Use(kids[slot]) + 1 == MinUse(h)
    requires MinUse(h) < Use(kids[slot + 1]) <= MaxUse(h)
    requires (kids[slot].Leaf? <==> kids[slot + 1].Leaf?) &&
             (kids[slot + 1].Inner? ==> |kids[slot + 1].kids| == |kids[slot + 1].keys| + 1)
    ensures var n := PutPair(keys, kids, slot, ShiftLeft(kids[slot], keys[slot], kids[slot + 1]));
            && |n.keys| == |keys| && KidsOk(n.kids, h) && KeysOk(n.keys, n.kids, h)
            && FlatAll(n.kids, h) == FlatAll(kids, h)
  {
    hide KidsOk, Fits, MaxKey, FlatAll, Flatten, ShiftLeft, IsJoinCut, PutPair;
    var l, key, r := kids[slot], keys[slot], kids[slot + 1];
    FitsUse(l, h);
    ShiftLeftIsCut(l, key, r);
    JoinCutOk(l, key, r, ShiftLeft(l, key, r), Use(l) + (Use(r) - Use(l)) / 2, h);
    PairOk(keys, kids, slot, h, ShiftLeft(l, key, r));
  }

  /** The pair at the place of k is gone, if its key is k, and the node still fits. */
  ghost predicate Erased<V>(n: Node<V>, h: nat, k: Key, r: Era<V>) {
    var f := Flatten(n, h);
    var p := LowerItem(f, k);
    if p < |f| && f[p].key == k then
      && r.Gone? && Fits(r.node, h) && Use(r.node) + 1 >= Use(n) && Flatten(r.node, h) == RemoveAt(f, p)
      && MaxKey(r.node, h) == (if r.last.Some? then r.last.value else MaxKey(n, h))
    else r.Missing?
  }

  lemma LeafErased<V>(id: Id, items: seq<Item<V>>, k: Key)
    requires Fits(Leaf(id, items), 0) && |items| >= 2
    ensures Erased(Leaf(id, items), 0, k, EraseLeaf(id, items, k))
  {
    hide LowerItem;
  }

  /** The separators and children once child slot lost a pair and its new last key, if any, was taken over. */
  ghost predicate AfterErase<V>(keys: seq<Key>, kids: seq<Node<V>>, slot: nat, h: nat) {
    && |kids| > 1 && KeysOk(keys, kids, h) && slot < |kids| && Fits(kids[slot], h) && Use(kids[slot]) + 1 >= MinUse(h)
    && KidsOk(kids[..slot], h) && KidsOk(kids[slot + 1..], h)
  }

  function TakeLast(keys: seq<Key>, slot: nat, last: Option<Key>): (r: seq<Key>)
    ensures |r| == |keys|
  {
    if last.Some? && slot < |keys| then keys[slot := last.value] else keys
  }

  lemma KidErased<V>(n: Node<V>, h: nat, k: Key, slot: nat, r: Era<V>)
    requires n.Inner? && Fits(n, h) && Use(n) >= 1 && slot < |n.kids| && Fits(n.kids[slot], h - 1)
    requires r.Gone? && Erased(n.kids[slot], h - 1, k, r)
    ensures AfterErase(TakeLast(n.keys, slot, r.last), n.kids[slot := r.node], slot, h - 1)
  {
    hide Fits, MaxKey, FlatAll, Flatten, KidOk, LowerItem;
    FitsInner(n, h);
    KidAt(n.kids, slot, h - 1);
    var ks, cs := TakeLast(n.keys, slot, r.last), n.kids[slot := r.node];
    assert cs[..slot] == n.kids[..slot] && cs[slot + 1..] == n.kids[slot + 1..];
    assert KidsOk(cs[..slot], h - 1);
    var rest := n.kids[slot + 1..];
    forall i {:trigger rest[i]} | 0 <= i < |rest|
      ensures KidOk(rest[i], h - 1)
    {
      assert rest[i] == n.kids[slot + 1 + i];
    }
  }

  /** What the parent does when a pair is gone from child slot: it repairs an underfull child. */
  function Repaired<V>(keys: seq<Key>, kids: seq<Node<V>>, slot: nat, h: nat,
                       far: Option<Node<V>>, fir: Option<Node<V>>): (n: Node<V>)
    requires AfterErase(keys, kids, slot, h)
    ensures n.Inner? && |keys| - 1 <= |n.keys| <= |keys| && KidsOk(n.kids, h) && KeysOk(n.keys, n.kids, h)
    ensures FlatAll(n.kids, h) == FlatAll(kids, h)
  {
    if Use(kids[slot]) < MinUse(h) then
      RebalanceOk(keys, kids, slot, h, far, fir);
      Rebalance(keys, kids, slot, h, far, fir)
    else
      NoneUnder(keys, kids, slot, h);
      Inner(keys, kids)
  }

  lemma NoneUnder<V>(keys: seq<Key>, kids: seq<Node<V>>, slot: nat, h: nat)
    requires AfterErase(keys, kids, slot, h) && Use(kids[slot]) >= MinUse(h)
    ensures KidsOk(kids, h)
  {
    hide Fits, MaxKey;
    forall i {:trigger kids[i]} | 0 <= i < |kids| ensures KidOk(kids[i], h) {
      if i < slot { KidAt(kids[..slot], i, h); } else if i > slot { KidAt(kids[slot + 1..], i - slot - 1, h); }
    }
  }

  /** A node that a pair can be erased from: erasing the last one is left to the root. */
  predicate Erasable<V>(n: Node<V>, h: nat) {
    Fits(n, h) && Sorted(Flatten(n, h)) && Use(n) >= if h == 0 then 2 else 1
  }

  /** erase_one_descend: exactly the first pair with the key goes, or nothing when there is none, and every node keeps
      its shape. The neighbours passed down for the first and last child are below other parents; on the left it is
      the last but one child there that the code passes. */
  function Erase<V>(n: Node<V>, h: nat, k: Key, left: Option<Node<V>>, right: Option<Node<V>>): (res: Era<V>)
    requires Erasable(n, h)
    ensures Erased(n, h, k, res)
    decreases h
  {
    hide KidsOk, KeysOk, Flatten, Sorted, TakeLast, MaxKey, LowerItem, Erased;
    match n
    case Leaf(id, items) =>
      LeafErased(id, items, k);
      EraseLeaf(id, items, k)
    case Inner(keys, kids) =>
      FitsInner(n, h);
      var slot := Lower(keys, k);
      LowerInChild(n, h, k);
      KidAt(kids, slot, h - 1);
      var far := if left.Some? && left.value.Inner? then KidAtSlot(left.value.kids, |left.value.keys| - 1) else None;
      var fir := if right.Some? && right.value.Inner? then KidAtSlot(right.value.kids, 0) else None;
      var l := if slot == 0 then far else Some(kids[slot - 1]);
      var r := if slot == |keys| then fir else Some(kids[slot + 1]);
      var e := Erase(kids[slot], h - 1, k, l, r);
      if e.Missing? then
        MissingUp(n, h, k, slot);
        Missing
      else
        KidErased(n, h, k, slot, e);
        var up := Lifted(n, h, slot, e, far, fir);
        ErasedUp(n, h, k, slot, e, up.node, up.merged);
        up
  }

  /** What erase_one_descend hands up from an inner node, from what came up out of its child. */
  function Lifted<V>(n: Node<V>, h: nat, slot: nat, e: Era<V>, far: Option<Node<V>>, fir: Option<Node<V>>): (r: Era<V>)
    requires n.Inner? && h > 0 && slot < |n.kids| == |n.keys| + 1 && e.Gone?
    requires AfterErase(TakeLast(n.keys, slot, e.last), n.kids[slot := e.node], slot, h - 1)
    ensures r.Gone?
  {
    var keys, kids := TakeLast(n.keys, slot, e.last), n.kids[slot := e.node];
    Gone(Repaired(keys, kids, slot, h - 1, far, fir), if slot == |n.keys| then e.last else None,
         if e.merged.Some? then e.merged else MergedLeaves(kids, slot, h - 1, far, fir))
  }

  /** Erase at an inner node, one level unfolded. */
  lemma EraseInner<V>(n: Node<V>, h: nat, k: Key, left: Option<Node<V>>, right: Option<Node<V>>)
    returns (slot: nat, l: Option<Node<V>>, r: Option<Node<V>>, far: Option<Node<V>>, fir: Option<Node<V>>)
    requires n.Inner? && Erasable(n, h)
    requires Erase(n, h, k, left, right).Gone?
    ensures h > 0 && slot < |n.kids| == |n.keys| + 1 && Use(n.kids[slot]) >= MinUse(h - 1)
    ensures Erasable(n.kids[slot], h - 1)
    ensures var e := Erase(n.kids[slot], h - 1, k, l, r);
            && e.Gone? && Erased(n.kids[slot], h - 1, k, e)
            && AfterErase(TakeLast(n.keys, slot, e.last), n.kids[slot := e.node], slot, h - 1)
            && Erase(n, h, k, left, right) == Lifted(n, h, slot, e, far, fir)
  {
    hide LowerItem, Lower, KidsOk, KeysOk, Flatten, Sorted, Repaired, TakeLast, MaxKey, MergedLeaves, Erased;
    FitsInner(n, h);
    slot := Lower(n.keys, k);
    LowerInChild(n, h, k);
    KidAt(n.kids, slot, h - 1);
    far := if left.Some? && left.value.Inner? then KidAtSlot(left.value.kids, |left.value.keys| - 1) else None;
    fir := if right.Some? && right.value.Inner? then KidAtSlot(right.value.kids, 0) else None;
    l := if slot == 0 then far else Some(n.kids[slot - 1]);
    r := if slot == |n.keys| then fir else Some(n.kids[slot + 1]);
    KidErased(n, h, k, slot, Erase(n.kids[slot], h - 1, k, l, r));
  }

  lemma MissingUp<V>(n: Node<V>, h: nat, k: Key, slot: nat)
    requires n.Inner? && Fits(n, h) && Sorted(Flatten(n, h)) && slot == Lower(n.keys, k)
    requires Erased(n.kids[slot], h - 1, k, Missing)
    ensures Erased(n, h, k, Missing)
  {
    hide Fits, KidsOk, KeysOk, FlatAll, LowerItem, MaxKey, Flatten, Lower, Sorted;
    FitsInner(n, h);
    LowerInChild(n, h, k);
    var f, b := Flatten(n, h), Flatten(n.kids[slot], h - 1);
    var a := FlatAll(n.kids[..slot], h - 1);
    LowerUnique(f, k, LowerItem(f, k), |a| + LowerItem(b, k));
  }

  lemma ErasedUp<V>(n: Node<V>, h: nat, k: Key, slot: nat, e: Era<V>, m: Node<V>, w: Option<(Id, Id)>)
    requires n.Inner? && Fits(n, h) && Sorted(Flatten(n, h)) && slot == Lower(n.keys, k)
    requires e.Gone? && Erased(n.kids[slot], h - 1, k, e) && m.Inner? && |n.keys| - 1 <= |m.keys| <= |n.keys|
    requires KidsOk(m.kids, h - 1) && KeysOk(m.keys, m.kids, h - 1)
    requires FlatAll(m.kids, h - 1) == FlatAll(n.kids[slot := e.node], h - 1)
    ensures Erased(n, h, k, Gone(m, if slot == |n.keys| then e.last else None, w))
  {
    hide KidsOk, KeysOk, FlatAll, LowerItem, MaxKey, Flatten, Lower, Sorted, Fits;
    FitsInner(n, h);
    UseOf(n, h);
    InnerFits(m, h);
    LowerInChild(n, h, k);
    var c, f := n.kids[slot], Flatten(n, h);
    var a, b, d := FlatAll(n.kids[..slot], h - 1), Flatten(c, h - 1), FlatAll(n.kids[slot + 1..], h - 1);
    var q := LowerItem(b, k);
    LowerUnique(f, k, LowerItem(f, k), |a| + q);
    KidAround(n.kids, slot, e.node, h - 1);
    RemoveInside(a, b, d, q);
    InnerFlat(m, h);
    MaxIsLast(n, h);
    MaxIsLast(m, h);
    MaxIsLast(e.node, h - 1);
    MaxIsLast(c, h - 1);
    if slot < |n.keys| { RestNotEmpty(n.kids, slot + 1, h - 1); }
    else { NoneFlat(n.kids, h - 1); }
  }

  lemma UseOf<V>(n: Node<V>, h: nat)
    requires Fits(n, h)
    ensures Use(n) <= MaxUse(h)
  {}

  lemma InnerFits<V>(n: Node<V>, h: nat)
    requires n.Inner? && h > 0 && Use(n) <= MaxUse(h) && KidsOk(n.kids, h - 1) && KeysOk(n.keys, n.kids, h - 1)
    ensures Fits(n, h)
  {}

  lemma NoneFlat<V>(kids: seq<Node<V>>, h: nat)
    ensures FlatAll(kids[|kids|..], h) == []
  {}

  /** Removing inside the middle part, and what the last element is then. */
  lemma RemoveInside<T>(a: seq<T>, b: seq<T>, d: seq<T>, q: nat)
    requires q < |b|
    ensures var g := a + RemoveAt(b, q) + d;
            && RemoveAt(a + b + d, |a| + q) == g
            && (d != [] ==> g[|g| - 1] == d[|d| - 1] == (a + b + d)[|a + b + d| - 1])
            && (d == [] && |b| > 1 ==> g[|g| - 1] == RemoveAt(b, q)[|b| - 2])
            && (d == [] ==> (a + b + d)[|a + b + d| - 1] == b[|b| - 1])
  {}

  lemma RestNotEmpty<V>(kids: seq<Node<V>>, i: nat, h: nat)
    requires KidsOk(kids, h) && i < |kids|
    ensures FlatAll(kids[i..], h) != []
  {
    hide Flatten, Fits;
    KidAt(kids, i, h);
    MaxIsLast(kids[i], h);
  }

  lemma KidAround<V>(kids: seq<Node<V>>, slot: nat, c: Node<V>, h: nat)
    requires slot < |kids|
    ensures FlatAll(kids[slot := c], h) == FlatAll(kids[..slot], h) + Flatten(c, h) + FlatAll(kids[slot + 1..], h)
  {
    hide FlatAll, Flatten;
    FlatAround(kids[slot := c], slot, h);
    assert kids[slot := c][..slot] == kids[..slot] && kids[slot := c][slot + 1..] == kids[slot + 1..];
  }

  /* ---- The whole tree ---- */

  datatype Tree<V> = Empty | Tree(root: Node<V>, height: nat)

  predicate TreeOk<V>(t: Tree<V>) {
    t.Tree? ==> Valid(t.root, t.height) || IsFresh(t.root, t.height)
  }

  function Contents<V>(t: Tree<V>): seq<Item<V>> {
    match t
    case Empty => []
    case Tree(n, h) => Flatten(n, h)
  }

  /** erase_one: an emptied root leaf leaves the empty tree, and a root with a single child gives way to it. */
  function EraseOne<V>(t: Tree<V>, k: Key): (r: (Tree<V>, bool))
    requires TreeOk(t)
  {
    match t
    case Empty => (Empty, false)
    case Tree(n, h) =>
      if n.Leaf? && |n.items| <= 1
      then if n.items != [] && n.items[0].key == k then (Empty, true) else (t, false)
      else
        match Erase(n, h, k, None, None)
        case Missing => (t, false)
        case Gone(m, _, _) => (if m.Inner? && m.keys == [] then Tree(m.kids[0], h - 1) else Tree(m, h), true)
  }

  /** erase_one removes exactly the first pair with the key, or reports that there is none, and the tree stays valid. */
  lemma EraseIsRemove<V>(t: Tree<V>, k: Key)
    requires TreeOk(t)
    ensures var (u, found) := EraseOne(t, k); var f := Contents(t); var p := LowerItem(f, k);
            && TreeOk(u) && (found <==> p < |f| && f[p].key == k)
            && Contents(u) == if found then RemoveAt(f, p) else f
  {
    hide FlatAll, LowerItem, Sorted, MaxKey, Erase, RemoveAt;
    if t.Tree? {
      var n, h := t.root, t.height;
      if n.Leaf? && |n.items| == 1 { LastPair(n.items[0], k); }
      else if !IsFresh(n, h) {
        var r := Erase(n, h, k, None, None);
        if r.Gone? {
          RemoveSorted(Flatten(n, h), LowerItem(Flatten(n, h), k));
          if r.node.Inner? && r.node.keys == [] { Collapse(r.node, h); }
        }
      }
    }
  }

  lemma LastPair<V>(x: Item<V>, k: Key)
    ensures LowerItem([x], k) == if x.key < k then 1 else 0
    ensures RemoveAt([x], 0) == []
  {
  }

  lemma Collapse<V>(n: Node<V>, h: nat)
    requires n.Inner? && Fits(n, h) && n.keys == []
    ensures h > 0 && Fits(n.kids[0], h - 1) && Use(n.kids[0]) >= 1 && Flatten(n.kids[0], h - 1) == Flatten(n, h)
  {
    hide FlatAll;
    KidAt(n.kids, 0, h - 1);
    assert n.kids == [n.kids[0]];
    FlatOne(n.kids[0], h - 1);
  }

  lemma RemoveSorted<V>(s: seq<Item<V>>, p: nat)
    requires Sorted(s) && p < |s|
    ensures Sorted(RemoveAt(s, p))
  {
    var r := RemoveAt(s, p);
    forall i, j {:trigger r[i], r[j]} | 0 <= i <= j < |r| ensures r[i].key <= r[j].key {
      assert r[i] == s[if i < p then i else i + 1] && r[j] == s[if j < p then j else j + 1];
    }
  }

  function Without<V>(s: seq<Item<V>>, k: Key): seq<Item<V>> {
    if s == [] then [] else (if s[0].key == k then [] else [s[0]]) + Without(s[1..], k)
  }

  lemma {:induction false} WithoutRemoved<V>(s: seq<Item<V>>, k: Key, p: nat)
    requires p < |s| && s[p].key == k
    ensures Without(RemoveAt(s, p), k) == Without(s, k)
    decreases p
  {
    if p == 0 { assert RemoveAt(s, 0) == s[1..]; }
    else {
      WithoutRemoved(s[1..], k, p - 1);
      assert RemoveAt(s, p)[1..] == RemoveAt(s[1..], p - 1);
    }
  }

  lemma {:induction false} WithoutAbsent<V>(s: seq<Item<V>>, k: Key)
    requires forall i :: 0 <= i < |s| ==> s[i].key != k
    ensures Without(s, k) == s
  {
    if s != [] { WithoutAbsent(s[1..], k); }
  }

  lemma AbsentAtLower<V>(s: seq<Item<V>>, k: Key)
    requires Sorted(s) && (LowerItem(s, k) < |s| ==> s[LowerItem(s, k)].key != k)
    ensures forall i :: 0 <= i < |s| ==> s[i].key != k
  {
    hide LowerItem;
  }

  lemma OnlyOne<V>(s: seq<Item<V>>, p: nat)
    requires Distinct(s) && p < |s|
    ensures forall i :: 0 <= i < |s| - 1 ==> RemoveAt(s, p)[i].key != s[p].key
  {
    var r := RemoveAt(s, p);
    forall i | 0 <= i < |r| ensures r[i].key != s[p].key { assert r[i] == s[if i < p then i else i + 1]; }
  }

  /** erase by key: all pairs with the key go. Where duplicates are not allowed the loop stops after the first, which is
      then the only one. */
  method EraseAll<V>(t: Tree<V>, k: Key) returns (u: Tree<V>, c: nat)
    requires TreeOk(t)
    ensures TreeOk(u) && |Contents(u)| + c == |Contents(t)| && (ALLOW_DUPLICATES || c <= 1)
    ensures ALLOW_DUPLICATES || Distinct(Contents(t)) ==> Contents(u) == Without(Contents(t), k)
  {
    hide EraseOne, Contents, TreeOk, LowerItem, RemoveAt, Distinct;
    u, c := t, 0;
    while true
      invariant TreeOk(u) && |Contents(u)| + c == |Contents(t)| && Without(Contents(u), k) == Without(Contents(t), k)
      invariant !ALLOW_DUPLICATES ==> c == 0 && u == t
      decreases |Contents(u)|
    {
      EraseIsRemove(u, k);
      var (next, found) := EraseOne(u, k);
      ghost var f, p := Contents(u), LowerItem(Contents(u), k);
      u := next;
      if !found {
        ContentsSorted(u);
        AbsentAtLower(f, k);
        WithoutAbsent(f, k);
        return;
      }
      WithoutRemoved(f, k, p);
      c := c + 1;
      if !ALLOW_DUPLICATES {
        if Distinct(f) {
          OnlyOne(f, p);
          WithoutAbsent(RemoveAt(f, p), k);
        }
        return;
      }
    }
  }

  lemma ContentsSorted<V>(t: Tree<V>)
    requires TreeOk(t)
    ensures Sorted(Contents(t))
  {
  }
}
