/** Index pages of the B-link tree as values: an InternalPage or a LeafPage with its header,
    its half-open key range and its sorted records, and what the page operations compute. */
module BLinkPage {
  import opened Options
  import opened Endian

  /** A key stands for its rank in the compound-key order; CompoundKey.RankIsTheOrder gives the ranking. */
  type Key = int
  type Addr = nat

  const NULL: Addr := 0

  /** The two sentinels of the schema; any non-empty interval will do. */
  type PositiveKey = k: Key | k > 0 witness 1
  const MIN_KEY: Key := 0
  const MAX_KEY: PositiveKey

  /** Page capacities; they depend on the schema. */
  type LeafCapacity = n: nat | n >= 2 witness 2
  type InternalCapacity = n: nat | n >= 3 witness 3
  const LEAF_CARDINALITY: LeafCapacity
  const INTERNAL_CARDINALITY: InternalCapacity

  /** What a record holds beside its key: a child pointer, or a whole row. */
  datatype Val = Child(addr: Addr) | Row(row: Bytes)

  datatype Page = Page(
    level: nat, lowest: Key, highest: Key, leftmost: Addr, sibling: Addr,
    keys: seq<Key>, vals: seq<Val>, version: nat)
  {
    predicate Holds(k: Key) { lowest <= k < highest }
  }

  predicate Sorted(s: seq<Key>) {
    forall i, j :: 0 <= i < j < |s| ==> s[i] < s[j]
  }

  function Insert<T>(s: seq<T>, i: nat, x: T): seq<T>
    requires i <= |s|
  {
    s[..i] + [x] + s[i..]
  }

  /** The number of keys not above k, which is where a new key k belongs. */
  function Upper(keys: seq<Key>, k: Key): (r: nat)
    ensures r <= |keys|
    ensures r > 0 ==> keys[r - 1] <= k
    ensures forall i :: r <= i < |keys| ==> k < keys[i]
  {
    if keys == [] then 0
    else if keys[|keys| - 1] <= k then |keys|
    else Upper(keys[..|keys| - 1], k)
  }

  lemma UpperSplits(keys: seq<Key>, k: Key, i: nat)
    requires Sorted(keys) && i < |keys|
    ensures i < Upper(keys, k) <==> keys[i] <= k
  {}

  /** Only one index splits a sorted sequence at k. */
  lemma UpperUnique(keys: seq<Key>, k: Key, r: nat)
    requires Sorted(keys) && r <= |keys|
    requires r > 0 ==> keys[r - 1] <= k
    requires r < |keys| ==> k < keys[r]
    ensures r == Upper(keys, k)
  {}

  /** The slot of k in a sorted page, when it has one. */
  function Find(keys: seq<Key>, k: Key): (r: Option<nat>)
    ensures r.Some? ==> r.value < |keys| && keys[r.value] == k
  {
    var u := Upper(keys, k);
    if u > 0 && keys[u - 1] == k then Some(u - 1) else None
  }

  lemma FindAt(keys: seq<Key>, k: Key, i: nat)
    requires Sorted(keys) && i < |keys| && keys[i] == k
    ensures Find(keys, k) == Some(i)
  {
    UpperUnique(keys, k, i + 1);
  }

  lemma FindComplete(keys: seq<Key>, k: Key)
    requires Sorted(keys) && k in keys
    ensures Find(keys, k).Some?
  {
    var i :| 0 <= i < |keys| && keys[i] == k;
    FindAt(keys, k, i);
  }

  predicate LeafShape(p: Page) {
    p.level == 0 && |p.keys| == |p.vals| && forall i :: 0 <= i < |p.vals| ==> p.vals[i].Row?
  }

  predicate InternalShape(p: Page) {
    p.level > 0 && |p.keys| == |p.vals| && forall i :: 0 <= i < |p.vals| ==> p.vals[i].Child?
  }

  /** internal_page_search: the child under the greatest separator not above k, else the leftmost child. */
  function Route(p: Page, k: Key): (c: Addr)
    requires InternalShape(p)
  {
    var u := Upper(p.keys, k);
    if u == 0 then p.leftmost else p.vals[u - 1].addr
  }

  /** leaf_page_search: the row stored under k. */
  function Get(p: Page, k: Key): (r: Option<Bytes>)
    requires LeafShape(p)
  {
    var f := Find(p.keys, k);
    if f.Some? then Some(p.vals[f.value].row) else None
  }

  predicate Full(p: Page) {
    |p.keys| == if p.level == 0 then LEAF_CARDINALITY as nat else INTERNAL_CARDINALITY
  }

  /** What every page satisfies by itself: a proper range and sorted records inside it. A leaf is
      empty only while it is the whole level; an internal page has at least one separator. */
  predicate PageOk(p: Page) {
    && MIN_KEY <= p.lowest < p.highest <= MAX_KEY
    && |p.keys| == |p.vals|
    && Sorted(p.keys)
    && p.version >= 1
    && (p.level == 0 ==>
          && p.leftmost == NULL
          && |p.keys| <= LEAF_CARDINALITY
          && (forall i :: 0 <= i < |p.keys| ==> p.Holds(p.keys[i]) && p.vals[i].Row?)
          && (p.keys == [] ==> p.lowest == MIN_KEY && p.highest == MAX_KEY))
    && (p.level > 0 ==>
          && 0 < |p.keys| <= INTERNAL_CARDINALITY
          && (forall i :: 0 <= i < |p.keys| ==> p.lowest < p.keys[i] < p.highest && p.vals[i].Child?))
  }

  /** One record more, in key order, under the next version. */
  function WithRecord(p: Page, k: Key, v: Val): Page
    requires |p.keys| == |p.vals|
  {
    var u := Upper(p.keys, k);
    p.(keys := Insert(p.keys, u, k), vals := Insert(p.vals, u, v), version := p.version + 1)
  }

  /** LeafPage::leaf_page_store. An overwrite leaves the version alone. */
  function LeafPut(p: Page, k: Key, row: Bytes): Page
    requires |p.keys| == |p.vals|
  {
    var f := Find(p.keys, k);
    if f.Some? then p.(vals := p.vals[f.value := Row(row)]) else WithRecord(p, k, Row(row))
  }

  /** InternalPage::internal_page_store. */
  function InternalPut(p: Page, k: Key, child: Addr): Page
    requires |p.keys| == |p.vals|
  {
    WithRecord(p, k, Child(child))
  }

  /** The key a full page is split at. */
  function MidKey(p: Page): Key
    requires p.keys != []
  {
    p.keys[|p.keys| / 2]
  }

  /** The old page after a split; b is the address of its new right sibling. */
  function SplitLeft(p: Page, b: Addr): Page
    requires p.keys != [] && |p.keys| == |p.vals|
  {
    var m := |p.keys| / 2;
    p.(keys := p.keys[..m], vals := p.vals[..m], highest := p.keys[m], sibling := b, version := p.version + 1)
  }

  /** The new sibling. A leaf keeps the middle record; an internal page sends its key up and
      keeps its child as the leftmost one. */
  function SplitRight(p: Page): Page
    requires p.keys != [] && |p.keys| == |p.vals|
  {
    var m := |p.keys| / 2;
    if p.level == 0
    then Page(0, p.keys[m], p.highest, NULL, p.sibling, p.keys[m..], p.vals[m..], 1)
    else
      var c := match p.vals[m] case Child(c) => c case Row(_) => NULL;
      Page(p.level, p.keys[m], p.highest, c, p.sibling, p.keys[m + 1..], p.vals[m + 1..], 1)
  }

  /** update_new_root: the page over an old root and the sibling split from it. */
  function NewRoot(left: Addr, k: Key, right: Addr, level: nat): Page {
    Page(level, MIN_KEY, MAX_KEY, left, NULL, [k], [Child(right)], 1)
  }

  lemma WithRecordSorted(p: Page, k: Key, v: Val)
    requires |p.keys| == |p.vals| && Sorted(p.keys) && k !in p.keys
    ensures Sorted(WithRecord(p, k, v).keys)
  {
    var u := Upper(p.keys, k);
    var q := WithRecord(p, k, v).keys;
    forall i, j | 0 <= i < j < |q| ensures q[i] < q[j] {
      var i', j' := if i < u then i else i - 1, if j < u then j else j - 1;
      if i == u { assert k < p.keys[j']; }
      else if j == u { UpperSplits(p.keys, k, i); assert p.keys[i] in p.keys; }
    }
  }
}
