/** The chained hash table of the page cache: buckets of handles linked through next_hash, rewritten in place. */
module HandleTable {
  /** What an entry is found by: its hash and its key. */
  datatype Id<K> = Id(hash: nat, key: K)

  /** An LRUHandle. */
  class Handle<K, V> {
    const id: Id<K>
    const value: V
    var next: Handle?<K, V>

    constructor (id: Id<K>, value: V)
      ensures this.id == id && this.value == value && next == null
    {
      this.id, this.value, next := id, value, null;
    }
  }

  type Chains<K, V> = seq<seq<Handle<K, V>>>

  /** Every entry sits in the bucket of its hash, is in the map, and is the only one of its bucket with its id. */
  ghost predicate ChainOk<K, V>(chain: seq<Handle<K, V>>, n: nat, i: nat, m: map<Id<K>, Handle<K, V>>) {
    && (forall j :: 0 <= j < |chain| ==>
          n > 0 && chain[j].id.hash % n == i && chain[j].id in m && m[chain[j].id] == chain[j])
    && (forall j, k :: 0 <= j < k < |chain| ==> chain[j].id != chain[k].id)
  }

  /** The buckets hold exactly the map. */
  ghost predicate Holds<K, V>(list: Chains<K, V>, m: map<Id<K>, Handle<K, V>>) {
    && |list| > 0
    && (forall i {:trigger list[i]} :: 0 <= i < |list| ==> ChainOk(list[i], |list|, i, m))
    && (forall id {:trigger m[id]} :: id in m ==> m[id].id == id && m[id] in list[id.hash % |list|])
  }

  predicate PowerOfTwo(n: nat) {
    n == 1 || (n > 1 && n % 2 == 0 && PowerOfTwo(n / 2))
  }

  /** Adding an entry whose id is new, at the front or at the end of its chain. */
  lemma AddedToChain<K, V>(list: Chains<K, V>, m: map<Id<K>, Handle<K, V>>, h: Handle<K, V>, front: bool)
    requires Holds(list, m) && h.id !in m
    ensures var b := h.id.hash % |list|;
            Holds(list[b := if front then [h] + list[b] else list[b] + [h]], m[h.id := h])
  {
    var b := h.id.hash % |list|;
    var chain := if front then [h] + list[b] else list[b] + [h];
    var list', m' := list[b := chain], m[h.id := h];
    forall i {:trigger list'[i]} | 0 <= i < |list'| ensures ChainOk(list'[i], |list'|, i, m') {
      assert ChainOk(list[i], |list|, i, m);
    }
    forall id {:trigger m'[id]} | id in m' ensures m'[id].id == id && m'[id] in list'[id.hash % |list'|] {
      if id == h.id { assert chain[if front then 0 else |chain| - 1] == h; }
      else {
        assert m[id] in list[id.hash % |list|];
        if id.hash % |list| == b { InChain(list[b], h, front, m[id]); }
      }
    }
  }

  lemma InChain<T>(s: seq<T>, h: T, front: bool, x: T)
    requires x in s
    ensures x in (if front then [h] + s else s + [h])
  {
  }

  /** Exchanging the entry with the same id. */
  lemma ReplacedInChain<K, V>(list: Chains<K, V>, m: map<Id<K>, Handle<K, V>>, h: Handle<K, V>, j: nat)
    requires Holds(list, m)
    requires var b := h.id.hash % |list|; j < |list[b]| && list[b][j].id == h.id
    ensures var b := h.id.hash % |list|; Holds(list[b := list[b][j := h]], m[h.id := h])
  {
    var b := h.id.hash % |list|;
    var list', m' := list[b := list[b][j := h]], m[h.id := h];
    forall i {:trigger list'[i]} | 0 <= i < |list'| ensures ChainOk(list'[i], |list'|, i, m') {
      assert ChainOk(list[i], |list|, i, m);
    }
    forall id {:trigger m'[id]} | id in m' ensures m'[id].id == id && m'[id] in list'[id.hash % |list'|] {
      if id == h.id { assert list'[b][j] == h; }
      else {
        assert m[id] in list[id.hash % |list|];
        if id.hash % |list| == b {
          var k :| 0 <= k < |list[b]| && list[b][k] == m[id];
          assert list'[b][k] == m[id];
        }
      }
    }
  }

  lemma ChainWithout<K, V>(chain: seq<Handle<K, V>>, n: nat, i: nat, m: map<Id<K>, Handle<K, V>>, j: nat)
    requires ChainOk(chain, n, i, m) && j < |chain|
    ensures ChainOk(chain[..j] + chain[j + 1..], n, i, m - {chain[j].id})
  {
    var s := chain[..j] + chain[j + 1..];
    assert forall k :: 0 <= k < |s| ==> s[k] == chain[if k < j then k else k + 1];
  }

  lemma ChainElsewhere<K, V>(chain: seq<Handle<K, V>>, n: nat, i: nat, m: map<Id<K>, Handle<K, V>>, id: Id<K>)
    requires ChainOk(chain, n, i, m) && n > 0 && id.hash % n != i
    ensures ChainOk(chain, n, i, m - {id})
  {}

  /** Taking an entry out of its chain. */
  lemma RemovedFromChain<K, V>(list: Chains<K, V>, m: map<Id<K>, Handle<K, V>>, id: Id<K>, j: nat)
    requires Holds(list, m)
    requires var b := id.hash % |list|; j < |list[b]| && list[b][j].id == id
    ensures var b := id.hash % |list|; Holds(list[b := list[b][..j] + list[b][j + 1..]], m - {id})
  {
    hide ChainOk;
    var b := id.hash % |list|;
    var chain := list[b][..j] + list[b][j + 1..];
    var list', m' := list[b := chain], m - {id};
    forall i {:trigger list'[i]} | 0 <= i < |list'| ensures ChainOk(list'[i], |list'|, i, m') {
      assert ChainOk(list[i], |list|, i, m);
      if i == b { ChainWithout(list[b], |list|, b, m, j); } else { ChainElsewhere(list[i], |list|, i, m, id); }
    }
    forall x {:trigger m'[x]} | x in m' ensures m'[x].id == x && m'[x] in list'[x.hash % |list'|] {
      assert m[x] in list[x.hash % |list|];
      if x.hash % |list| == b {
        var k :| 0 <= k < |list[b]| && list[b][k] == m[x];
        assert chain[if k < j then k else k - 1] == m[x];
      }
    }
  }

  /** The part of the map whose entries come before entry j of bucket i. */
  ghost predicate Before<K, V>(list: Chains<K, V>, m: map<Id<K>, Handle<K, V>>,
                               part: map<Id<K>, Handle<K, V>>, i: nat, j: nat)
    requires |list| > 0 && i <= |list| && (i < |list| ==> j <= |list[i]|)
  {
    && (forall id :: id in part ==> id in m && part[id] == m[id])
    && (forall id :: id in m ==>
          (id in part <==> id.hash % |list| < i || (id.hash % |list| == i && m[id] in list[i][..j])))
  }

  /** The next entry is not among those before it, and is the only new one once it is counted. */
  lemma NextEntry<K, V>(list: Chains<K, V>, m: map<Id<K>, Handle<K, V>>, part: map<Id<K>, Handle<K, V>>, i: nat, j: nat)
    requires Holds(list, m) && i < |list| && j < |list[i]| && Before(list, m, part, i, j)
    ensures var h := list[i][j]; h.id !in part && Before(list, m, part[h.id := h], i, j + 1)
  {
    var h := list[i][j];
    assert ChainOk(list[i], |list|, i, m);
    assert list[i][..j + 1] == list[i][..j] + [h];
    forall k | 0 <= k < j ensures list[i][..j][k] != h { assert list[i][k].id != list[i][j].id; }
    assert h !in list[i][..j];
  }

  lemma BucketDone<K, V>(list: Chains<K, V>, m: map<Id<K>, Handle<K, V>>, part: map<Id<K>, Handle<K, V>>, i: nat)
    requires Holds(list, m) && i < |list| && Before(list, m, part, i, |list[i]|)
    ensures Before(list, m, part, i + 1, 0)
  {
    assert list[i][..|list[i]|] == list[i];
    if i + 1 < |list| { assert list[i + 1][..0] == []; }
    forall id | id in m ensures id.hash % |list| == i ==> m[id] in list[i] { assert m[id].id == id; }
  }

  lemma AllDone<K, V>(list: Chains<K, V>, m: map<Id<K>, Handle<K, V>>, part: map<Id<K>, Handle<K, V>>)
    requires Holds(list, m) && Before(list, m, part, |list|, 0)
    ensures part == m
  {
  }

  /* ---- The bucket mask ---- */

  /** Bitwise and. */
  function And(a: nat, b: nat): nat
    decreases a
  {
    if a == 0 || b == 0 then 0 else (if a % 2 == 1 && b % 2 == 1 then 1 else 0) + 2 * And(a / 2, b / 2)
  }

  lemma DoubledRemainder(a: nat, n: nat)
    requires n > 0
    ensures a % (2 * n) == a % 2 + 2 * ((a / 2) % n)
  {
    var q, r := (a / 2) / n, (a / 2) % n;
    assert a / 2 == n * q + r && a == 2 * (n * q + r) + a % 2;
    assert a == (2 * n) * q + (a % 2 + 2 * r) by { assert 2 * (n * q) == (2 * n) * q; }
    RemainderIs(a, 2 * n, q, a % 2 + 2 * r);
  }

  lemma RemainderIs(a: nat, n: nat, q: nat, r: nat)
    requires n > 0 && a == n * q + r && r < n
    ensures a % n == r
  {
    var d := a / n - q;
    assert a == n * (a / n) + a % n;
    assert n * d == r - a % n by { assert n * (a / n) - n * q == n * d; }
    Multiple(n, d);
  }

  lemma Multiple(n: nat, d: int)
    ensures d >= 1 ==> n * d >= n
    ensures d <= -1 ==> n * d <= -(n as int)
  {}

  lemma {:induction false} MaskIsRemainder(a: nat, n: nat)
    requires PowerOfTwo(n)
    ensures And(a, n - 1) == a % n
    decreases n
  {
    if n > 1 {
      MaskIsRemainder(a / 2, n / 2);
      DoubledRemainder(a, n / 2);
      assert (n - 1) % 2 == 1 && (n - 1) / 2 == n / 2 - 1;
    }
  }

  lemma {:induction false} AndSame(a: nat)
    ensures And(a, a) == a
  {
    if a > 0 { AndSame(a / 2); }
  }

  lemma {:induction false} MaskOfLength(n: nat)
    requires n > 0 && !PowerOfTwo(n)
    ensures And(n, n - 1) > 0
  {
    assert (n - 1) / 2 == if n % 2 == 0 then n / 2 - 1 else n / 2;
    if n % 2 == 0 { MaskOfLength(n / 2); } else { AndSame(n / 2); }
  }

  /** hash & (length_ - 1) is the remainder of every hash just when the length is a power of two. */
  lemma MaskIffPower(n: nat)
    requires n > 0
    ensures PowerOfTwo(n) <==> forall a: nat :: And(a, n - 1) == a % n
  {
    if PowerOfTwo(n) {
      forall a: nat ensures And(a, n - 1) == a % n { MaskIsRemainder(a, n); }
    } else {
      MaskOfLength(n);
      assert And(n, n - 1) != n % n;
    }
  }

  /* ---- Linked chains ---- */

  function At<K, V>(chain: seq<Handle<K, V>>, j: int): Handle?<K, V> {
    if 0 <= j < |chain| then chain[j] else null
  }

  ghost predicate LinkOk<K, V>(chain: seq<Handle<K, V>>, j: nat)
    requires j < |chain|
    reads chain
  {
    chain[j].next == At(chain, j + 1)
  }

  /** From `first` on, the next_hash links run through exactly this chain. */
  ghost predicate ChainLinked<K, V>(first: Handle?<K, V>, chain: seq<Handle<K, V>>)
    reads chain
  {
    first == At(chain, 0) && forall j {:trigger LinkOk(chain, j)} :: 0 <= j < |chain| ==> LinkOk(chain, j)
  }

  /** Every bucket starts its chain. */
  ghost predicate AllLinked<K, V>(list: seq<Handle?<K, V>>, chains: Chains<K, V>, m: map<Id<K>, Handle<K, V>>)
    requires Holds(chains, m)
    reads m.Values
  {
    && |list| == |chains|
    && (forall i {:trigger BucketLinked(list, chains, m, i)} ::
          0 <= i < |chains| ==> BucketLinked(list, chains, m, i))
  }

  ghost predicate BucketLinked<K, V>(list: seq<Handle?<K, V>>, chains: Chains<K, V>,
                                     m: map<Id<K>, Handle<K, V>>, i: nat)
    requires Holds(chains, m) && i < |chains| == |list|
    reads m.Values
  {
    InMap(chains, m, i);
    ChainLinked(list[i], chains[i])
  }

  lemma InMap<K, V>(chains: Chains<K, V>, m: map<Id<K>, Handle<K, V>>, i: nat)
    requires Holds(chains, m) && i < |chains|
    ensures forall j :: 0 <= j < |chains[i]| ==> chains[i][j] in m.Values && chains[i][j].id.hash % |chains| == i
  {
    assert ChainOk(chains[i], |chains|, i, m);
  }

  lemma NotListed<K, V>(chains: Chains<K, V>, m: map<Id<K>, Handle<K, V>>, h: Handle<K, V>, i: nat)
    requires Holds(chains, m) && i < |chains| && (h.id in m ==> m[h.id] != h)
    ensures h !in chains[i]
  {
    assert ChainOk(chains[i], |chains|, i, m);
  }

  lemma OnceInChain<K, V>(chains: Chains<K, V>, m: map<Id<K>, Handle<K, V>>, i: nat, j: nat, k: nat)
    requires Holds(chains, m) && i < |chains| && j < |chains[i]| && k < |chains[i]| && j != k
    ensures chains[i][j] != chains[i][k]
  {
    assert ChainOk(chains[i], |chains|, i, m);
  }

  class Table<K(==), V> {
    var list: array<Handle?<K, V>>
    var elems: nat
    ghost var chains: Chains<K, V>
    ghost var m: map<Id<K>, Handle<K, V>>

    ghost predicate Linked()
      reads this, list, m.Values
    {
      Holds(chains, m) && PowerOfTwo(list.Length) && elems == |m| && AllLinked(list[..], chains, m)
    }

    ghost predicate Valid()
      reads this, list, m.Values
    {
      Linked() && elems <= list.Length
    }

    /** FindPointer: the slot that points to the entry, or the last slot of its chain. The slot is next_hash of prev, or
        the bucket itself when prev is null. */
    method Find(id: Id<K>) returns (b: nat, prev: Handle?<K, V>, cur: Handle?<K, V>, ghost j: nat)
      requires Valid()
      ensures b == id.hash % list.Length < list.Length == |chains| && j <= |chains[b]|
      ensures cur == At(chains[b], j) && prev == At(chains[b], j - 1)
      ensures cur != null ==> cur.id == id && id in m && m[id] == cur
      ensures cur == null ==> id !in m && j == |chains[b]|
    {
      hide ChainOk, PowerOfTwo;
      MaskIsRemainder(id.hash, list.Length);
      b := And(id.hash, list.Length - 1);
      assert BucketLinked(list[..], chains, m, b);
      prev, cur, j := null, list[b], 0;
      while cur != null && cur.id != id
        invariant j <= |chains[b]| && cur == At(chains[b], j) && prev == At(chains[b], j - 1)
        invariant forall k :: 0 <= k < j ==> chains[b][k].id != id
        decreases |chains[b]| - j
      {
        assert LinkOk(chains[b], j);
        prev, cur, j := cur, cur.next, j + 1;
      }
      FoundInMap(chains, m, id, j);
    }

    constructor ()
      ensures Valid() && m == map[] && fresh(list)
    {
      list := new Handle?<K, V>[4](_ => null);
      elems, m, chains := 0, map[], [[], [], [], []];
      new;
      assert PowerOfTwo(2) && PowerOfTwo(4);
    }

    method Lookup(id: Id<K>) returns (r: Handle?<K, V>)
      requires Valid()
      ensures r == if id in m then m[id] else null
    {
      var _, _, cur, _ := Find(id);
      r := cur;
    }

    /** A new entry goes to the end of its chain, one with a known id takes the place of the old one; the table grows
        when it holds more entries than buckets. */
    method Insert(h: Handle<K, V>) returns (r: Handle?<K, V>)
      requires Valid()
      modifies this, list, m.Values, h
      ensures Valid() && m == old(m)[h.id := h]
      ensures r == if h.id in old(m) then old(m)[h.id] else null
      ensures list == old(list) || fresh(list)
    {
      hide ChainOk, Holds, PowerOfTwo, ChainLinked;
      var b, prev, cur, j := Find(h.id);
      r := cur;
      Place(h, b, prev, cur, j);
      if cur == null {
        elems := elems + 1;
        if elems > list.Length { Resize(); }
      } else {
        SameSize(old(m), h);
      }
    }

    /** The pointer updates of Insert. */
    method Place(h: Handle<K, V>, b: nat, prev: Handle?<K, V>, cur: Handle?<K, V>, ghost j: nat)
      requires Holds(chains, m) && AllLinked(list[..], chains, m)
      requires b == h.id.hash % list.Length < list.Length == |chains|
      requires j <= |chains[b]| && cur == At(chains[b], j) && prev == At(chains[b], j - 1)
      requires if cur == null then h.id !in m else cur.id == h.id
      modifies this`chains, this`m, list, m.Values, h
      ensures Holds(chains, m) && AllLinked(list[..], chains, m) && m == old(m)[h.id := h]
    {
      hide ChainOk, Holds;
      ghost var s, t := chains, m;
      ghost var chain := if cur == null then s[b] + [h] else s[b][j := h];
      if cur == null { AddedToChain(s, t, h, false); } else { ReplacedInChain(s, t, h, j); }
      assert BucketLinked(list[..], s, t, b);
      assert cur != null ==> LinkOk(s[b], j);
      InMap(s, t, b);
      if j > 0 { Elsewhere(s, t, h, b, j, b, j - 1); }
      h.next := if cur == null then null else cur.next;
      if prev == null { list[b] := h; } else { prev.next := h; }
      chains, m := s[b := chain], t[h.id := h];
      forall i {:trigger BucketLinked(list[..], chains, m, i)} | 0 <= i < |chains|
        ensures BucketLinked(list[..], chains, m, i)
      {
        assert old(BucketLinked(list[..], s, t, i));
        forall k {:trigger LinkOk(chains[i], k)} | 0 <= k < |chains[i]| ensures LinkOk(chains[i], k) {
          if i != b || k != j {
            Elsewhere(s, t, h, b, j, i, k);
            assert old(LinkOk(s[i], k));
          }
        }
      }
    }

    /** The entry is taken out of its chain by pointing its slot past it. */
    method Remove(id: Id<K>) returns (r: Handle?<K, V>)
      requires Valid()
      modifies this, list, m.Values
      ensures Valid() && m == old(m) - {id} && list == old(list)
      ensures r == if id in old(m) then old(m)[id] else null
    {
      hide ChainOk, Holds;
      var b, prev, cur, j := Find(id);
      r := cur;
      if cur == null {
        Without(m, id);
      } else {
        SmallerSize(m, id);
        Unlink(b, prev, cur, j);
      }
    }

    /** The updates of Remove. */
    method Unlink(b: nat, prev: Handle?<K, V>, cur: Handle<K, V>, ghost j: nat)
      requires Holds(chains, m) && AllLinked(list[..], chains, m) && elems > 0
      requires b == cur.id.hash % list.Length < list.Length == |chains|
      requires j < |chains[b]| && cur == chains[b][j] && prev == At(chains[b], j - 1)
      modifies this`elems, this`chains, this`m, list, m.Values
      ensures Holds(chains, m) && AllLinked(list[..], chains, m) && m == old(m) - {cur.id} && elems == old(elems) - 1
    {
      hide ChainOk, Holds;
      ghost var s, t := chains, m;
      RemovedFromChain(s, t, cur.id, j);
      InMap(s, t, b);
      assert BucketLinked(list[..], s, t, b);
      assert LinkOk(s[b], j);
      if prev == null { list[b] := cur.next; } else { prev.next := cur.next; }
      elems := elems - 1;
      chains, m := s[b := s[b][..j] + s[b][j + 1..]], t - {cur.id};
      forall i {:trigger BucketLinked(list[..], chains, m, i)} | 0 <= i < |chains|
        ensures BucketLinked(list[..], chains, m, i)
      {
        assert old(BucketLinked(list[..], s, t, i));
        forall k {:trigger LinkOk(chains[i], k)} | 0 <= k < |chains[i]| ensures LinkOk(chains[i], k) {
          var q := if i == b && k >= j then k + 1 else k;
          Elsewhere(s, t, cur, b, j, i, q);
          assert old(LinkOk(s[i], q));
        }
      }
    }

    /** The buckets from i on still start their old chains. */
    ghost predicate LinkedFrom(i: nat)
      requires Holds(chains, m) && list.Length == |chains|
      reads this, list, m.Values
    {
      forall k {:trigger BucketLinked(list[..], chains, m, k)} ::
        i <= k < |chains| ==> BucketLinked(list[..], chains, m, k)
    }

    /** Every entry is relinked into a larger table, without loss or duplication. */
    method Resize()
      requires Linked()
      modifies this, m.Values
      ensures Valid() && m == old(m) && elems == old(elems) && fresh(list)
    {
      hide ChainOk, Holds, Before, PowerOfTwo, ChainLinked;
      var n := NewLength();
      var grown := new Handle?<K, V>[n](_ => null);
      ghost var g: Chains<K, V>, part := seq(n, _ => []), map[];
      NoneLinked(grown[..], g);
      var count;
      count, g, part := RelinkAll(grown, g);
      assert count == elems;
      list, chains := grown, g;
    }

    method RelinkAll(grown: array<Handle?<K, V>>, ghost g: Chains<K, V>)
      returns (total: nat, ghost g': Chains<K, V>, ghost more: map<Id<K>, Handle<K, V>>)
      requires Linked() && list != grown && PowerOfTwo(grown.Length)
      requires Holds(g, map[]) && AllLinked(grown[..], g, map[])
      modifies grown, m.Values
      ensures more == m && Holds(g', m) && AllLinked(grown[..], g', m) && total == |m|
    {
      hide ChainOk, Holds, Before, PowerOfTwo, BucketLinked;
      total, g', more := 0, g, map[];
      NothingBefore(chains, m);
      for i := 0 to list.Length
        modifies grown, m.Values
        invariant Holds(g', more) && AllLinked(grown[..], g', more) && total == |more|
        invariant Before(chains, m, more, i, 0) && LinkedFrom(i)
      {
        total, g', more := RelinkChain(grown, i, total, g', more);
      }
      AllDone(chains, m, more);
    }

    method RelinkChain(grown: array<Handle?<K, V>>, i: nat, count: nat,
                       ghost g: Chains<K, V>, ghost part: map<Id<K>, Handle<K, V>>)
      returns (total: nat, ghost g': Chains<K, V>, ghost more: map<Id<K>, Handle<K, V>>)
      requires Holds(chains, m) && list != grown && PowerOfTwo(grown.Length) && i < list.Length == |chains|
      requires Holds(g, part) && AllLinked(grown[..], g, part) && count == |part|
      requires Before(chains, m, part, i, 0) && LinkedFrom(i)
      modifies grown, m.Values
      ensures Holds(g', more) && AllLinked(grown[..], g', more) && total == |more|
      ensures Before(chains, m, more, i + 1, 0) && LinkedFrom(i + 1)
    {
      hide ChainOk, Holds, Before, PowerOfTwo, AllLinked;
      total, g', more := count, g, part;
      assert BucketLinked(list[..], chains, m, i);
      var h := list[i];
      ghost var j := 0;
      while h != null
        modifies grown, m.Values
        invariant j <= |chains[i]| && h == At(chains[i], j) && Before(chains, m, more, i, j) && total == |more|
        invariant Holds(g', more) && AllLinked(grown[..], g', more)
        invariant forall k {:trigger LinkOk(chains[i], k)} :: j <= k < |chains[i]| ==> LinkOk(chains[i], k)
        invariant LinkedFrom(i + 1)
        decreases |chains[i]| - j
      {
        assert LinkOk(chains[i], j);
        NextEntry(chains, m, more, i, j);
        InMap(chains, m, i);
        var next := h.next;
        label before:
        g' := Relink(grown, h, g', more);
        more := more[h.id := h];
        forall k {:trigger LinkOk(chains[i], k)} | j < k < |chains[i]| ensures LinkOk(chains[i], k) {
          assert old@before(LinkOk(chains[i], k));
          OnceInChain(chains, m, i, j, k);
        }
        forall k {:trigger BucketLinked(list[..], chains, m, k)} | i < k < |chains|
          ensures BucketLinked(list[..], chains, m, k)
        {
          assert old@before(BucketLinked(list[..], chains, m, k));
          Unmoved(chains, m, i, j, k);
        }
        h, j, total := next, j + 1, total + 1;
      }
      BucketDone(chains, m, more, i);
    }

    /** The least power of two, from 4 on, that is no less than the number of entries. */
    method NewLength() returns (n: nat)
      ensures PowerOfTwo(n) && n >= 4 && n >= elems && (n > 4 ==> n / 2 < elems)
    {
      n := 4;
      assert PowerOfTwo(2) && PowerOfTwo(4);
      while n < elems
        invariant PowerOfTwo(n) && n >= 4 && (n > 4 ==> n / 2 < elems)
        decreases elems - n
      {
        n := n * 2;
      }
    }
  }

  /** An entry goes to the front of its new chain. */
  method Relink<K, V>(grown: array<Handle?<K, V>>, h: Handle<K, V>,
                      ghost g: Chains<K, V>, ghost part: map<Id<K>, Handle<K, V>>)
    returns (ghost g': Chains<K, V>)
    requires Holds(g, part) && AllLinked(grown[..], g, part) && h.id !in part && PowerOfTwo(grown.Length)
    modifies grown, h
    ensures Holds(g', part[h.id := h]) && AllLinked(grown[..], g', part[h.id := h])
  {
    hide ChainOk, Holds;
    MaskIsRemainder(h.id.hash, grown.Length);
    var b := And(h.id.hash, grown.Length - 1);
    AddedToChain(g, part, h, true);
    assert BucketLinked(grown[..], g, part, b);
    h.next := grown[b];
    grown[b] := h;
    g' := g[b := [h] + g[b]];
    forall i {:trigger BucketLinked(grown[..], g', part[h.id := h], i)} | 0 <= i < |g'|
      ensures BucketLinked(grown[..], g', part[h.id := h], i)
    {
      assert old(BucketLinked(grown[..], g, part, i));
      NotListed(g, part, h, i);
      forall k {:trigger LinkOk(g'[i], k)} | 0 <= k < |g'[i]| ensures LinkOk(g'[i], k) {
        if i != b { assert old(LinkOk(g[i], k)); }
        else if k > 0 { assert old(LinkOk(g[i], k - 1)); }
      }
    }
  }

  lemma NoneLinked<K, V>(list: seq<Handle?<K, V>>, g: Chains<K, V>)
    requires |list| == |g| > 0 && forall i :: 0 <= i < |g| ==> g[i] == [] && list[i] == null
    ensures Holds(g, map[]) && AllLinked(list, g, map[])
  {
    EmptyHolds<K, V>(g);
  }

  lemma Unmoved<K, V>(chains: Chains<K, V>, m: map<Id<K>, Handle<K, V>>, i: nat, j: nat, k: nat)
    requires Holds(chains, m) && i < |chains| && j < |chains[i]| && k < |chains| && k != i
    ensures chains[i][j] !in chains[k]
  {
    InMap(chains, m, i);
    InMap(chains, m, k);
  }

  /** Besides its own place, an entry and the one before it are nowhere in the table. */
  lemma Elsewhere<K, V>(s: Chains<K, V>, t: map<Id<K>, Handle<K, V>>, h: Handle<K, V>, b: nat, j: nat, i: nat, k: nat)
    requires Holds(s, t) && b == h.id.hash % |s| && j <= |s[b]|
    requires if j < |s[b]| then s[b][j].id == h.id else h.id !in t
    requires i < |s| && k < |s[i]| && (i != b || k != j)
    ensures s[i][k] != h && (j > 0 && (i != b || k != j - 1) ==> s[i][k] != s[b][j - 1])
  {
    assert ChainOk(s[i], |s|, i, t) && ChainOk(s[b], |s|, b, t);
  }

  lemma FoundInMap<K, V>(chains: Chains<K, V>, m: map<Id<K>, Handle<K, V>>, id: Id<K>, j: nat)
    requires Holds(chains, m) && j <= |chains[id.hash % |chains|]|
    requires forall k :: 0 <= k < j ==> chains[id.hash % |chains|][k].id != id
    ensures var c := chains[id.hash % |chains|];
            && (j < |c| && c[j].id == id ==> id in m && m[id] == c[j])
            && (j == |c| ==> id !in m)
  {
    var b := id.hash % |chains|;
    assert ChainOk(chains[b], |chains|, b, m);
    if id in m { assert m[id].id == id && m[id] in chains[b]; }
  }

  lemma SameSize<K, V>(m: map<Id<K>, Handle<K, V>>, h: Handle<K, V>)
    requires h.id in m
    ensures |m[h.id := h]| == |m|
  {
    assert m[h.id := h].Keys == m.Keys;
  }

  lemma Without<K, V>(m: map<Id<K>, Handle<K, V>>, id: Id<K>)
    requires id !in m
    ensures m - {id} == m
  {
  }

  lemma SmallerSize<K, V>(m: map<Id<K>, Handle<K, V>>, id: Id<K>)
    requires id in m
    ensures |m - {id}| == |m| - 1
  {
    assert (m - {id}).Keys == m.Keys - {id};
  }

  lemma EmptyHolds<K, V>(list: Chains<K, V>)
    requires |list| > 0 && forall i :: 0 <= i < |list| ==> list[i] == []
    ensures Holds(list, map[])
  {
  }

  lemma NothingBefore<K, V>(list: Chains<K, V>, m: map<Id<K>, Handle<K, V>>)
    requires Holds(list, m)
    ensures |list| > 0 && Before(list, m, map[], 0, 0)
  {
  }
}
