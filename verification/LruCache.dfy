/**
 The LRU cache object (cache.go): a map and a doubly linked ring that must agree. Get and
 Put are proved against the recency list of module Recency.
 */
module LruCache {
  import opened Recency

  class Item<K, V> {
    const key: K
    var val: V

    constructor (key: K, val: V)
      ensures this.key == key && this.val == val
    {
      this.key := key;
      this.val := val;
    }
  }

  /** A list element; the root of the ring carries no item. */
  class Element<K, V> {
    const item: Item?<K, V>
    var next: Element?<K, V>
    var prev: Element?<K, V>

    constructor (item: Item?<K, V>)
      ensures this.item == item
    {
      this.item := item;
      next, prev := null, null;
    }
  }

  /** Neighbours in `ring` point at each other. */
  ghost predicate Linked<K, V>(ring: seq<Element<K, V>>)
    reads ring
  {
    && (forall i {:trigger ring[i].next} | 0 <= i < |ring| - 1 :: ring[i].next == ring[i + 1])
    && (forall i {:trigger ring[i].prev} | 0 < i < |ring| :: ring[i].prev == ring[i - 1])
  }

  /** The elements in order, with the root at both ends. */
  ghost predicate Ring<K, V>(ring: seq<Element<K, V>>, root: Element<K, V>)
    reads ring
  {
    && |ring| >= 2 && ring[0] == root && ring[|ring| - 1] == root
    && (forall i, j | 0 <= i < j < |ring| - 1 :: ring[i] != ring[j])
    && Linked(ring)
  }

  method Unlink<K, V>(e: Element<K, V>, root: Element<K, V>, ghost ring: seq<Element<K, V>>, ghost i: nat)
    requires Ring(ring, root) && 0 < i < |ring| - 1 && ring[i] == e
    modifies ring
    ensures Ring(ring[..i] + ring[i + 1..], root)
  {
    assert e.prev == ring[i - 1] && e.next == ring[i + 1];
    e.prev.next := e.next;
    e.next.prev := e.prev;
  }

  method InsertFront<K, V>(e: Element<K, V>, root: Element<K, V>, ghost ring: seq<Element<K, V>>)
    requires Ring(ring, root) && e !in ring
    modifies ring, e
    ensures Ring([root, e] + ring[1..], root)
  {
    assert root.next == ring[1];
    e.prev := root;
    e.next := root.next;
    e.prev.next := e;
    e.next.prev := e;
  }

  /** The ring with element `i` moved behind the root. */
  ghost function Fronted<K, V>(ring: seq<Element<K, V>>, i: nat): seq<Element<K, V>>
    requires 0 < i < |ring| - 1
  {
    [ring[0], ring[i]] + ring[1..i] + ring[i + 1..]
  }

  /** `ll.MoveToFront(e)`. */
  method MoveToFront<K, V>(e: Element<K, V>, root: Element<K, V>, ghost ring: seq<Element<K, V>>, ghost i: nat)
    requires Ring(ring, root) && 0 < i < |ring| - 1 && ring[i] == e
    modifies ring
    ensures Ring(Fronted(ring, i), root)
  {
    assert root.next == ring[1];
    if root.next == e {
      assert i == 1 && Fronted(ring, i) == ring;
      return;
    }
    Unlink(e, root, ring, i);
    ghost var rest := ring[..i] + ring[i + 1..];
    InsertFront(e, root, rest);
    assert [root, e] + rest[1..] == Fronted(ring, i);
  }

  /** Every element but the root carries an item. */
  ghost predicate Filled<K, V>(ring: seq<Element<K, V>>) {
    |ring| >= 2 && forall i {:trigger ring[i]} | 0 < i < |ring| - 1 :: ring[i].item != null
  }

  ghost function Items<K, V>(ring: seq<Element<K, V>>): set<Item<K, V>>
    requires Filled(ring)
  {
    set i {:trigger ring[i]} | 0 < i < |ring| - 1 :: ring[i].item
  }

  /** The recency list a ring stands for. */
  ghost function Entries<K, V>(ring: seq<Element<K, V>>): seq<Entry<K, V>>
    requires Filled(ring)
    reads Items(ring)
  {
    seq(|ring| - 2, i requires 0 <= i < |ring| - 2 reads Items(ring) =>
      assert ring[i + 1].item in Items(ring);
      Entry(ring[i + 1].item.key, ring[i + 1].item.val))
  }

  lemma EntriesFronted<K, V>(ring: seq<Element<K, V>>, i: nat)
    requires Filled(ring) && 0 < i < |ring| - 1
    ensures Filled(Fronted(ring, i))
    ensures var l := Entries(ring);
            Entries(Fronted(ring, i)) == [l[i - 1]] + (l[..i - 1] + l[i..])
  {
    var l, f := Entries(ring), Fronted(ring, i);
    assert forall j {:trigger f[j]} | 0 < j < |f| - 1 ::
        f[j] == if j == 1 then ring[i] else if j <= i then ring[j - 1] else ring[j];
    var g := [l[i - 1]] + (l[..i - 1] + l[i..]);
    forall j | 0 <= j < |g|
      ensures Entries(f)[j] == g[j]
    {
      assert f[j + 1] == if j == 0 then ring[i] else if j + 1 <= i then ring[j] else ring[j + 1];
    }
  }

  /** The map holds exactly the elements of the ring, each under its key. */
  ghost predicate Agrees<K, V>(m: map<K, Element<K, V>>, ring: seq<Element<K, V>>) {
    && Filled(ring)
    && (forall k {:trigger m[k]} | k in m :: exists i | 0 < i < |ring| - 1 :: ring[i] == m[k] && ring[i].item.key == k)
    && (forall i {:trigger ring[i]} | 0 < i < |ring| - 1 :: ring[i].item.key in m && m[ring[i].item.key] == ring[i])
  }

  lemma AgreesFronted<K, V>(m: map<K, Element<K, V>>, ring: seq<Element<K, V>>, i: nat)
    requires Agrees(m, ring) && 0 < i < |ring| - 1
    ensures Agrees(m, Fronted(ring, i))
  {
    var f := Fronted(ring, i);
    assert forall j {:trigger f[j]} | 0 < j < |f| - 1 ::
        f[j] == if j == 1 then ring[i] else if j <= i then ring[j - 1] else ring[j];
    forall k {:trigger m[k]} | k in m
      ensures exists j | 0 < j < |f| - 1 :: f[j] == m[k] && f[j].item.key == k
    {
      var n :| 0 < n < |ring| - 1 && ring[n] == m[k] && ring[n].item.key == k;
      assert ring[n] == f[if n == i then 1 else if n < i then n + 1 else n];
    }
  }

  /** So the list's keys are distinct, and a key is mapped exactly when it is listed. */
  lemma AgreesDistinct<K, V>(m: map<K, Element<K, V>>, ring: seq<Element<K, V>>)
    requires Agrees(m, ring)
    requires forall i, j | 0 <= i < j < |ring| - 1 :: ring[i] != ring[j]
    ensures Distinct(Entries(ring))
    ensures forall k :: k in m <==> Has(Entries(ring), k)
  {
    var l := Entries(ring);
    assert forall i {:trigger l[i]} | 0 <= i < |l| :: l[i].key == ring[i + 1].item.key && m[l[i].key] == ring[i + 1];
    forall k | k in m
      ensures Has(l, k)
    {
      var n :| 0 < n < |ring| - 1 && ring[n] == m[k] && ring[n].item.key == k;
      assert l[n - 1].key == k;
    }
  }

  /** Moving the element of a key to the front is what a hit does to the list. */
  lemma FrontedIsTouch<K, V>(m: map<K, Element<K, V>>, ring: seq<Element<K, V>>, root: Element<K, V>, k: K)
    returns (i: nat)
    requires Agrees(m, ring) && Ring(ring, root) && k in m
    ensures 0 < i < |ring| - 1 && ring[i] == m[k]
    ensures Agrees(m, Fronted(ring, i))
    ensures Entries(Fronted(ring, i)) == AfterGet(Entries(ring), k)
    ensures m[k].item != null && Lookup(Entries(ring), k) == Some(m[k].item.val)
  {
    i :| 0 < i < |ring| - 1 && ring[i] == m[k] && ring[i].item.key == k;
    var l := Entries(ring);
    AgreesDistinct(m, ring);
    WithoutAt(l, i - 1);
    EntriesFronted(ring, i);
    AgreesFronted(m, ring, i);
    assert l[i - 1] == Entry(k, m[k].item.val);
  }

  /** Moves the element of a key to the front of the list. */
  method MoveEntry<K, V>(e: Element<K, V>, root: Element<K, V>, ghost ring: seq<Element<K, V>>,
                         ghost m: map<K, Element<K, V>>, ghost k: K, ghost repr: set<object>)
    returns (ghost f: seq<Element<K, V>>)
    requires Ring(ring, root) && Agrees(m, ring) && Within(ring, repr) && k in m && m[k] == e
    modifies ring
    ensures Ring(f, root) && Agrees(m, f) && Within(f, repr) && |f| == |ring|
    ensures e.item != null && Lookup(old(Entries(ring)), k) == Some(e.item.val)
    ensures Entries(f) == AfterGet(old(Entries(ring)), k)
  {
    ghost var i := FrontedIsTouch(m, ring, root, k);
    FrontedWithin(ring, i, repr);
    f := Fronted(ring, i);
    ghost var l := Entries(f);
    MoveToFront(e, root, ring, i);
    assert Entries(f) == l;
  }

  ghost function Pushed<K, V>(ring: seq<Element<K, V>>, e: Element<K, V>): seq<Element<K, V>>
    requires |ring| >= 2
  {
    [ring[0], e] + ring[1..]
  }

  lemma PushedAgrees<K, V>(m: map<K, Element<K, V>>, ring: seq<Element<K, V>>, e: Element<K, V>)
    requires Agrees(m, ring) && e.item != null && e.item.key !in m
    ensures Agrees(m[e.item.key := e], Pushed(ring, e))
    ensures Entries(Pushed(ring, e)) == [Entry(e.item.key, e.item.val)] + Entries(ring)
  {
    var f, m' := Pushed(ring, e), m[e.item.key := e];
    forall j {:trigger f[j]} | 0 < j < |f| - 1
      ensures f[j].item != null && f[j].item.key in m' && m'[f[j].item.key] == f[j]
    {
      assert f[j] == if j == 1 then e else ring[j - 1];
    }
    forall k {:trigger m'[k]} | k in m'
      ensures exists j | 0 < j < |f| - 1 :: f[j] == m'[k] && f[j].item.key == k
    {
      if k == e.item.key {
        assert f[1] == e;
      } else {
        var n :| 0 < n < |ring| - 1 && ring[n] == m[k] && ring[n].item.key == k;
        assert f[n + 1] == ring[n];
      }
    }
    var g := [Entry(e.item.key, e.item.val)] + Entries(ring);
    forall j | 0 <= j < |g|
      ensures Entries(f)[j] == g[j]
    {
      assert f[j + 1] == if j == 0 then e else ring[j];
    }
  }

  ghost function Popped<K, V>(ring: seq<Element<K, V>>): seq<Element<K, V>>
    requires |ring| > 2
  {
    ring[..|ring| - 2] + ring[|ring| - 1..]
  }

  lemma PoppedAgrees<K, V>(m: map<K, Element<K, V>>, ring: seq<Element<K, V>>)
    requires Agrees(m, ring) && |ring| > 2
    requires forall i, j | 0 <= i < j < |ring| - 1 :: ring[i] != ring[j]
    ensures var last := ring[|ring| - 2];
            last.item != null && Agrees(m - {last.item.key}, Popped(ring))
    ensures Entries(Popped(ring)) == Entries(ring)[..|ring| - 3]
  {
    var f, n := Popped(ring), |ring| - 2;
    var k0 := ring[n].item.key;
    var m' := m - {k0};
    assert forall j {:trigger f[j]} | 0 < j < |f| - 1 :: f[j] == ring[j];
    assert Filled(f);
    forall j {:trigger f[j]} | 0 < j < |f| - 1
      ensures f[j].item.key in m' && m'[f[j].item.key] == f[j]
    {
      assert m[ring[j].item.key] == ring[j] && m[k0] == ring[n] && ring[j] != ring[n];
    }
    forall k {:trigger m'[k]} | k in m'
      ensures exists j | 0 < j < |f| - 1 :: f[j] == m'[k] && f[j].item.key == k
    {
      var j :| 0 < j < |ring| - 1 && ring[j] == m[k] && ring[j].item.key == k;
      assert j != n;
      assert f[j] == ring[j];
    }
    assert Agrees(m', f);
    var l, g := Entries(f), Entries(ring)[..n - 1];
    assert |l| == |g|;
    forall j | 0 <= j < |g|
      ensures l[j] == g[j]
    {
      assert f[j + 1] == ring[j + 1];
    }
  }

  /** Overwrites the value of the first entry. */
  method SetFirst<K, V>(e: Element<K, V>, v: V, ghost ring: seq<Element<K, V>>, ghost m: map<K, Element<K, V>>)
    requires Agrees(m, ring) && |ring| > 2 && ring[1] == e && e.item != null
    requires forall i, j | 0 <= i < j < |ring| - 1 :: ring[i] != ring[j]
    modifies e.item
    ensures Entries(ring) == [Entry(e.item.key, v)] + old(Entries(ring))[1..]
  {
    ghost var was := Entries(ring);
    e.item.val := v;
    forall j | 0 < j < |was|
      ensures Entries(ring)[j] == was[j]
    {
      assert m[ring[j + 1].item.key] == ring[j + 1] && m[e.item.key] == ring[1];
    }
  }

  method ReplaceEntry<K, V>(e: Element<K, V>, v: V, root: Element<K, V>, ghost ring: seq<Element<K, V>>,
                            ghost m: map<K, Element<K, V>>, ghost k: K, ghost repr: set<object>)
    returns (ghost f: seq<Element<K, V>>)
    requires Ring(ring, root) && Agrees(m, ring) && Within(ring, repr) && k in m && m[k] == e
    modifies ring, Items(ring)
    ensures Ring(f, root) && Agrees(m, f) && Within(f, repr) && |f| == |ring|
    ensures Entries(f) == [Entry(k, v)] + Without(old(Entries(ring)), k)
  {
    ghost var i := FrontedIsTouch(m, ring, root, k);
    FrontedWithin(ring, i, repr);
    f := Fronted(ring, i);
    ghost var l := Entries(f);
    MoveToFront(e, root, ring, i);
    assert Entries(f) == l;
    assert f[1] == e;
    SetFirst(e, v, f, m);
  }

  method PushEntry<K, V>(k: K, v: V, root: Element<K, V>, ghost ring: seq<Element<K, V>>,
                         ghost m: map<K, Element<K, V>>, ghost repr: set<object>)
    returns (e: Element<K, V>, ghost f: seq<Element<K, V>>)
    requires Ring(ring, root) && Agrees(m, ring) && Within(ring, repr) && k !in m
    modifies ring
    ensures e.item != null && fresh(e) && fresh(e.item)
    ensures Ring(f, root) && Agrees(m[k := e], f) && Within(f, repr + {e, e.item}) && |f| == |ring| + 1
    ensures Entries(f) == [Entry(k, v)] + old(Entries(ring))
  {
    ghost var was := Entries(ring);
    var item := new Item(k, v);
    e := new Element(item);
    assert Entries(ring) == was;
    PushedAgrees(m, ring, e);
    PushedWithin(ring, e, repr);
    f := Pushed(ring, e);
    ghost var l := Entries(f);
    InsertFront(e, root, ring);
    assert Entries(f) == l;
  }

  method PopEntry<K, V>(root: Element<K, V>, ghost ring: seq<Element<K, V>>,
                        ghost m: map<K, Element<K, V>>, ghost repr: set<object>)
    returns (last: Element<K, V>, ghost f: seq<Element<K, V>>)
    requires Ring(ring, root) && Agrees(m, ring) && Within(ring, repr) && |ring| > 2
    modifies ring
    ensures last.item != null && Ring(f, root) && Agrees(m - {last.item.key}, f) && Within(f, repr)
    ensures |f| == |ring| - 1
    ensures |old(Entries(ring))| > 0 && Entries(f) == old(Entries(ring))[..|old(Entries(ring))| - 1]
  {
    ghost var n := |ring| - 2;
    assert root.prev == ring[n];
    last := root.prev;
    PoppedAgrees(m, ring);
    PoppedWithin(ring, repr);
    f := Popped(ring);
    ghost var l := Entries(f);
    Unlink(last, root, ring, n);
    assert Entries(f) == l;
  }

  lemma PoppedWithin<K, V>(ring: seq<Element<K, V>>, repr: set<object>)
    requires Within(ring, repr) && |ring| > 2
    ensures Within(Popped(ring), repr)
  {
    var f, n := Popped(ring), |ring| - 2;
    assert forall j {:trigger f[j]} | 0 <= j < |f| :: f[j] == if j < n then ring[j] else ring[j + 1];
  }

  /** The objects a ring is made of. */
  ghost predicate Within<K, V>(ring: seq<Element<K, V>>, repr: set<object>) {
    Filled(ring) && (forall i {:trigger ring[i]} | 0 <= i < |ring| :: ring[i] in repr) && Items(ring) <= repr
  }

  lemma FrontedWithin<K, V>(ring: seq<Element<K, V>>, i: nat, repr: set<object>)
    requires Within(ring, repr) && 0 < i < |ring| - 1
    ensures Within(Fronted(ring, i), repr)
  {
    var f := Fronted(ring, i);
    assert forall j {:trigger f[j]} | 0 <= j < |f| ::
      f[j] == if j == 0 then ring[0] else if j == 1 then ring[i] else if j <= i then ring[j - 1] else ring[j];
  }

  class LRU<K(==), V> {
    const cap: int
    const root: Element<K, V>
    var m: map<K, Element<K, V>>
    var len: nat
    ghost var ring: seq<Element<K, V>>
    ghost var repr: set<object>

    /** Map and ring agree. */
    ghost predicate Valid()
      reads this, repr
    {
      && this !in repr && Within(ring, repr)
      && Ring(ring, root) && Agrees(m, ring) && len == |ring| - 2
    }

    ghost function List(): seq<Entry<K, V>>
      requires Valid()
      reads this, repr
    {
      Entries(ring)
    }

    constructor (cap: int)
      ensures Valid() && List() == [] && this.cap == cap
      ensures fresh(repr)
    {
      var r := new Element<K, V>(null);
      this.cap, root, m, len := cap, r, map[], 0;
      ring, repr := [r, r], {r};
      new;
      root.next := root;
      root.prev := root;
    }

    method Get(k: K) returns (v: Option<V>)
      requires Valid()
      modifies this`ring, repr
      ensures Valid()
      ensures v == Lookup(old(List()), k)
      ensures List() == AfterGet(old(List()), k)
    {
      AgreesDistinct(m, ring);
      LookupHas(List(), k);
      if k !in m {
        return None;
      }
      var e := m[k];
      v := Some(e.item.val);
      ring := MoveEntry(e, root, ring, m, k, repr);
    }

    method Put(k: K, v: V)
      requires Valid()
      modifies this, repr
      ensures Valid() && fresh(repr - old(repr))
      ensures List() == AfterPut(old(List()), cap, k, v)
    {
      AgreesDistinct(m, ring);
      LookupHas(List(), k);
      if k in m {
        Replace(k, v);
      } else {
        PushFront(k, v);
        if len > cap {
          EvictBack();
        }
      }
    }

    method Replace(k: K, v: V)
      requires Valid() && k in m
      modifies this`ring, repr
      ensures Valid()
      ensures List() == [Entry(k, v)] + Without(old(List()), k)
    {
      ring := ReplaceEntry(m[k], v, root, ring, m, k, repr);
    }

    method PushFront(k: K, v: V)
      requires Valid() && k !in m
      modifies this, repr
      ensures Valid() && fresh(repr - old(repr))
      ensures List() == [Entry(k, v)] + old(List())
    {
      var e;
      e, ring := PushEntry(k, v, root, ring, m, repr);
      m, len, repr := m[k := e], len + 1, repr + {e, e.item};
    }

    method EvictBack()
      requires Valid() && len > 0
      modifies this, repr
      ensures Valid() && repr == old(repr)
      ensures List() == old(List())[..|old(List())| - 1]
    {
      var last;
      last, ring := PopEntry(root, ring, m, repr);
      m, len := m - {last.item.key}, len - 1;
    }
  }

  lemma PushedWithin<K, V>(ring: seq<Element<K, V>>, e: Element<K, V>, repr: set<object>)
    requires Within(ring, repr) && e.item != null
    ensures Within(Pushed(ring, e), repr + {e, e.item})
  {
    var f := Pushed(ring, e);
    assert forall j {:trigger f[j]} | 0 <= j < |f| ::
        f[j] == if j == 0 then ring[0] else if j == 1 then e else ring[j - 1];
  }
}
