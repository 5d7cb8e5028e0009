/**
 The LRU cache (cache.go) as a recency list, most recently touched first: what Get and
 Put do to it, and what any sequence of calls leaves in it.
 */
module Recency {

  datatype Option<+T> = None | Some(value: T)

  datatype Entry<K, V> = Entry(key: K, val: V)

  datatype Op<K, V> = Get(key: K) | Put(key: K, val: V)

  predicate Has<K(==), V>(l: seq<Entry<K, V>>, k: K) {
    exists i | 0 <= i < |l| :: l[i].key == k
  }

  function Lookup<K(==), V>(l: seq<Entry<K, V>>, k: K): Option<V> {
    if l == [] then None else if l[0].key == k then Some(l[0].val) else Lookup(l[1..], k)
  }

  function Without<K(==), V>(l: seq<Entry<K, V>>, k: K): (r: seq<Entry<K, V>>)
    ensures |r| <= |l|
  {
    if l == [] then [] else if l[0].key == k then Without(l[1..], k) else [l[0]] + Without(l[1..], k)
  }

  function AfterGet<K(==), V>(l: seq<Entry<K, V>>, k: K): seq<Entry<K, V>> {
    var v := Lookup(l, k);
    if v.Some? then [Entry(k, v.value)] + Without(l, k) else l
  }

  function AfterPut<K(==), V>(l: seq<Entry<K, V>>, cap: int, k: K, v: V): seq<Entry<K, V>> {
    if Lookup(l, k).Some? then [Entry(k, v)] + Without(l, k)
    else if |l| + 1 > cap then ([Entry(k, v)] + l)[..|l|]
    else [Entry(k, v)] + l
  }

  function Apply<K(==), V>(l: seq<Entry<K, V>>, cap: int, op: Op<K, V>): seq<Entry<K, V>> {
    match op
    case Get(k) => AfterGet(l, k)
    case Put(k, v) => AfterPut(l, cap, k, v)
  }

  /** The cache of capacity `cap` after a sequence of calls. */
  function Run<K(==), V>(cap: int, ops: seq<Op<K, V>>): seq<Entry<K, V>> {
    if ops == [] then [] else Apply(Run(cap, ops[..|ops| - 1]), cap, ops[|ops| - 1])
  }

  // ---------- Lists of distinct keys

  ghost predicate Distinct<K, V>(l: seq<Entry<K, V>>) {
    forall i, j | 0 <= i < j < |l| :: l[i].key != l[j].key
  }

  lemma {:induction false} LookupHas<K, V>(l: seq<Entry<K, V>>, k: K)
    ensures Lookup(l, k).Some? <==> Has(l, k)
  {
    if l != [] && l[0].key != k {
      LookupHas(l[1..], k);
      if Has(l, k) {
        var i :| 0 <= i < |l| && l[i].key == k;
        assert l[1..][i - 1].key == k;
      }
      if Has(l[1..], k) {
        var i :| 0 <= i < |l[1..]| && l[1..][i].key == k;
        assert l[i + 1].key == k;
      }
    }
  }

  lemma {:induction false} WithoutHas<K, V>(l: seq<Entry<K, V>>, k: K, x: K)
    ensures Has(Without(l, k), x) <==> x != k && Has(l, x)
  {
    LookupHas(l, x);
    LookupHas(Without(l, k), x);
    if l != [] {
      WithoutHas(l[1..], k, x);
      LookupHas(l[1..], x);
      LookupHas(Without(l[1..], k), x);
      if l[0].key != k {
        assert Without(l, k)[1..] == Without(l[1..], k);
      }
    }
  }

  lemma {:induction false} WithoutAbsent<K, V>(l: seq<Entry<K, V>>, k: K)
    requires !Has(l, k)
    ensures Without(l, k) == l
  {
    if l != [] {
      LookupHas(l, k);
      LookupHas(l[1..], k);
      WithoutAbsent(l[1..], k);
    }
  }

  lemma {:induction false} WithoutDistinct<K, V>(l: seq<Entry<K, V>>, k: K)
    requires Distinct(l)
    ensures Distinct(Without(l, k))
    ensures |Without(l, k)| == if Has(l, k) then |l| - 1 else |l|
  {
    if l != [] {
      var t := l[1..];
      assert forall i | 0 <= i < |t| :: t[i] == l[i + 1];
      WithoutDistinct(t, k);
      LookupHas(l, k);
      LookupHas(t, k);
      if l[0].key == k {
        WithoutAbsent(t, k);
      } else {
        WithoutHas(t, k, l[0].key);
        var w := Without(t, k);
        assert forall i | 0 <= i < |w| :: w[i].key != l[0].key;
        assert Without(l, k) == [l[0]] + w;
      }
    }
  }

  lemma {:induction false} WithoutAppend<K, V>(a: seq<Entry<K, V>>, b: seq<Entry<K, V>>, k: K)
    ensures Without(a + b, k) == Without(a, k) + Without(b, k)
  {
    if a == [] {
      assert a + b == b;
    } else {
      assert (a + b)[1..] == a[1..] + b;
      WithoutAppend(a[1..], b, k);
    }
  }

  lemma {:induction false} LookupAppend<K, V>(a: seq<Entry<K, V>>, b: seq<Entry<K, V>>, k: K)
    ensures Lookup(a + b, k) == if Lookup(a, k).Some? then Lookup(a, k) else Lookup(b, k)
  {
    if a == [] {
      assert a + b == b;
    } else {
      assert (a + b)[1..] == a[1..] + b;
      LookupAppend(a[1..], b, k);
    }
  }

  lemma WithoutAt<K, V>(l: seq<Entry<K, V>>, i: nat)
    requires Distinct(l) && i < |l|
    ensures Without(l, l[i].key) == l[..i] + l[i + 1..]
    ensures Lookup(l, l[i].key) == Some(l[i].val)
  {
    ApartAt(l, i);
    WithoutBetween(l[..i], l[i], l[i + 1..]);
    assert l == l[..i] + [l[i]] + l[i + 1..];
  }

  lemma ApartAt<K, V>(l: seq<Entry<K, V>>, i: nat)
    requires Distinct(l) && i < |l|
    ensures !Has(l[..i], l[i].key) && !Has(l[i + 1..], l[i].key)
  {
    var front, back := l[..i], l[i + 1..];
    assert forall j {:trigger front[j]} | 0 <= j < |front| :: front[j] == l[j];
    assert forall j {:trigger back[j]} | 0 <= j < |back| :: back[j] == l[i + 1 + j];
  }

  lemma WithoutBetween<K, V>(front: seq<Entry<K, V>>, e: Entry<K, V>, back: seq<Entry<K, V>>)
    requires !Has(front, e.key) && !Has(back, e.key)
    ensures Without(front + [e] + back, e.key) == front + back
    ensures Lookup(front + [e] + back, e.key) == Some(e.val)
  {
    WithoutAppend(front + [e], back, e.key);
    WithoutAppend(front, [e], e.key);
    WithoutAbsent(front, e.key);
    WithoutAbsent(back, e.key);
    assert Without([e], e.key) == [] && Lookup([e], e.key) == Some(e.val);
    LookupAppend(front + [e], back, e.key);
    LookupAppend(front, [e], e.key);
    LookupHas(front, e.key);
  }

  // ---------- What stays: the most recently touched keys

  /** A touch moves or puts an entry to the front. */
  function Touch<K(==), V>(l: seq<Entry<K, V>>, e: Entry<K, V>): seq<Entry<K, V>> {
    [e] + Without(l, e.key)
  }

  /** All entries ever touched, most recent first: a cache that never evicts. */
  function Unbounded<K(==), V>(touches: seq<Entry<K, V>>): seq<Entry<K, V>> {
    if touches == [] then [] else Touch(Unbounded(touches[..|touches| - 1]), touches[|touches| - 1])
  }

  /** The touches a run performs: every Put, and every Get that hits. */
  function Touches<K(==), V>(cap: int, ops: seq<Op<K, V>>): seq<Entry<K, V>> {
    if ops == [] then []
    else
      var before, op := ops[..|ops| - 1], ops[|ops| - 1];
      Touches(cap, before) + TouchOf(Run(cap, before), op)
  }

  function TouchOf<K(==), V>(l: seq<Entry<K, V>>, op: Op<K, V>): seq<Entry<K, V>> {
    match op
    case Put(k, v) => [Entry(k, v)]
    case Get(k) => var v := Lookup(l, k); if v.Some? then [Entry(k, v.value)] else []
  }

  function Take<T>(l: seq<T>, cap: int): seq<T> {
    if cap <= 0 then [] else if cap >= |l| then l else l[..cap]
  }

  lemma {:induction false} UnboundedDistinct<K, V>(touches: seq<Entry<K, V>>)
    ensures Distinct(Unbounded(touches))
  {
    if touches != [] {
      var before, e := touches[..|touches| - 1], touches[|touches| - 1];
      UnboundedDistinct(before);
      TouchDistinct(Unbounded(before), e);
    }
  }

  lemma TouchDistinct<K, V>(l: seq<Entry<K, V>>, e: Entry<K, V>)
    requires Distinct(l)
    ensures Distinct(Touch(l, e))
  {
    var w := Without(l, e.key);
    WithoutDistinct(l, e.key);
    WithoutHas(l, e.key, e.key);
    assert forall i | 0 <= i < |w| :: w[i].key != e.key;
  }

  lemma TakeTouch<K, V>(l: seq<Entry<K, V>>, cap: int, e: Entry<K, V>)
    requires Distinct(l) && cap > 0
    ensures var kept := Take(l, cap);
            Take(Touch(l, e), cap) ==
            if Lookup(kept, e.key).Some? then Touch(kept, e) else AfterPut(kept, cap, e.key, e.val)
  {
    var n := if cap < |l| then cap else |l|;
    var kept, rest := l[..n], l[n..];
    assert l == kept + rest && Take(l, cap) == kept;
    LookupHas(kept, e.key);
    TouchParts(kept, rest, e);
    if Has(kept, e.key) {
      assert Take(Touch(l, e), cap) == Touch(kept, e);
    } else {
      WithoutAbsent(kept, e.key);
      assert Take(Touch(l, e), cap) == AfterPut(kept, cap, e.key, e.val);
    }
  }

  lemma TouchParts<K, V>(kept: seq<Entry<K, V>>, rest: seq<Entry<K, V>>, e: Entry<K, V>)
    requires Distinct(kept + rest)
    ensures Touch(kept + rest, e) == [e] + Without(kept, e.key) + Without(rest, e.key)
    ensures |Without(kept, e.key)| == if Has(kept, e.key) then |kept| - 1 else |kept|
    ensures Has(kept, e.key) ==> Without(rest, e.key) == rest
  {
    WithoutAppend(kept, rest, e.key);
    FrontDistinct(kept, rest);
    WithoutDistinct(kept, e.key);
    if Has(kept, e.key) {
      NotInBoth(kept, rest, e.key);
      WithoutAbsent(rest, e.key);
    }
  }

  lemma FrontDistinct<K, V>(a: seq<Entry<K, V>>, b: seq<Entry<K, V>>)
    requires Distinct(a + b)
    ensures Distinct(a)
  {
    assert forall i | 0 <= i < |a| :: (a + b)[i] == a[i];
  }

  lemma NotInBoth<K, V>(a: seq<Entry<K, V>>, b: seq<Entry<K, V>>, k: K)
    requires Distinct(a + b) && Has(a, k)
    ensures !Has(b, k)
  {
    var i :| 0 <= i < |a| && a[i].key == k;
    forall j | 0 <= j < |b|
      ensures b[j].key != k
    {
      assert (a + b)[i] == a[i] && (a + b)[|a| + j] == b[j];
    }
  }

  /** One call keeps a cache at the `cap` most recently touched entries. */
  lemma ApplyTakes<K, V>(cap: int, touches: seq<Entry<K, V>>, op: Op<K, V>)
    ensures var l := Take(Unbounded(touches), cap);
            Apply(l, cap, op) == Take(Unbounded(touches + TouchOf(l, op)), cap)
  {
    var l := Take(Unbounded(touches), cap);
    var done := TouchOf(l, op);
    UnboundedDistinct(touches);
    if done == [] {
      assert touches + done == touches;
    } else {
      assert (touches + done)[..|touches|] == touches;
      assert Unbounded(touches + done) == Touch(Unbounded(touches), done[0]);
      if cap > 0 {
        TakeTouch(Unbounded(touches), cap, done[0]);
      }
    }
  }

  /** The cache holds exactly the `cap` most recently touched entries. */
  lemma {:induction false} CacheIsMostRecent<K, V>(cap: int, ops: seq<Op<K, V>>)
    ensures Run(cap, ops) == Take(Unbounded(Touches(cap, ops)), cap)
  {
    if ops != [] {
      CacheIsMostRecent(cap, ops[..|ops| - 1]);
      ApplyTakes(cap, Touches(cap, ops[..|ops| - 1]), ops[|ops| - 1]);
    }
  }

  // ---------- When a key leaves

  ghost function Keys<K, V>(l: seq<Entry<K, V>>): set<K> {
    set i | 0 <= i < |l| :: l[i].key
  }

  /** The other keys touched since the last touch of `k`. */
  ghost function Since<K, V>(touches: seq<Entry<K, V>>, k: K): set<K> {
    if touches == [] then {}
    else
      var last := touches[|touches| - 1].key;
      if last == k then {} else {last} + Since(touches[..|touches| - 1], k)
  }

  lemma {:induction false} DistinctCount<K, V>(l: seq<Entry<K, V>>)
    requires Distinct(l)
    ensures |Keys(l)| == |l|
  {
    if l != [] {
      var n := |l| - 1;
      DistinctCount(l[..n]);
      assert Keys(l) == Keys(l[..n]) + {l[n].key};
    }
  }

  /** In order of recency, a key comes right behind the keys touched since. */
  lemma {:induction false} PositionIsSince<K, V>(touches: seq<Entry<K, V>>, k: K) returns (i: nat)
    requires Has(touches, k)
    ensures i < |Unbounded(touches)| && Unbounded(touches)[i].key == k
    ensures Keys(Unbounded(touches)[..i]) == Since(touches, k)
  {
    var n := |touches| - 1;
    var before, e := touches[..n], touches[n];
    if e.key == k {
      i := 0;
      assert Unbounded(touches)[..0] == [];
    } else {
      var j :| 0 <= j < |touches| && touches[j].key == k;
      assert before[j].key == k;
      var p := PositionIsSince(before, k);
      i := MovePosition(Unbounded(before), p, e);
      assert Unbounded(touches) == Touch(Unbounded(before), e);
    }
  }

  lemma MovePosition<K, V>(l: seq<Entry<K, V>>, p: nat, e: Entry<K, V>) returns (i: nat)
    requires p < |l| && l[p].key != e.key
    ensures i < |Touch(l, e)| && Touch(l, e)[i] == l[p]
    ensures Keys(Touch(l, e)[..i]) == {e.key} + Keys(l[..p])
  {
    var front, back := l[..p], l[p..];
    assert l == front + back;
    WithoutAppend(front, back, e.key);
    var w := Without(front, e.key);
    i := 1 + |w|;
    assert Touch(l, e)[..i] == [e] + w;
    assert Touch(l, e)[i] == Without(back, e.key)[0] == back[0];
    forall x
      ensures x in Keys([e] + w) <==> x in {e.key} + Keys(front)
    {
      WithoutHas(front, e.key, x);
      HasKeys(front, x);
      HasKeys(w, x);
      HasKeys([e] + w, x);
      if x in Keys(w) {
        var j :| 0 <= j < |w| && w[j].key == x;
        assert ([e] + w)[j + 1].key == x;
      }
      assert ([e] + w)[0].key == e.key;
    }
    assert Keys([e] + w) == {e.key} + Keys(front);
  }

  lemma HasKeys<K, V>(l: seq<Entry<K, V>>, k: K)
    ensures Has(l, k) <==> k in Keys(l)
  {}

  /** Among the `cap` most recently touched: touched, and fewer than `cap` distinct other
      keys touched since. */
  lemma RecentIff<K, V>(cap: int, touches: seq<Entry<K, V>>, k: K)
    ensures Has(Take(Unbounded(touches), cap), k) <==> Has(touches, k) && |Since(touches, k)| < cap
  {
    var u := Unbounded(touches);
    UnboundedDistinct(touches);
    UnboundedHas(touches, k);
    if Has(touches, k) {
      var i := PositionIsSince(touches, k);
      DistinctCount(u[..i]);
      assert forall j | 0 <= j < |u| && u[j].key == k :: j == i;
      if i < cap {
        assert Take(u, cap)[i].key == k;
      }
    }
    if Has(Take(u, cap), k) {
      var j :| 0 <= j < |Take(u, cap)| && Take(u, cap)[j].key == k;
      assert u[j].key == k;
    }
  }

  /** A key is cached if and only if it was touched and fewer than `cap` distinct other
      keys have been touched since. */
  lemma KeptIff<K, V>(cap: int, ops: seq<Op<K, V>>, k: K)
    ensures var touches := Touches(cap, ops);
            Has(Run(cap, ops), k) <==> Has(touches, k) && |Since(touches, k)| < cap
  {
    CacheIsMostRecent(cap, ops);
    RecentIff(cap, Touches(cap, ops), k);
  }

  lemma {:induction false} UnboundedHas<K, V>(touches: seq<Entry<K, V>>, k: K)
    ensures Has(Unbounded(touches), k) <==> Has(touches, k)
  {
    if touches != [] {
      var n := |touches| - 1;
      var before, e := touches[..n], touches[n];
      UnboundedHas(before, k);
      WithoutHas(Unbounded(before), e.key, k);
      var w := Without(Unbounded(before), e.key);
      assert Unbounded(touches) == [e] + w;
      assert touches == before + [e];
      HasAppend(before, [e], k);
      HasAppend([e], w, k);
      assert Has([e], k) <==> e.key == k by { assert [e][0] == e; }
    }
  }

  lemma HasAppend<K, V>(a: seq<Entry<K, V>>, b: seq<Entry<K, V>>, k: K)
    ensures Has(a + b, k) <==> Has(a, k) || Has(b, k)
  {
    LookupHas(a, k);
    LookupHas(b, k);
    LookupHas(a + b, k);
    LookupAppend(a, b, k);
  }

  // ---------- What a hit returns

  /** The value of the last Put for `k`. */
  function LastPut<K(==), V>(ops: seq<Op<K, V>>, k: K): Option<V> {
    if ops == [] then None
    else
      var op := ops[|ops| - 1];
      if op.Put? && op.key == k then Some(op.val) else LastPut(ops[..|ops| - 1], k)
  }

  lemma {:induction false} LookupWithout<K, V>(l: seq<Entry<K, V>>, k: K, x: K)
    ensures Lookup(Without(l, k), x) == if x == k then None else Lookup(l, x)
  {
    if l != [] {
      LookupWithout(l[1..], k, x);
    }
  }

  /** A cached value is the one last put under its key. */
  lemma {:induction false} HitIsLastPut<K, V>(cap: int, ops: seq<Op<K, V>>, x: K)
    ensures Lookup(Run(cap, ops), x).Some? ==> Lookup(Run(cap, ops), x) == LastPut(ops, x)
  {
    if ops != [] {
      var before, op := ops[..|ops| - 1], ops[|ops| - 1];
      HitIsLastPut(cap, before, x);
      HitIsLastPut(cap, before, op.key);
      var l := Run(cap, before);
      LookupWithout(l, op.key, x);
      if op.Put? {
        var m := [Entry(op.key, op.val)] + l;
        assert m[..|l|] + m[|l|..] == m;
        LookupAppend(m[..|l|], m[|l|..], x);
        assert m[1..] == l;
      }
    }
  }

  // ---------- A larger cache holds more

  ghost predicate Subseq<T>(a: seq<T>, b: seq<T>) {
    a == [] || (b != [] && ((a[0] == b[0] && Subseq(a[1..], b[1..])) || Subseq(a, b[1..])))
  }

  lemma {:induction false} SubWithout<K, V>(a: seq<Entry<K, V>>, b: seq<Entry<K, V>>, k: K)
    requires Subseq(a, b)
    ensures Subseq(Without(a, k), Without(b, k))
    decreases |b|
  {
    if a != [] {
      if a[0] == b[0] && Subseq(a[1..], b[1..]) {
        SubWithout(a[1..], b[1..], k);
        SubCons(b[0], Without(a[1..], k), Without(b[1..], k));
      } else {
        SubWithout(a, b[1..], k);
        SubCons(b[0], Without(a, k), Without(b[1..], k));
      }
    }
  }

  lemma SubCons<T>(x: T, a: seq<T>, b: seq<T>)
    requires Subseq(a, b)
    ensures Subseq(a, [x] + b) && Subseq([x] + a, [x] + b)
  {
    assert ([x] + a)[1..] == a && ([x] + b)[1..] == b;
  }

  lemma {:induction false} SubDropLast<T>(a: seq<T>, b: seq<T>)
    requires Subseq(a, b) && a != []
    ensures |a| <= |b| && Subseq(a[..|a| - 1], b[..|b| - 1])
    decreases |b|
  {
    var n, m := |a| - 1, |b| - 1;
    if a[0] == b[0] && Subseq(a[1..], b[1..]) {
      if n == 0 {
        assert a[..0] == [];
      } else {
        SubDropLast(a[1..], b[1..]);
        assert a[..n] == [a[0]] + a[1..][..n - 1] && b[..m] == [b[0]] + b[1..][..m - 1];
        SubCons(a[0], a[1..][..n - 1], b[1..][..m - 1]);
      }
    } else {
      SubDropLast(a, b[1..]);
      assert b[..m] == [b[0]] + b[1..][..m - 1];
      SubCons(b[0], a[..n], b[1..][..m - 1]);
    }
  }

  lemma {:induction false} SubInit<T>(a: seq<T>, b: seq<T>)
    requires Subseq(a, b) && a != []
    ensures Subseq(a[..|a| - 1], b)
    decreases |b|
  {
    var n := |a| - 1;
    if a[0] == b[0] && Subseq(a[1..], b[1..]) {
      if n == 0 {
        assert a[..0] == [];
      } else {
        SubInit(a[1..], b[1..]);
        assert a[..n] == [a[0]] + a[1..][..n - 1] && b == [b[0]] + b[1..];
        SubCons(a[0], a[1..][..n - 1], b[1..]);
      }
    } else {
      SubInit(a, b[1..]);
      assert b == [b[0]] + b[1..];
      SubCons(b[0], a[..n], b[1..]);
    }
  }

  lemma HeadApart<K, V>(l: seq<Entry<K, V>>)
    requires Distinct(l) && l != []
    ensures Distinct(l[1..]) && !Has(l[1..], l[0].key)
  {
    assert forall i | 0 <= i < |l[1..]| :: l[1..][i] == l[i + 1];
  }

  lemma {:induction false} SubHas<K, V>(a: seq<Entry<K, V>>, b: seq<Entry<K, V>>, k: K)
    requires Subseq(a, b) && Distinct(b) && Lookup(a, k).Some?
    ensures Lookup(b, k) == Lookup(a, k)
    decreases |b|
  {
    HeadApart(b);
    if a[0] == b[0] && Subseq(a[1..], b[1..]) {
      if a[0].key != k {
        SubHas(a[1..], b[1..], k);
      }
    } else {
      SubHas(a, b[1..], k);
      LookupHas(b[1..], k);
    }
  }

  lemma RunDistinct<K, V>(cap: int, ops: seq<Op<K, V>>)
    ensures Distinct(Run(cap, ops)) && |Run(cap, ops)| <= (if cap > 0 then cap else 0)
  {
    CacheIsMostRecent(cap, ops);
    UnboundedDistinct(Touches(cap, ops));
  }

  /** One call keeps a smaller cache inside a larger one that is at least as full as the
      smaller capacity allows. */
  lemma ApplyMonotone<K, V>(a: seq<Entry<K, V>>, b: seq<Entry<K, V>>, c: nat, d: nat, op: Op<K, V>)
    requires c <= d && Distinct(a) && Distinct(b) && Subseq(a, b)
    requires |b| <= d && |a| == if c < |b| then c else |b|
    ensures var a', b' := Apply(a, c, op), Apply(b, d, op);
            Subseq(a', b') && |a'| == if c < |b'| then c else |b'|
  {
    var k := op.key;
    LookupHas(a, k);
    LookupHas(b, k);
    WithoutDistinct(a, k);
    WithoutDistinct(b, k);
    SubWithout(a, b, k);
    if Has(a, k) {
      SubHas(a, b, k);
      var e := Apply(a, c, op)[0];
      SubCons(e, Without(a, k), Without(b, k));
    } else {
      WithoutAbsent(a, k);
      if Has(b, k) {
        MonotoneMiss(a, b, c, op);
      } else if op.Put? {
        MonotonePut(a, b, c, d, Entry(k, op.val));
      }
    }
  }

  lemma MonotoneMiss<K, V>(a: seq<Entry<K, V>>, b: seq<Entry<K, V>>, c: nat, op: Op<K, V>)
    requires Lookup(a, op.key).None? && Lookup(b, op.key).Some? && Subseq(a, Without(b, op.key))
    requires |Without(b, op.key)| == |b| - 1 && |a| == if c < |b| then c else |b|
    ensures var a', b' := Apply(a, c, op), Apply(b, c, op);
            Subseq(a', b') && |a'| == if c < |b'| then c else |b'|
  {
    var w := Without(b, op.key);
    SubLength(a, w);
    var e := Apply(b, c, op)[0];
    SubCons(e, a, w);
    if op.Put? {
      assert |a| == c && ([e] + a) != [];
      SubInit([e] + a, [e] + w);
    }
  }

  lemma {:induction false} SubLength<T>(a: seq<T>, b: seq<T>)
    requires Subseq(a, b)
    ensures |a| <= |b|
    decreases |b|
  {
    if a != [] {
      if a[0] == b[0] && Subseq(a[1..], b[1..]) {
        SubLength(a[1..], b[1..]);
      } else {
        SubLength(a, b[1..]);
      }
    }
  }

  lemma MonotonePut<K, V>(a: seq<Entry<K, V>>, b: seq<Entry<K, V>>, c: nat, d: nat, e: Entry<K, V>)
    requires c <= d && Subseq(a, b) && |b| <= d && |a| == if c < |b| then c else |b|
    requires Lookup(a, e.key).None? && Lookup(b, e.key).None?
    ensures var a', b' := AfterPut(a, c, e.key, e.val), AfterPut(b, d, e.key, e.val);
            Subseq(a', b') && |a'| == if c < |b'| then c else |b'|
  {
    SubCons(e, a, b);
    PutFits(a, c, e);
    PutFits(b, d, e);
    MonotoneCut([e] + a, [e] + b, c, d);
  }

  lemma PutFits<K, V>(l: seq<Entry<K, V>>, cap: int, e: Entry<K, V>)
    requires Lookup(l, e.key).None?
    ensures AfterPut(l, cap, e.key, e.val) == Fit([e] + l, cap)
  {
    assert Entry(e.key, e.val) == e;
  }

  /** Dropping the last entry of a list too long for its capacity. */
  function Fit<T>(l: seq<T>, cap: int): seq<T> {
    if |l| > cap && l != [] then l[..|l| - 1] else l
  }

  lemma MonotoneCut<T>(a: seq<T>, b: seq<T>, c: nat, d: nat)
    requires c <= d && Subseq(a, b) && 0 < |b| <= d + 1 && |a| == if c < |b| - 1 then c + 1 else |b|
    ensures Subseq(Fit(a, c), Fit(b, d)) && |Fit(a, c)| == if c < |Fit(b, d)| then c else |Fit(b, d)|
  {
    if |b| > d {
      SubDropLast(a, b);
    } else if |a| > c {
      SubInit(a, b);
    }
  }

  /** Capacity monotonicity: after the same calls, the smaller cache's list is a
      subsequence of the larger one's, values included. */
  lemma {:induction false} LargerHoldsMore<K, V>(c: nat, d: nat, ops: seq<Op<K, V>>)
    requires c <= d
    ensures Subseq(Run(c, ops), Run(d, ops))
    ensures |Run(c, ops)| == if c < |Run(d, ops)| then c else |Run(d, ops)|
  {
    if ops != [] {
      var before, op := ops[..|ops| - 1], ops[|ops| - 1];
      LargerHoldsMore(c, d, before);
      RunDistinct(c, before);
      RunDistinct(d, before);
      ApplyMonotone(Run(c, before), Run(d, before), c, d, op);
    }
  }

  /** So raising the capacity never turns a hit into a miss, and hits give the same
      value. */
  lemma LargerKeepsHits<K, V>(c: int, d: int, ops: seq<Op<K, V>>, k: K)
    requires c <= d && Lookup(Run(c, ops), k).Some?
    ensures Lookup(Run(d, ops), k) == Lookup(Run(c, ops), k)
  {
    CacheIsMostRecent(c, ops);
    assert c > 0;
    LargerHoldsMore(c, d, ops);
    RunDistinct(d, ops);
    SubHas(Run(c, ops), Run(d, ops), k);
  }
}
