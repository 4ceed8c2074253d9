/** Sequence helpers shared by the friend-request and news models: the
    `Array.prototype.filter` and `Array.prototype.find` of the source, and the
    optional values its `undefined` results become. */
module Seqs {

  datatype Option<+T> = None | Some(value: T)

  /** The value of an optional lookup (`Map.get`), `None` when the key is absent. */
  function Get<K, V>(m: map<K, V>, k: K): (r: Option<V>)
    ensures r.Some? <==> k in m
    ensures r.Some? ==> r.value == m[k]
  {
    if k in m then Some(m[k]) else None
  }

  /** No element occurs twice. */
  predicate NoDuplicates<T(==)>(s: seq<T>) {
    forall i, j :: 0 <= i < j < |s| ==> s[i] != s[j]
  }

  /** `s.filter(p)`: the elements satisfying `p`, each as often as in `s`. */
  function Filter<T(!new)>(s: seq<T>, p: T -> bool): (r: seq<T>)
    ensures |r| <= |s|
    ensures forall x :: x in r <==> x in s && p(x)
    decreases |s|
  {
    if s == [] then []
    else
      assert s == [s[0]] + s[1..];
      (if p(s[0]) then [s[0]] else []) + Filter(s[1..], p)
  }

  /** Each element is kept exactly as often as it occurs, or dropped entirely. */
  lemma {:induction false} FilterMultiset<T(!new)>(s: seq<T>, p: T -> bool)
    ensures forall x :: multiset(Filter(s, p))[x] == if p(x) then multiset(s)[x] else 0
    decreases |s|
  {
    if s != [] {
      assert s == [s[0]] + s[1..];
      FilterMultiset(s[1..], p);
    }
  }

  /** How often one element is kept by a filter. */
  lemma FilterCount<T(!new)>(s: seq<T>, p: T -> bool, x: T)
    ensures multiset(Filter(s, p))[x] == if p(x) then multiset(s)[x] else 0
  {
    FilterMultiset(s, p);
  }

  /** Four filters of which every element passes exactly one split a sequence. */
  lemma FilterPartition4<T(!new)>(s: seq<T>, p1: T -> bool, p2: T -> bool, p3: T -> bool, p4: T -> bool)
    requires forall x :: (if p1(x) then 1 else 0) + (if p2(x) then 1 else 0) + (if p3(x) then 1 else 0) + (if p4(x) then 1 else 0) == 1
    ensures multiset(Filter(s, p1)) + multiset(Filter(s, p2)) + multiset(Filter(s, p3)) + multiset(Filter(s, p4)) == multiset(s)
  {
    var total := multiset(Filter(s, p1)) + multiset(Filter(s, p2)) + multiset(Filter(s, p3)) + multiset(Filter(s, p4));
    forall x ensures total[x] == multiset(s)[x] {
      FilterCount(s, p1, x);
      FilterCount(s, p2, x);
      FilterCount(s, p3, x);
      FilterCount(s, p4, x);
    }
  }

  /** Appending an element not yet present keeps a sequence free of duplicates. */
  lemma NoDuplicatesAppend<T>(s: seq<T>, x: T)
    requires NoDuplicates(s) && x !in s
    ensures NoDuplicates(s + [x])
  {
    var r := s + [x];
    forall i, j | 0 <= i < j < |r| ensures r[i] != r[j] {
      if j < |s| {
        assert r[i] == s[i] && r[j] == s[j];
      } else {
        assert r[i] == s[i];
      }
    }
  }

  /** Sequences with the same elements keep the same elements under a filter. */
  lemma FilterSameMultiset<T(!new)>(a: seq<T>, b: seq<T>, p: T -> bool)
    requires multiset(a) == multiset(b)
    ensures multiset(Filter(a, p)) == multiset(Filter(b, p))
  {
    FilterMultiset(a, p);
    FilterMultiset(b, p);
  }

  /** A sequence holding exactly one element once is that element alone. */
  lemma MultisetSingleton<T>(s: seq<T>, x: T)
    requires multiset(s) == multiset{x}
    ensures s == [x]
  {
    assert |s| == |multiset(s)| == 1;
    assert s[0] in multiset(s);
  }

  /** Filtering keeps the order: it distributes over concatenation. */
  lemma {:induction false} FilterConcat<T(!new)>(a: seq<T>, b: seq<T>, p: T -> bool)
    ensures Filter(a + b, p) == Filter(a, p) + Filter(b, p)
    decreases |a|
  {
    if a == [] {
      assert a + b == b;
    } else {
      var head := if p(a[0]) then [a[0]] else [];
      calc {
        Filter(a + b, p);
        { assert (a + b)[0] == a[0]; assert (a + b)[1..] == a[1..] + b; }
        head + Filter(a[1..] + b, p);
        { FilterConcat(a[1..], b, p); }
        head + (Filter(a[1..], p) + Filter(b, p));
        (head + Filter(a[1..], p)) + Filter(b, p);
      }
    }
  }

  /** Two predicates that agree on every element filter alike. */
  lemma {:induction false} FilterAgree<T(!new)>(s: seq<T>, p: T -> bool, q: T -> bool)
    requires forall i :: 0 <= i < |s| ==> p(s[i]) == q(s[i])
    ensures Filter(s, p) == Filter(s, q)
    decreases |s|
  {
    if s != [] {
      FilterAgree(s[1..], p, q);
    }
  }

  /** A filter that every element passes changes nothing. */
  lemma {:induction false} FilterAll<T(!new)>(s: seq<T>, p: T -> bool)
    requires forall i :: 0 <= i < |s| ==> p(s[i])
    ensures Filter(s, p) == s
    decreases |s|
  {
    if s != [] {
      FilterAll(s[1..], p);
    }
  }

  /** A filter that no element passes leaves nothing. */
  lemma {:induction false} FilterNone<T(!new)>(s: seq<T>, p: T -> bool)
    requires forall i :: 0 <= i < |s| ==> !p(s[i])
    ensures Filter(s, p) == []
    decreases |s|
  {
    if s != [] {
      FilterNone(s[1..], p);
    }
  }

  /** A filter keeps a sequence free of duplicates. */
  lemma {:induction false} FilterNoDuplicates<T(!new)>(s: seq<T>, p: T -> bool)
    requires NoDuplicates(s)
    ensures NoDuplicates(Filter(s, p))
    decreases |s|
  {
    if s != [] {
      FilterNoDuplicates(s[1..], p);
      var r := Filter(s[1..], p);
      assert s[0] !in s[1..];
      assert s[0] !in r;
    }
  }

  /** Filtering by a predicate and by its negation splits the multiset. */
  lemma FilterPartition<T(!new)>(s: seq<T>, p: T -> bool, q: T -> bool)
    requires forall x :: q(x) == !p(x)
    ensures multiset(Filter(s, p)) + multiset(Filter(s, q)) == multiset(s)
  {
    FilterMultiset(s, p);
    FilterMultiset(s, q);
  }

  /** The index of the first element satisfying `p` (`findIndex`), `None` when none does. */
  function FirstIndex<T>(s: seq<T>, p: T -> bool): (r: Option<nat>)
    ensures r.None? <==> forall i :: 0 <= i < |s| ==> !p(s[i])
    ensures r.Some? ==> r.value < |s| && p(s[r.value])
    ensures r.Some? ==> forall j :: 0 <= j < r.value ==> !p(s[j])
    decreases |s|
  {
    if s == [] then None
    else if p(s[0]) then Some(0)
    else
      match FirstIndex(s[1..], p)
      case None => None
      case Some(i) => Some(i + 1)
  }

  /** `s.find(p)`: the first element satisfying `p`. */
  function FindFirst<T>(s: seq<T>, p: T -> bool): (r: Option<T>)
    ensures r.None? <==> forall i :: 0 <= i < |s| ==> !p(s[i])
    ensures r.Some? ==> p(r.value) && r.value in s
    ensures r.Some? ==> exists i :: 0 <= i < |s| && s[i] == r.value && forall j :: 0 <= j < i ==> !p(s[j])
  {
    match FirstIndex(s, p)
    case None => None
    case Some(i) => Some(s[i])
  }

  /** When exactly one element passes, `find` returns it. */
  lemma FindFirstOfSingleMatch<T(!new)>(s: seq<T>, p: T -> bool)
    requires |Filter(s, p)| == 1
    ensures FindFirst(s, p) == Some(Filter(s, p)[0])
  {
    var only := Filter(s, p);
    assert only[0] in only;
    var i :| 0 <= i < |s| && s[i] == only[0];
    var f := FindFirst(s, p);
    assert f.Some?;
    assert f.value in only;
  }

  /** `find` on a sequence with a known head. */
  lemma FindFirstCons<T>(x: T, rest: seq<T>, p: T -> bool)
    ensures FindFirst([x] + rest, p) == if p(x) then Some(x) else FindFirst(rest, p)
  {
    assert ([x] + rest)[0] == x;
    assert ([x] + rest)[1..] == rest;
  }

  /** When exactly one position satisfies `p`, `find` returns that element. */
  lemma FindFirstUnique<T>(s: seq<T>, p: T -> bool, k: nat)
    requires k < |s| && p(s[k])
    requires forall j :: 0 <= j < |s| && j != k ==> !p(s[j])
    ensures FindFirst(s, p) == Some(s[k])
  {
    var r := FirstIndex(s, p);
    assert r.Some?;
    assert r.value == k;
  }

  /** `find` on a concatenation looks in the second part only when the first has no match. */
  lemma {:induction false} FindFirstConcat<T>(a: seq<T>, b: seq<T>, p: T -> bool)
    ensures FindFirst(a + b, p) == if FindFirst(a, p).Some? then FindFirst(a, p) else FindFirst(b, p)
    decreases |a|
  {
    if a == [] {
      assert a + b == b;
    } else {
      assert a + b == [a[0]] + (a[1..] + b);
      assert a == [a[0]] + a[1..];
      FindFirstCons(a[0], a[1..] + b, p);
      FindFirstCons(a[0], a[1..], p);
      FindFirstConcat(a[1..], b, p);
    }
  }
}
