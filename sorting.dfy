/** LINQ's `OrderBy(key)`: a stable sort, modelled as an insertion sort over
    a total preorder `le` ("sorts no later than") on the elements. */
module Sorting {

  /** `le` is total and transitive. */
  ghost predicate TotalPreorder<T(!new)>(le: (T, T) -> bool) {
    && (forall a, b :: le(a, b) || le(b, a))
    && (forall a, b, c :: le(a, b) && le(b, c) ==> le(a, c))
  }

  ghost predicate SortedBy<T>(s: seq<T>, le: (T, T) -> bool) {
    forall i, j :: 0 <= i < j < |s| ==> le(s[i], s[j])
  }

  /** `a` and `b` have the same sort key. */
  predicate Equivalent<T>(a: T, b: T, le: (T, T) -> bool) {
    le(a, b) && le(b, a)
  }

  /** The elements of `s` with the same sort key as `k`, in their order in `s`. */
  function Equivalents<T>(s: seq<T>, k: T, le: (T, T) -> bool): seq<T> {
    if s == [] then []
    else (if Equivalent(s[0], k, le) then [s[0]] else []) + Equivalents(s[1..], k, le)
  }

  /** Places `x` in front of the first element it sorts no later than. */
  function Insert<T>(x: T, t: seq<T>, le: (T, T) -> bool): (r: seq<T>)
    ensures |r| == |t| + 1
  {
    if t == [] || le(x, t[0]) then [x] + t
    else [t[0]] + Insert(x, t[1..], le)
  }

  /** Insertion adds `x` and loses nothing. */
  lemma {:induction false} InsertPermutes<T>(x: T, t: seq<T>, le: (T, T) -> bool)
    ensures multiset(Insert(x, t, le)) == multiset(t) + multiset{x}
  {
    if t != [] && !le(x, t[0]) {
      InsertPermutes(x, t[1..], le);
      assert t == [t[0]] + t[1..];
    }
  }

  /** `s.OrderBy(...)`: the elements of `s`, sorted, equal keys in input order. */
  function SortBy<T>(s: seq<T>, le: (T, T) -> bool): (r: seq<T>)
    ensures multiset(r) == multiset(s)
    ensures |r| == |s|
  {
    if s == [] then []
    else
      assert s == [s[0]] + s[1..];
      InsertPermutes(s[0], SortBy(s[1..], le), le);
      Insert(s[0], SortBy(s[1..], le), le)
  }

  /** Each element of an insertion is `x` or an element of `t`. */
  lemma InsertElement<T>(x: T, t: seq<T>, le: (T, T) -> bool, j: nat)
    requires j < |Insert(x, t, le)|
    ensures Insert(x, t, le)[j] == x || Insert(x, t, le)[j] in t
  {
    InsertPermutes(x, t, le);
    assert Insert(x, t, le)[j] in multiset(Insert(x, t, le));
  }

  lemma {:induction false} InsertSorted<T(!new)>(x: T, t: seq<T>, le: (T, T) -> bool)
    requires TotalPreorder(le) && SortedBy(t, le)
    ensures SortedBy(Insert(x, t, le), le)
  {
    if t != [] && !le(x, t[0]) {
      var rest := Insert(x, t[1..], le);
      InsertSorted(x, t[1..], le);
      forall j | 0 <= j < |rest|
        ensures le(t[0], rest[j])
      {
        InsertElement(x, t[1..], le, j);
        if rest[j] != x {
          var i :| 0 <= i < |t[1..]| && t[1..][i] == rest[j];
          assert le(t[0], t[i + 1]);
        }
      }
      var r := [t[0]] + rest;
      assert Insert(x, t, le) == r;
      forall i, j | 0 <= i < j < |r|
        ensures le(r[i], r[j])
      {
        if i > 0 {
          assert r[i] == rest[i - 1] && r[j] == rest[j - 1];
        }
      }
    }
  }

  /** `SortBy` puts the elements in non-decreasing order. */
  lemma {:induction false} SortBySorted<T(!new)>(s: seq<T>, le: (T, T) -> bool)
    requires TotalPreorder(le)
    ensures SortedBy(SortBy(s, le), le)
  {
    if s != [] {
      SortBySorted(s[1..], le);
      InsertSorted(s[0], SortBy(s[1..], le), le);
    }
  }

  /** Unfolds `Equivalents` once at the front of `[y] + u`. */
  lemma EquivalentsCons<T>(y: T, u: seq<T>, k: T, le: (T, T) -> bool)
    ensures Equivalents([y] + u, k, le) == (if Equivalent(y, k, le) then [y] else []) + Equivalents(u, k, le)
  {
    assert ([y] + u)[1..] == u;
  }

  /** Everything sharing `k`'s key with `x` sorts no earlier than `x`: the
      one consequence of a total preorder that insertion stability needs. */
  ghost predicate KeyConsistent<T(!new)>(x: T, k: T, le: (T, T) -> bool) {
    Equivalent(x, k, le) ==> forall y :: Equivalent(y, k, le) ==> le(x, y)
  }

  lemma KeyConsistentOfPreorder<T(!new)>(x: T, k: T, le: (T, T) -> bool)
    requires TotalPreorder(le)
    ensures KeyConsistent(x, k, le)
  {
  }

  lemma {:induction false} InsertEquivalentsCore<T(!new)>(x: T, t: seq<T>, k: T, le: (T, T) -> bool)
    requires KeyConsistent(x, k, le)
    ensures Equivalents(Insert(x, t, le), k, le)
         == (if Equivalent(x, k, le) then [x] else []) + Equivalents(t, k, le)
  {
    if t == [] || le(x, t[0]) {
      EquivalentsCons(x, t, k, le);
    } else {
      var rest := Insert(x, t[1..], le);
      assert Insert(x, t, le) == [t[0]] + rest;
      InsertEquivalentsCore(x, t[1..], k, le);
      EquivalentsCons(t[0], rest, k, le);
      assert t == [t[0]] + t[1..];
      EquivalentsCons(t[0], t[1..], k, le);
      var tail := Equivalents(t[1..], k, le);
      if Equivalent(x, k, le) {
        assert !Equivalent(t[0], k, le);
        assert Equivalents(Insert(x, t, le), k, le) == [] + ([x] + tail);
      } else {
        assert Equivalents(Insert(x, t, le), k, le) == Equivalents(t, k, le);
      }
    }
  }

  lemma InsertEquivalents<T(!new)>(x: T, t: seq<T>, k: T, le: (T, T) -> bool)
    requires TotalPreorder(le)
    ensures Equivalents(Insert(x, t, le), k, le)
         == (if Equivalent(x, k, le) then [x] else []) + Equivalents(t, k, le)
  {
    KeyConsistentOfPreorder(x, k, le);
    InsertEquivalentsCore(x, t, k, le);
  }

  /** Stability: for every key, the elements with that key keep their
      relative order. */
  lemma {:induction false} SortByStable<T(!new)>(s: seq<T>, k: T, le: (T, T) -> bool)
    requires TotalPreorder(le)
    ensures Equivalents(SortBy(s, le), k, le) == Equivalents(s, k, le)
  {
    if s != [] {
      SortByStable(s[1..], k, le);
      InsertEquivalents(s[0], SortBy(s[1..], le), k, le);
    }
  }
}
