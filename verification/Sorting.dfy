/** The stable sort of the standard library, as an insertion sort, and what characterises it. */
module Sorting {

  ghost predicate TotalPreorder<T(!new)>(leq: (T, T) -> bool) {
    && (forall a, b :: leq(a, b) || leq(b, a))
    && (forall a, b, c :: leq(a, b) && leq(b, c) ==> leq(a, c))
  }

  lemma Transitive<T(!new)>(leq: (T, T) -> bool, a: T, b: T, c: T)
    requires TotalPreorder(leq) && leq(a, b) && leq(b, c)
    ensures leq(a, c)
  {
  }

  lemma Total<T(!new)>(leq: (T, T) -> bool, a: T, b: T)
    requires TotalPreorder(leq)
    ensures leq(a, b) || leq(b, a)
  {
  }

  ghost predicate Sorted<T(!new)>(s: seq<T>, leq: (T, T) -> bool) {
    forall i, j :: 0 <= i < j < |s| ==> leq(s[i], s[j])
  }

  /** `e` put behind every element it does not have to precede. */
  function Insert<T>(s: seq<T>, e: T, leq: (T, T) -> bool): (r: seq<T>)
    ensures |r| == |s| + 1
  {
    if s == [] || leq(s[|s| - 1], e) then s + [e]
    else Insert(s[..|s| - 1], e, leq) + [s[|s| - 1]]
  }

  function StableSort<T>(s: seq<T>, leq: (T, T) -> bool): (r: seq<T>)
    ensures |r| == |s|
  {
    if s == [] then [] else Insert(StableSort(s[..|s| - 1], leq), s[|s| - 1], leq)
  }

  /** The elements of `s` that compare equal to `e`, in order. */
  function Class<T>(s: seq<T>, e: T, leq: (T, T) -> bool): seq<T> {
    if s == [] then []
    else
      var n := |s| - 1;
      if leq(s[n], e) && leq(e, s[n]) then Class(s[..n], e, leq) + [s[n]] else Class(s[..n], e, leq)
  }

  lemma {:induction false} InsertSplits<T>(s: seq<T>, e: T, leq: (T, T) -> bool) returns (k: nat)
    ensures k <= |s| && Insert(s, e, leq) == s[..k] + [e] + s[k..]
    ensures k > 0 ==> leq(s[k - 1], e)
    ensures forall i :: k <= i < |s| ==> !leq(s[i], e)
  {
    k := |s|;
    var n := |s| - 1;
    if s != [] && !leq(s[n], e) {
      k := InsertSplits(s[..n], e, leq);
      assert s[..n][..k] == s[..k] && s[..n][k..] + [s[n]] == s[k..];
    }
  }

  lemma {:induction false} ClassConcat<T>(a: seq<T>, b: seq<T>, e: T, leq: (T, T) -> bool)
    ensures Class(a + b, e, leq) == Class(a, e, leq) + Class(b, e, leq)
  {
    if b == [] {
      assert a + b == a;
    } else {
      assert (a + b)[..|a + b| - 1] == a + b[..|b| - 1];
      ClassConcat(a, b[..|b| - 1], e, leq);
    }
  }

  lemma {:induction false} ClassEmpty<T>(s: seq<T>, e: T, leq: (T, T) -> bool)
    requires forall i :: 0 <= i < |s| ==> !(leq(s[i], e) && leq(e, s[i]))
    ensures Class(s, e, leq) == []
  {
    if s != [] {
      ClassEmpty(s[..|s| - 1], e, leq);
    }
  }

  lemma SpliceSorted<T(!new)>(t: seq<T>, e: T, k: nat, leq: (T, T) -> bool)
    requires TotalPreorder(leq) && Sorted(t, leq) && k <= |t|
    requires k > 0 ==> leq(t[k - 1], e)
    requires forall i :: k <= i < |t| ==> !leq(t[i], e)
    ensures Sorted(t[..k] + [e] + t[k..], leq)
  {
    hide TotalPreorder;
    forall i | 0 <= i < k
      ensures leq(t[i], e)
    {
      if i < k - 1 {
        Transitive(leq, t[i], t[k - 1], e);
      }
    }
    forall i | k <= i < |t|
      ensures leq(e, t[i])
    {
      Total(leq, e, t[i]);
    }
  }

  lemma {:induction false} StableSortSorted<T(!new)>(s: seq<T>, leq: (T, T) -> bool)
    requires TotalPreorder(leq)
    ensures Sorted(StableSort(s, leq), leq)
  {
    hide TotalPreorder;
    if s != [] {
      hide Sorted;
      var t, e := StableSort(s[..|s| - 1], leq), s[|s| - 1];
      StableSortSorted(s[..|s| - 1], leq);
      var k := InsertSplits(t, e, leq);
      SpliceSorted(t, e, k, leq);
    }
  }

  lemma InsertKeeps<T>(t: seq<T>, e: T, leq: (T, T) -> bool)
    ensures multiset(Insert(t, e, leq)) == multiset(t + [e])
  {
    var k := InsertSplits(t, e, leq);
    hide Insert;
    assert t[..k] + t[k..] == t;
    MultisetSplice(t[..k], e, t[k..]);
  }

  lemma MultisetSplice<T>(a: seq<T>, e: T, b: seq<T>)
    ensures multiset(a + [e] + b) == multiset(a + b + [e])
  {
  }

  /** Taking the same element out of two rearrangements leaves rearrangements. */
  lemma MultisetRemove<T>(p: seq<T>, e: T, x: seq<T>, y: seq<T>)
    requires multiset(p + [e]) == multiset(x + [e] + y)
    ensures multiset(p) == multiset(x + y)
  {
    MultisetSplice(x, e, y);
    assert multiset(p) == multiset(p + [e]) - multiset{e};
    assert multiset(x + y) == multiset(x + y + [e]) - multiset{e};
  }

  lemma OccursAt<T>(s: seq<T>, e: T) returns (i: nat)
    requires e in multiset(s)
    ensures i < |s| && s[i] == e && s == s[..i] + [e] + s[i + 1..]
  {
    i :| 0 <= i < |s| && s[i] == e;
  }

  lemma {:induction false} StableSortKeeps<T>(s: seq<T>, leq: (T, T) -> bool)
    ensures multiset(StableSort(s, leq)) == multiset(s)
  {
    if s != [] {
      var n := |s| - 1;
      StableSortKeeps(s[..n], leq);
      hide Insert;
      InsertKeeps(StableSort(s[..n], leq), s[n], leq);
      assert s[..n] + [s[n]] == s;
    }
  }

  /** Elements that compare equal keep their order. */
  lemma {:induction false} StableSortStable<T(!new)>(s: seq<T>, x: T, leq: (T, T) -> bool)
    requires TotalPreorder(leq)
    ensures Class(StableSort(s, leq), x, leq) == Class(s, x, leq)
  {
    if s != [] {
      var n := |s| - 1;
      var t := StableSort(s[..n], leq);
      StableSortStable(s[..n], x, leq);
      var k := InsertSplits(t, s[n], leq);
      ClassOfInsert(t, s[n], k, x, leq);
      hide Class;
      ClassConcat(s[..n], [s[n]], x, leq);
      assert s[..n] + [s[n]] == s;
    }
  }

  lemma ClassOfInsert<T(!new)>(t: seq<T>, e: T, k: nat, x: T, leq: (T, T) -> bool)
    requires TotalPreorder(leq) && k <= |t|
    requires forall i :: k <= i < |t| ==> !leq(t[i], e)
    ensures Class(t[..k] + [e] + t[k..], x, leq) == Class(t, x, leq) + Class([e], x, leq)
  {
    hide Class, TotalPreorder;
    if leq(e, x) && leq(x, e) {
      forall i | 0 <= i < |t[k..]|
        ensures !(leq(t[k..][i], x) && leq(x, t[k..][i]))
      {
        if leq(t[k..][i], x) {
          Transitive(leq, t[k..][i], x, e);
        }
      }
      ClassEmpty(t[k..], x, leq);
    } else {
      ClassEmpty([e], x, leq);
    }
    ClassConcat(t[..k] + [e], t[k..], x, leq);
    ClassConcat(t[..k], [e], x, leq);
    ClassConcat(t[..k], t[k..], x, leq);
    assert t == t[..k] + t[k..];
  }

  lemma {:induction false} ClassMember<T>(s: seq<T>, e: T, leq: (T, T) -> bool) returns (i: nat)
    requires Class(s, e, leq) != []
    ensures i < |s| && leq(s[i], e) && leq(e, s[i])
  {
    var n := |s| - 1;
    i := n;
    if !(leq(s[n], e) && leq(e, s[n])) {
      i := ClassMember(s[..n], e, leq);
    }
  }

  ghost predicate SameClasses<T(!new)>(a: seq<T>, b: seq<T>, leq: (T, T) -> bool) {
    forall x :: Class(a, x, leq) == Class(b, x, leq)
  }

  lemma LastInOwnClass<T(!new)>(s: seq<T>, leq: (T, T) -> bool)
    requires TotalPreorder(leq) && Sorted(s, leq) && s != []
    ensures Class(s, s[|s| - 1], leq) != []
    ensures forall i :: 0 <= i < |s| ==> leq(s[i], s[|s| - 1])
  {
    Total(leq, s[|s| - 1], s[|s| - 1]);
  }

  lemma LastsCompareEqual<T(!new)>(a: seq<T>, b: seq<T>, leq: (T, T) -> bool)
    requires TotalPreorder(leq) && Sorted(a, leq) && Sorted(b, leq) && a != []
    requires SameClasses(a, b, leq)
    ensures b != [] && leq(a[|a| - 1], b[|b| - 1]) && leq(b[|b| - 1], a[|a| - 1])
  {
    hide TotalPreorder, Class;
    var n := |a| - 1;
    assert Class(a, a[n], leq) == Class(b, a[n], leq);
    LastInOwnClass(a, leq);
    var i := ClassMember(b, a[n], leq);
    var m := |b| - 1;
    assert Class(a, b[m], leq) == Class(b, b[m], leq);
    LastInOwnClass(b, leq);
    var j := ClassMember(a, b[m], leq);
    hide Sorted;
    Transitive(leq, a[n], b[i], b[m]);
    Transitive(leq, b[m], a[j], a[n]);
  }

  /** Sortedness and the classes determine a sequence: there is one way to sort stably. */
  lemma {:induction false} StableSortUnique<T(!new)>(a: seq<T>, b: seq<T>, leq: (T, T) -> bool)
    requires TotalPreorder(leq) && Sorted(a, leq) && Sorted(b, leq)
    requires SameClasses(a, b, leq)
    ensures a == b
    decreases |a|
  {
    if a == [] {
      if b != [] {
        LastsCompareEqual(b, a, leq);
      }
      return;
    }
    var n, m := |a| - 1, |b| - 1;
    LastsCompareEqual(a, b, leq);
    assert Class(a, a[n], leq) == Class(b, a[n], leq);
    assert leq(a[n], a[n]);
    assert Class(a, a[n], leq) == Class(a[..n], a[n], leq) + [a[n]];
    assert Class(b, a[n], leq) == Class(b[..m], a[n], leq) + [b[m]];
    assert a[n] == (Class(a[..n], a[n], leq) + [a[n]])[|Class(a[..n], a[n], leq)|];
    assert a[n] == b[m];
    forall x
      ensures Class(a[..n], x, leq) == Class(b[..m], x, leq)
    {
      assert Class(a, x, leq) == Class(b, x, leq);
      if leq(a[n], x) && leq(x, a[n]) {
        assert Class(a[..n], x, leq) == Class(a, x, leq)[..|Class(a, x, leq)| - 1];
        assert Class(b[..m], x, leq) == Class(b, x, leq)[..|Class(b, x, leq)| - 1];
      }
    }
    StableSortUnique(a[..n], b[..m], leq);
    assert a == a[..n] + [a[n]] && b == b[..m] + [b[m]];
  }

  lemma SortedFront<T(!new)>(p: seq<T>, leq: (T, T) -> bool)
    requires Sorted(p, leq) && p != []
    ensures Sorted(p[..|p| - 1], leq) && (|p| > 1 ==> leq(p[|p| - 2], p[|p| - 1]))
  {
  }

  lemma {:induction false} SortOfSorted<T(!new)>(p: seq<T>, leq: (T, T) -> bool)
    requires Sorted(p, leq)
    ensures StableSort(p, leq) == p
  {
    hide Sorted;
    if p != [] {
      var n := |p| - 1;
      SortedFront(p, leq);
      SortOfSorted(p[..n], leq);
      assert p[..n] + [p[n]] == p;
    }
  }

  /** A sorted front that nothing behind it precedes stays in front. */
  lemma {:induction false} SortKeepsFront<T(!new)>(p: seq<T>, q: seq<T>, leq: (T, T) -> bool)
    requires Sorted(p, leq)
    requires forall i, j :: 0 <= i < |p| && 0 <= j < |q| ==> leq(p[i], q[j])
    ensures StableSort(p + q, leq) == p + StableSort(q, leq)
    decreases |q|
  {
    if q == [] {
      assert p + q == p;
      SortOfSorted(p, leq);
    } else {
      var m := |q| - 1;
      assert (p + q)[..|p| + m] == p + q[..m];
      SortKeepsFront(p, q[..m], leq);
      InsertBehind(p, StableSort(q[..m], leq), q[m], leq);
    }
  }

  lemma {:induction false} InsertBehind<T>(p: seq<T>, s: seq<T>, e: T, leq: (T, T) -> bool)
    requires forall i :: 0 <= i < |p| ==> leq(p[i], e)
    ensures Insert(p + s, e, leq) == p + Insert(s, e, leq)
    decreases |s|
  {
    if s == [] {
      assert p + s == p;
    } else {
      assert (p + s)[..|p + s| - 1] == p + s[..|s| - 1];
      InsertBehind(p, s[..|s| - 1], e, leq);
    }
  }

  /** Members that compare equal both ways are the same. */
  ghost predicate AntisymmetricOn<T(!new)>(s: seq<T>, leq: (T, T) -> bool) {
    forall x, y :: x in s && y in s && leq(x, y) && leq(y, x) ==> x == y
  }

  /** Without ties there is one way to sort, stable or not. */
  lemma {:induction false} SortedUnique<T(!new)>(a: seq<T>, b: seq<T>, leq: (T, T) -> bool)
    requires multiset(a) == multiset(b) && Sorted(a, leq) && Sorted(b, leq) && AntisymmetricOn(a, leq)
    ensures a == b
    decreases |a|
  {
    hide Sorted, AntisymmetricOn;
    assert |a| == |multiset(a)| == |multiset(b)| == |b|;
    if a != [] {
      var n := |a| - 1;
      LastsOccur(a, b);
      SameLast(a, b, leq);
      MultisetDropLast(a, b);
      FrontIsSorted(a, n, leq);
      FrontIsSorted(b, n, leq);
      SortedUnique(a[..n], b[..n], leq);
      assert a == a[..n] + [a[n]] && b == b[..n] + [b[n]];
    }
  }

  lemma LastsOccur<T>(a: seq<T>, b: seq<T>)
    requires a != [] && b != [] && multiset(a) == multiset(b)
    ensures a[|a| - 1] in b && b[|b| - 1] in a
  {
    assert a[|a| - 1] in multiset(b) && b[|b| - 1] in multiset(a);
  }

  lemma FrontIsSorted<T(!new)>(s: seq<T>, n: nat, leq: (T, T) -> bool)
    requires Sorted(s, leq) && n <= |s|
    ensures Sorted(s[..n], leq) && (AntisymmetricOn(s, leq) ==> AntisymmetricOn(s[..n], leq))
  {
    assert forall x :: x in s[..n] ==> x in s;
  }

  lemma SameLast<T(!new)>(a: seq<T>, b: seq<T>, leq: (T, T) -> bool)
    requires a != [] && b != [] && Sorted(a, leq) && Sorted(b, leq) && AntisymmetricOn(a, leq)
    requires a[|a| - 1] in b && b[|b| - 1] in a
    ensures a[|a| - 1] == b[|b| - 1]
  {
    var i :| 0 <= i < |b| && b[i] == a[|a| - 1];
    var j :| 0 <= j < |a| && a[j] == b[|b| - 1];
  }

  lemma MultisetDropLast<T>(a: seq<T>, b: seq<T>)
    requires a != [] && b != [] && multiset(a) == multiset(b) && a[|a| - 1] == b[|b| - 1]
    ensures multiset(a[..|a| - 1]) == multiset(b[..|b| - 1])
  {
    assert a == a[..|a| - 1] + [a[|a| - 1]] && b == b[..|b| - 1] + [b[|b| - 1]];
    assert multiset(a[..|a| - 1]) == multiset(a) - multiset{a[|a| - 1]};
    assert multiset(b[..|b| - 1]) == multiset(b) - multiset{b[|b| - 1]};
  }
}
