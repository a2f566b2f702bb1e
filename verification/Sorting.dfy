/** Stable sorting by a total preorder, and the code-point order on strings. */
module Sorting {
  import opened Common

  ghost predicate Preorder<T(!new)>(leq: (T, T) -> bool) {
    && (forall x, y :: leq(x, y) || leq(y, x))
    && (forall x, y, z :: leq(x, y) && leq(y, z) ==> leq(x, z))
  }

  ghost predicate Antisymmetric<T(!new)>(leq: (T, T) -> bool) {
    forall x, y :: leq(x, y) && leq(y, x) ==> x == y
  }

  ghost predicate Sorted<T>(leq: (T, T) -> bool, s: seq<T>) {
    forall i, j :: 0 <= i < j < |s| ==> leq(s[i], s[j])
  }

  function Insert<T>(leq: (T, T) -> bool, x: T, s: seq<T>): seq<T> {
    if s == [] then [x]
    else if leq(x, s[0]) then [x] + s
    else [s[0]] + Insert(leq, x, s[1..])
  }

  /** What a library's stable sort returns. */
  function Sort<T>(leq: (T, T) -> bool, s: seq<T>): seq<T> {
    if s == [] then [] else Insert(leq, s[0], Sort(leq, s[1..]))
  }

  lemma {:induction false} InsertKeeps<T>(leq: (T, T) -> bool, x: T, s: seq<T>)
    ensures multiset(Insert(leq, x, s)) == multiset{x} + multiset(s) && |Insert(leq, x, s)| == |s| + 1
  {
    if s != [] && !leq(x, s[0]) {
      InsertKeeps(leq, x, s[1..]);
      assert s == [s[0]] + s[1..];
    }
  }

  lemma {:induction false} SortKeeps<T>(leq: (T, T) -> bool, s: seq<T>)
    ensures multiset(Sort(leq, s)) == multiset(s) && |Sort(leq, s)| == |s|
    ensures forall x :: x in Sort(leq, s) <==> x in s
  {
    if s != [] {
      SortKeeps(leq, s[1..]);
      InsertKeeps(leq, s[0], Sort(leq, s[1..]));
      assert s == [s[0]] + s[1..];
    }
    SameMembers(Sort(leq, s), s);
  }

  lemma {:induction false} InsertSorts<T(!new)>(leq: (T, T) -> bool, x: T, s: seq<T>)
    requires Preorder(leq) && Sorted(leq, s)
    ensures Sorted(leq, Insert(leq, x, s))
  {
    if s != [] && !leq(x, s[0]) {
      InsertSorts(leq, x, s[1..]);
      InsertKeeps(leq, x, s[1..]);
      var r := Insert(leq, x, s[1..]);
      forall j | 0 <= j < |r| ensures leq(s[0], r[j]) {
        assert r[j] in multiset(r);
        assert r[j] == x || r[j] in s[1..];
      }
    }
  }

  lemma {:induction false} SortSorts<T(!new)>(leq: (T, T) -> bool, s: seq<T>)
    requires Preorder(leq)
    ensures Sorted(leq, Sort(leq, s))
  {
    if s != [] {
      SortSorts(leq, s[1..]);
      InsertSorts(leq, s[0], Sort(leq, s[1..]));
    }
  }

  /** Where the first of one arrangement is in another, and that the rest are the same. */
  lemma FirstFound<T>(s: seq<T>, t: seq<T>) returns (i: nat)
    requires s != [] && multiset(s) == multiset(t)
    ensures i < |t| && t[i] == s[0] && multiset(s[1..]) == multiset(t[..i] + t[i + 1..])
  {
    assert s[0] in multiset(t);
    i :| 0 <= i < |t| && t[i] == s[0];
    WithoutFirst(s);
    WithoutOne(t, i);
  }

  lemma FirstsAgree<T(!new)>(leq: (T, T) -> bool, s: seq<T>, t: seq<T>)
    requires Preorder(leq) && Sorted(leq, s) && Sorted(leq, t) && multiset(s) == multiset(t) && s != []
    requires forall x, y :: x in s && y in s && leq(x, y) && leq(y, x) ==> x == y
    ensures t != [] && s[0] == t[0]
  {
    var i := FirstFound(s, t);
    var j := FirstFound(t, s);
    assert leq(s[0], s[j]) && leq(t[0], t[i]);
  }

  /** Only one arrangement of a collection is sorted, unless two of its members tie. */
  lemma {:induction false} SortedIsUnique<T(!new)>(leq: (T, T) -> bool, s: seq<T>, t: seq<T>)
    requires Preorder(leq) && Sorted(leq, s) && Sorted(leq, t) && multiset(s) == multiset(t)
    requires forall x, y :: x in s && y in s && leq(x, y) && leq(y, x) ==> x == y
    ensures s == t
    decreases |s|
  {
    SameLength(s, t);
    if s != [] {
      FirstsAgree(leq, s, t);
      RestsAgree(s, t);
      TailIsSorted(leq, s);
      TailIsSorted(leq, t);
      hide Sorted, Preorder;
      SortedIsUnique(leq, s[1..], t[1..]);
    }
  }

  lemma SameLength<T>(s: seq<T>, t: seq<T>)
    requires multiset(s) == multiset(t)
    ensures |s| == |t|
  {
    assert |multiset(s)| == |s| && |multiset(t)| == |t|;
  }

  lemma RestsAgree<T>(s: seq<T>, t: seq<T>)
    requires multiset(s) == multiset(t) && s != [] && t != [] && s[0] == t[0]
    ensures multiset(s[1..]) == multiset(t[1..])
  {
    WithoutFirst(s);
    WithoutFirst(t);
  }

  lemma TailIsSorted<T>(leq: (T, T) -> bool, s: seq<T>)
    requires s != [] && Sorted(leq, s)
    ensures Sorted(leq, s[1..])
  {
  }

  lemma {:induction false} SortKeepsDistinct<T(!new)>(leq: (T, T) -> bool, s: seq<T>)
    requires Distinct(s)
    ensures Distinct(Sort(leq, s))
  {
    SortKeeps(leq, s);
    DistinctByCount(s);
    DistinctByCount(Sort(leq, s));
  }

  lemma WithoutOne<T>(s: seq<T>, i: nat)
    requires i < |s|
    ensures multiset(s[..i] + s[i + 1..]) == multiset(s) - multiset{s[i]}
  {
    assert s == s[..i] + [s[i]] + s[i + 1..];
  }

  lemma WithoutFirst<T>(s: seq<T>)
    requires s != []
    ensures multiset(s[1..]) == multiset(s) - multiset{s[0]}
  {
    assert s == [s[0]] + s[1..];
  }

  lemma DistinctWithoutOne<T>(s: seq<T>, i: nat)
    requires i < |s| && Distinct(s)
    ensures Distinct(s[..i] + s[i + 1..]) && s[i] !in s[..i] + s[i + 1..]
    ensures forall x :: x in s[..i] + s[i + 1..] ==> x in s
  {
    var r := s[..i] + s[i + 1..];
    assert forall k :: 0 <= k < |r| ==> r[k] == s[if k < i then k else k + 1];
  }

  lemma DistinctJoined<T>(a: seq<T>, b: seq<T>)
    requires Distinct(a) && Distinct(b) && forall x :: x in a ==> x !in b
    ensures Distinct(a + b)
  {
    var s := a + b;
    forall i, j | 0 <= i < j < |s| ensures s[i] != s[j] {
      if i < |a| <= j { assert s[i] in a && s[j] in b; }
    }
  }

  lemma SameMembers<T>(s: seq<T>, t: seq<T>)
    requires multiset(s) == multiset(t)
    ensures forall x :: x in s <==> x in t
  {
    forall x ensures x in s <==> x in t {
      assert x in s <==> x in multiset(s);
      assert x in t <==> x in multiset(t);
    }
  }

  lemma {:induction false} DistinctByCount<T>(s: seq<T>)
    ensures Distinct(s) <==> forall x :: x in multiset(s) ==> multiset(s)[x] == 1
    decreases |s|
  {
    if s != [] {
      var init, last := s[..|s| - 1], s[|s| - 1];
      assert s == init + [last];
      DistinctByCount(init);
      if Distinct(s) {
        assert Distinct(init) && last !in init;
      }
      if forall x :: x in multiset(s) ==> multiset(s)[x] == 1 {
        assert multiset(s)[last] == multiset(init)[last] + 1;
        assert last !in init;
        assert forall x :: x in multiset(init) ==> multiset(s)[x] >= multiset(init)[x];
      }
    }
  }

  /** Lists without repeats that have the same members are rearrangements of each other. */
  lemma SameMultiset<T>(s: seq<T>, t: seq<T>)
    requires Distinct(s) && Distinct(t) && forall x :: x in s <==> x in t
    ensures multiset(s) == multiset(t)
  {
    DistinctByCount(s);
    DistinctByCount(t);
    forall x ensures multiset(s)[x] == multiset(t)[x] {
      assert x in multiset(s) <==> x in s;
      assert x in multiset(t) <==> x in t;
    }
  }

  // ---- Strings -------------------------------------------------------------------------

  predicate AtMost(a: string, b: string)
    decreases |a|
  {
    a == [] || (b != [] && (a[0] < b[0] || (a[0] == b[0] && AtMost(a[1..], b[1..]))))
  }

  lemma {:induction false} AtMostTotal(a: string, b: string)
    ensures AtMost(a, b) || AtMost(b, a)
    ensures AtMost(a, b) && AtMost(b, a) ==> a == b
    decreases |a|
  {
    if a != [] && b != [] && a[0] == b[0] {
      AtMostTotal(a[1..], b[1..]);
      assert a == [a[0]] + a[1..] && b == [b[0]] + b[1..];
    }
  }

  lemma {:induction false} AtMostTransitive(a: string, b: string, c: string)
    requires AtMost(a, b) && AtMost(b, c)
    ensures AtMost(a, c)
    decreases |a|
  {
    if a != [] && a[0] == b[0] && b[0] == c[0] {
      AtMostTransitive(a[1..], b[1..], c[1..]);
    }
  }

  lemma HeadsAgree(a: string, b: string, k: nat)
    requires 0 < k <= |a| && k <= |b| && a[..k] == b[..k]
    ensures a[0] == b[0] && a[1..][..k - 1] == b[1..][..k - 1]
  {
    assert a[..k][0] == a[0] && b[..k][0] == b[0];
    assert a[1..][..k - 1] == a[..k][1..] && b[1..][..k - 1] == b[..k][1..];
  }

  /** The two differ at `k` and not before, `a` being less there. */
  ghost predicate LessAt(a: string, b: string, k: nat) {
    k < |a| && k < |b| && a[..k] == b[..k] && a[k] < b[k]
  }

  lemma LessAtNext(a: string, b: string, k: nat)
    requires a != [] && b != [] && a[0] == b[0]
    ensures LessAt(a, b, k + 1) <==> LessAt(a[1..], b[1..], k)
  {
    if k + 1 < |a| && k + 1 < |b| {
      assert a[..k + 1] == [a[0]] + a[1..][..k] && b[..k + 1] == [b[0]] + b[1..][..k];
      if a[..k + 1] == b[..k + 1] { HeadsAgree(a, b, k + 1); }
    }
  }

  /** The lexicographic order: a prefix comes first, and otherwise the first difference decides. */
  lemma {:induction false} AtMostIff(a: string, b: string)
    ensures AtMost(a, b) <==> a <= b || exists k :: LessAt(a, b, k)
    decreases |a|
  {
    forall k: nat | 0 < k && LessAt(a, b, k) ensures a[0] == b[0] { HeadsAgree(a, b, k); }
    if a != [] && b != [] && a[0] == b[0] {
      AtMostIff(a[1..], b[1..]);
      assert a == [a[0]] + a[1..] && b == [b[0]] + b[1..];
      if k :| LessAt(a[1..], b[1..], k) { LessAtNext(a, b, k); }
      assert !LessAt(a, b, 0);
      if k: nat :| LessAt(a, b, k) { LessAtNext(a, b, k - 1); }
    } else if a != [] && b != [] && a[0] < b[0] {
      assert LessAt(a, b, 0);
    }
  }

  /** The first difference, at `k`, decides. */
  lemma Precedes(a: string, b: string, k: nat)
    requires k < |a| && k < |b| && a[..k] == b[..k] && a[k] < b[k]
    ensures AtMost(a, b)
  {
    AtMostIff(a, b);
    assert LessAt(a, b, k);
  }

  lemma {:induction false} SortedByNeighbours<T(!new)>(leq: (T, T) -> bool, s: seq<T>)
    requires Preorder(leq) && forall i :: 0 <= i < |s| - 1 ==> leq(s[i], s[i + 1])
    ensures Sorted(leq, s)
  {
    if |s| > 1 {
      SortedByNeighbours(leq, s[1..]);
      forall j | 0 < j < |s| ensures leq(s[0], s[j]) {
        if j > 1 { assert leq(s[0], s[1]) && leq(s[1..][0], s[1..][j - 1]); }
      }
      forall i, j | 0 < i < j < |s| ensures leq(s[i], s[j]) {
        assert leq(s[1..][i - 1], s[1..][j - 1]);
      }
    }
  }

  /** A sorted arrangement is what sorting yields, if no two members tie. */
  lemma SortIs<T(!new)>(leq: (T, T) -> bool, s: seq<T>, t: seq<T>)
    requires Preorder(leq) && Sorted(leq, t) && multiset(s) == multiset(t)
    requires forall x, y :: x in s && y in s && leq(x, y) && leq(y, x) ==> x == y
    ensures Sort(leq, s) == t
  {
    SortSorts(leq, s);
    SortKeeps(leq, s);
    SortedIsUnique(leq, Sort(leq, s), t);
  }

  lemma StringsAreOrdered()
    ensures Preorder(AtMost) && Antisymmetric(AtMost)
  {
    forall x, y ensures AtMost(x, y) || AtMost(y, x) { AtMostTotal(x, y); }
    forall x, y | AtMost(x, y) && AtMost(y, x) ensures x == y { AtMostTotal(x, y); }
    forall x, y, z | AtMost(x, y) && AtMost(y, z) ensures AtMost(x, z) { AtMostTransitive(x, y, z); }
  }
}
