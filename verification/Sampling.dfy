/** Largest-remainder stratified sampling (benchmarks/scripts/run_semantic_quality.py:415-452).
    A sample is a list of positions in `units`; what the seeded generator draws is left open. */
module Sampling {
  import opened Common
  import opened Sorting

  datatype Unit = Unit(question: string, category: Option<string>)

  function CategoryOf(u: Unit): string {
    match u.category
    case Some(c) => c
    case None => "unknown"
  }

  // ---- Grouping ------------------------------------------------------------------------

  /** The positions of a category, in order. */
  function Members(units: seq<Unit>, c: string): seq<nat> {
    if units == [] then [] else
      var n := |units| - 1;
      Members(units[..n], c) + if CategoryOf(units[n]) == c then [n] else []
  }

  /** The categories, in order of first appearance. */
  function Firsts(units: seq<Unit>): seq<string> {
    if units == [] then [] else
      var n := |units| - 1;
      var before := Firsts(units[..n]);
      if CategoryOf(units[n]) in before then before else before + [CategoryOf(units[n])]
  }

  function Keys(units: seq<Unit>): seq<string> {
    Sort(AtMost, Firsts(units))
  }

  lemma {:induction false} MembersAre(units: seq<Unit>, c: string)
    ensures forall p :: p in Members(units, c) <==> 0 <= p < |units| && CategoryOf(units[p]) == c
    ensures Distinct(Members(units, c))
  {
    if units != [] {
      var n := |units| - 1;
      MembersAre(units[..n], c);
      var before := Members(units[..n], c);
      assert forall i :: 0 <= i < |before| ==> before[i] in before;
    }
  }

  /** A unit belongs to the category it names, or, if it names none, to "unknown". */
  lemma MembersName(units: seq<Unit>, c: string)
    ensures forall p :: p in Members(units, c) <==>
      0 <= p < |units| && (units[p].category == Some(c) || (units[p].category == None && c == "unknown"))
  {
    MembersAre(units, c);
    hide Members;
  }

  lemma {:induction false} FirstsAre(units: seq<Unit>)
    ensures Distinct(Firsts(units))
    ensures forall c :: c in Firsts(units) <==> Members(units, c) != []
  {
    if units != [] {
      FirstsAre(units[..|units| - 1]);
    }
  }

  lemma KeysAre(units: seq<Unit>)
    ensures Distinct(Keys(units)) && Sorted(AtMost, Keys(units))
    ensures forall c :: c in Keys(units) <==> Members(units, c) != []
  {
    FirstsAre(units);
    StringsAreOrdered();
    SortSorts(AtMost, Firsts(units));
    SortKeeps(AtMost, Firsts(units));
    SortKeepsDistinct(AtMost, Firsts(units));
  }

  ghost predicate IsGrouping(units: seq<Unit>, groups: map<string, seq<nat>>, order: seq<string>) {
    && order == Firsts(units)
    && (forall c :: c in groups <==> c in order)
    && (forall c :: c in groups ==> groups[c] == Members(units, c))
  }

  lemma GroupGrows(units: seq<Unit>, i: nat, groups: map<string, seq<nat>>, order: seq<string>)
    requires i < |units| && IsGrouping(units[..i], groups, order)
    ensures var c := CategoryOf(units[i]);
      IsGrouping(units[..i + 1], groups[c := (if c in groups then groups[c] else []) + [i]],
        if c in groups then order else order + [c])
  {
    assert units[..i + 1][..i] == units[..i];
    FirstsAre(units[..i]);
  }

  /** The dictionary of groups, with its insertion order. */
  method Group(units: seq<Unit>) returns (groups: map<string, seq<nat>>, order: seq<string>)
    ensures IsGrouping(units, groups, order)
  {
    groups, order := map[], [];
    for i := 0 to |units|
      invariant IsGrouping(units[..i], groups, order)
    {
      GroupGrows(units, i, groups, order);
      var c := CategoryOf(units[i]);
      if c in groups {
        groups := groups[c := groups[c] + [i]];
      } else {
        groups, order := groups[c := [i]], order + [c];
      }
    }
    assert units[..|units|] == units;
  }

  // ---- Sums over categories ------------------------------------------------------------

  function Sum(f: string -> int, keys: seq<string>): int {
    if keys == [] then 0 else f(keys[0]) + Sum(f, keys[1..])
  }

  lemma {:induction false} SumOfEqual(f: string -> int, g: string -> int, keys: seq<string>)
    requires forall k :: k in keys ==> f(k) == g(k)
    ensures Sum(f, keys) == Sum(g, keys)
  {
    if keys != [] { SumOfEqual(f, g, keys[1..]); }
  }

  /** Raising one category by one raises the sum by one. */
  lemma {:induction false} SumWithOneMore(f: string -> int, g: string -> int, keys: seq<string>, k: string)
    requires Distinct(keys) && k in keys
    requires forall l :: l in keys ==> g(l) == f(l) + (if l == k then 1 else 0)
    ensures Sum(g, keys) == Sum(f, keys) + 1
  {
    if keys[0] == k {
      SumOfEqual(f, g, keys[1..]);
    } else {
      SumWithOneMore(f, g, keys[1..], k);
    }
  }

  /** Pointwise below, with an equal sum, is equal. */
  lemma {:induction false} SumOfBelow(f: string -> int, g: string -> int, keys: seq<string>)
    requires forall k :: k in keys ==> f(k) <= g(k)
    ensures Sum(f, keys) <= Sum(g, keys)
    ensures Sum(f, keys) == Sum(g, keys) ==> forall k :: k in keys ==> f(k) == g(k)
  {
    if keys != [] { SumOfBelow(f, g, keys[1..]); }
  }

  lemma {:induction false} SumOfMiddle(f: string -> int, keys: seq<string>, i: nat)
    requires i < |keys|
    ensures Sum(f, keys) == f(keys[i]) + Sum(f, keys[..i] + keys[i + 1..])
  {
    if i == 0 {
      assert keys[..0] + keys[1..] == keys[1..];
    } else {
      SumOfMiddle(f, keys[1..], i - 1);
      var rest := keys[..i] + keys[i + 1..];
      assert rest[0] == keys[0] && rest[1..] == keys[1..][..i - 1] + keys[1..][i..];
    }
  }

  /** A sum does not depend on the order. */
  lemma {:induction false} SumIsOrderless(f: string -> int, keys: seq<string>, other: seq<string>)
    requires multiset(keys) == multiset(other)
    ensures Sum(f, keys) == Sum(f, other)
    decreases |keys|
  {
    SameLength(keys, other);
    if keys != [] {
      var i := FirstFound(keys, other);
      SumOfMiddle(f, other, i);
      SumIsOrderless(f, keys[1..], other[..i] + other[i + 1..]);
    }
  }

  /** Every unit is in exactly one group. */
  lemma {:induction false} GroupsPartition(units: seq<Unit>, keys: seq<string>)
    requires Distinct(keys) && forall i :: 0 <= i < |units| ==> CategoryOf(units[i]) in keys
    ensures Sum(c => |Members(units, c)|, keys) == |units|
  {
    var size: string -> int := c => |Members(units, c)|;
    if units == [] {
      var zero: string -> int := c => 0;
      SumOfEqual(size, zero, keys);
      SumOfZero(keys);
    } else {
      var n := |units| - 1;
      var before: string -> int := c => |Members(units[..n], c)|;
      GroupsPartition(units[..n], keys);
      SumWithOneMore(before, size, keys, CategoryOf(units[n]));
    }
  }

  lemma {:induction false} SumOfZero(keys: seq<string>)
    ensures Sum(c => 0, keys) == 0
  {
    if keys != [] { SumOfZero(keys[1..]); }
  }

  // ---- The allocation ------------------------------------------------------------------

  function Size(units: seq<Unit>, c: string): nat {
    |Members(units, c)|
  }

  function Quota(n: nat, size: nat, total: nat): nat
    requires total > 0
  {
    n * size / total
  }

  function Floor(units: seq<Unit>, n: nat, c: string): nat
    requires units != []
  {
    Quota(n, Size(units, c), |units|)
  }

  function Remainder(units: seq<Unit>, n: nat, c: string): nat
    requires units != []
  {
    n * Size(units, c) % |units|
  }

  /** Ranked by descending remainder, ties by descending name. */
  predicate NoLater(units: seq<Unit>, n: nat, c: string, d: string)
    requires units != []
  {
    || Remainder(units, n, c) > Remainder(units, n, d)
    || (Remainder(units, n, c) == Remainder(units, n, d) && AtMost(d, c))
  }

  /** The apportionment by largest remainder: quotas rounded down or up, summing to `n`, and
      rounded up for the categories ranked first. */
  ghost predicate LargestRemainder(units: seq<Unit>, n: nat, alloc: string -> int)
    requires units != []
  {
    && Sum(alloc, Keys(units)) == n
    && (forall c :: c in Keys(units) ==>
          || alloc(c) == Floor(units, n, c)
          || (alloc(c) == Floor(units, n, c) + 1 && Remainder(units, n, c) > 0))
    && (forall c, d ::
          c in Keys(units) && d in Keys(units) && alloc(c) != Floor(units, n, c) && alloc(d) == Floor(units, n, d) ==>
            !NoLater(units, n, d, c))
  }

  /** That determines it. */
  lemma ApportionmentIsUnique(units: seq<Unit>, n: nat, alloc: string -> int, other: string -> int)
    requires units != [] && LargestRemainder(units, n, alloc) && LargestRemainder(units, n, other)
    ensures forall c :: c in Keys(units) ==> alloc(c) == other(c)
  {
    hide Keys, Floor, Remainder, NoLater;
    var keys := Keys(units);
    if c :| c in keys && alloc(c) < other(c) {
      if d :| d in keys && other(d) < alloc(d) {
        RankingDecides(units, n, c, d);
        assert false;
      } else {
        SumOfBelow(alloc, other, keys);
      }
    } else {
      SumOfBelow(other, alloc, keys);
    }
  }

  lemma RankingDecides(units: seq<Unit>, n: nat, c: string, d: string)
    requires units != []
    ensures NoLater(units, n, c, d) || NoLater(units, n, d, c)
  {
    AtMostTotal(c, d);
  }

  lemma RankingIsTotal(units: seq<Unit>, n: nat)
    requires units != []
    ensures var leq := (c, d) => NoLater(units, n, c, d); Preorder(leq) && Antisymmetric(leq)
  {
    StringsAreOrdered();
  }

  /** Each category gets its proportional share to within one unit, and has that many members. */
  lemma SharesAreProportional(units: seq<Unit>, n: nat, alloc: string -> int, c: string)
    requires units != [] && n < |units| && LargestRemainder(units, n, alloc) && c in Keys(units)
    ensures -|units| < alloc(c) * |units| - n * Size(units, c) < |units|
    ensures 0 <= alloc(c) <= Size(units, c)
  {
    var q, r, a, g, t := Floor(units, n, c), Remainder(units, n, c), alloc(c), Size(units, c), |units|;
    assert a == q || (a == q + 1 && r > 0);
    assert g > 0 by { KeysAre(units); }
    FloorIsBelowSize(units, n, c);
    Divided(units, n, c);
    hide *;
    Near(a, q, r, t, n * g);
  }

  /** A category rounded up has at least the remainder of one rounded down, and of equal ones the greater
      name. */
  lemma RoundedUpFirst(units: seq<Unit>, n: nat, alloc: string -> int, c: string, d: string)
    requires units != [] && LargestRemainder(units, n, alloc) && c in Keys(units) && d in Keys(units)
    requires alloc(c) * |units| > n * |Members(units, c)| && alloc(d) * |units| <= n * |Members(units, d)|
    ensures var t, x, y := |units|, n * |Members(units, c)| % |units|, n * |Members(units, d)| % |units|;
      x > y || (x == y && AtMost(d, c) && c != d)
  {
    UpIsRaised(units, n, alloc, c);
    UpIsRaised(units, n, alloc, d);
    RaisedFirst(units, n, alloc, c, d);
    RemainderIs(units, n, c);
    RemainderIs(units, n, d);
    hide *;
  }

  lemma UpIsRaised(units: seq<Unit>, n: nat, alloc: string -> int, c: string)
    requires units != [] && LargestRemainder(units, n, alloc) && c in Keys(units)
    ensures alloc(c) * |units| > n * |Members(units, c)| <==> alloc(c) != Floor(units, n, c)
  {
    var a, q, r, t, x := alloc(c), Floor(units, n, c), Remainder(units, n, c), |units|, n * |Members(units, c)|;
    assert a == q || (a == q + 1 && r > 0);
    Divided(units, n, c);
    assert x == n * Size(units, c);
    hide *;
    IsUp(a, q, r, t, x);
  }

  lemma RaisedFirst(units: seq<Unit>, n: nat, alloc: string -> int, c: string, d: string)
    requires units != [] && LargestRemainder(units, n, alloc) && c in Keys(units) && d in Keys(units)
    requires alloc(c) != Floor(units, n, c) && alloc(d) == Floor(units, n, d)
    ensures || Remainder(units, n, c) > Remainder(units, n, d)
            || (Remainder(units, n, c) == Remainder(units, n, d) && AtMost(d, c) && c != d)
  {
    hide Floor, Remainder, Keys, Sum;
    AtMostTotal(c, d);
  }

  lemma RemainderIs(units: seq<Unit>, n: nat, c: string)
    requires units != []
    ensures Remainder(units, n, c) == n * |Members(units, c)| % |units|
  {
  }

  lemma IsUp(a: int, q: int, r: int, t: int, x: int)
    requires x == t * q + r && 0 <= r < t && (a == q || (a == q + 1 && r > 0))
    ensures a * t > x <==> a != q
  {
    assert (q + 1) * t == q * t + t;
  }

  lemma Near(a: int, q: int, r: int, t: int, x: int)
    requires x == t * q + r && 0 <= r < t && (a == q || (a == q + 1 && r > 0))
    ensures -t < a * t - x < t
  {
    assert (q + 1) * t == q * t + t;
  }

  lemma Divided(units: seq<Unit>, n: nat, c: string)
    requires units != []
    ensures n * Size(units, c) == |units| * Floor(units, n, c) + Remainder(units, n, c)
    ensures 0 <= Remainder(units, n, c) < |units|
  {
    DividedOut(n * Size(units, c), |units|);
  }

  lemma DividedOut(a: nat, b: nat)
    requires b > 0
    ensures a == a / b * b + a % b && (a / b + 1) * b == a / b * b + b && 0 <= a % b < b
  {
  }

  lemma FloorIsBelowSize(units: seq<Unit>, n: nat, c: string)
    requires n < |units| && Size(units, c) > 0
    ensures Floor(units, n, c) < Size(units, c)
  {
    QuotaIsBelow(n, Size(units, c), |units|);
  }

  lemma QuotaIsBelow(n: nat, g: nat, t: nat)
    requires n < t && g > 0
    ensures Quota(n, g, t) < g
  {
    var q := Quota(n, g, t);
    DividedOut(n * g, t);
    assert q * t <= n * g < t * g;
    assert q >= g ==> q * t >= g * t;
  }

  /** What rounding down leaves over is the sum of the remainders, in whole units. */
  lemma {:induction false} LeftOver(units: seq<Unit>, n: nat, keys: seq<string>)
    requires units != []
    ensures n * Sum(c => Size(units, c), keys)
         == |units| * Sum(c => Floor(units, n, c), keys) + Sum(c => Remainder(units, n, c), keys)
  {
    var size, floor, rem: string -> int := c => Size(units, c), c => Floor(units, n, c), c => Remainder(units, n, c);
    if keys != [] {
      hide Size, Floor, Remainder;
      var k, rest := keys[0], keys[1..];
      LeftOver(units, n, rest);
      Divided(units, n, k);
      Added(n, |units|, size(k), floor(k), rem(k), Sum(size, rest), Sum(floor, rest), Sum(rem, rest));
    }
  }

  lemma Added(n: int, u: int, a: int, q: int, r: int, b: int, s: int, t: int)
    requires n * a == u * q + r && n * b == u * s + t
    ensures n * (a + b) == u * (q + s) + (r + t)
  {
  }

  /** In descending order, a sum of `m` whole units of remainders needs more than `m` terms that
      are not zero. */
  lemma {:induction false} RemaindersReach(units: seq<Unit>, n: nat, ranked: seq<string>, m: int)
    requires units != []
    requires forall i, j :: 0 <= i < j < |ranked| ==> Remainder(units, n, ranked[i]) >= Remainder(units, n, ranked[j])
    requires Sum(c => Remainder(units, n, c), ranked) >= |units| * m
    ensures m <= 0 || (m < |ranked| && forall i :: 0 <= i <= m ==> Remainder(units, n, ranked[i]) > 0)
    decreases |ranked|
  {
    var rem: string -> int := c => Remainder(units, n, c);
    if ranked == [] {
      assert m > 0 ==> |units| * m > 0;
    } else {
      assert |units| * (m - 1) == |units| * m - |units|;
      RemaindersReach(units, n, ranked[1..], m - 1);
      if m == 1 {
        if |ranked| > 1 && Remainder(units, n, ranked[1]) == 0 {
          AllZero(units, n, ranked[1..]);
        }
      } else if m > 1 {
        forall i | 0 <= i <= m ensures Remainder(units, n, ranked[i]) > 0 {
          if i > 0 { assert ranked[i] == ranked[1..][i - 1]; }
        }
      }
    }
  }

  lemma {:induction false} AllZero(units: seq<Unit>, n: nat, ranked: seq<string>)
    requires units != [] && forall c :: c in ranked ==> Remainder(units, n, c) == 0
    ensures Sum(c => Remainder(units, n, c), ranked) == 0
  {
    if ranked != [] { AllZero(units, n, ranked[1..]); }
  }

  // ---- The allocation loop -------------------------------------------------------------

  function At(alloc: map<string, int>): string -> int {
    c => if c in alloc then alloc[c] else 0
  }

  function Ranking(units: seq<Unit>, n: nat, keys: seq<string>): seq<string>
    requires units != []
  {
    Sort((c, d) => NoLater(units, n, c, d), keys)
  }

  function Ranked(units: seq<Unit>, n: nat): seq<string>
    requires units != []
  {
    Ranking(units, n, Keys(units))
  }

  lemma RankedAre(units: seq<Unit>, n: nat)
    requires units != []
    ensures multiset(Ranked(units, n)) == multiset(Keys(units)) && |Ranked(units, n)| == |Keys(units)|
    ensures Distinct(Ranked(units, n)) && forall c :: c in Ranked(units, n) <==> c in Keys(units)
    ensures forall i, j :: 0 <= i < j < |Ranked(units, n)| ==>
      NoLater(units, n, Ranked(units, n)[i], Ranked(units, n)[j]) &&
        !NoLater(units, n, Ranked(units, n)[j], Ranked(units, n)[i])
  {
    var leq := (c, d) => NoLater(units, n, c, d);
    var ranked := Ranked(units, n);
    KeysAre(units);
    RankingIsTotal(units, n);
    SortSorts(leq, Keys(units));
    SortKeeps(leq, Keys(units));
    SortKeepsDistinct(leq, Keys(units));
    forall i, j | 0 <= i < j < |ranked|
      ensures NoLater(units, n, ranked[i], ranked[j]) && !NoLater(units, n, ranked[j], ranked[i])
    {
      var c, d := ranked[i], ranked[j];
      assert leq(c, d);
      assert leq(d, c) ==> c == d;
    }
  }

  lemma RankedByRemainder(units: seq<Unit>, n: nat)
    requires units != []
    ensures forall i, j :: 0 <= i < j < |Ranked(units, n)| ==>
      Remainder(units, n, Ranked(units, n)[i]) >= Remainder(units, n, Ranked(units, n)[j])
  {
    RankedAre(units, n);
  }

  /** Units still to hand out once every quota is rounded down. */
  function Owed(units: seq<Unit>, n: nat): int
    requires units != []
  {
    n - Sum(c => Floor(units, n, c), Keys(units))
  }

  lemma SizesAdd(units: seq<Unit>)
    ensures Sum(c => Size(units, c), Keys(units)) == |units|
    ensures units != [] ==> Keys(units) != []
  {
    KeysAre(units);
    forall i | 0 <= i < |units| ensures CategoryOf(units[i]) in Keys(units) {
      MembersAre(units, CategoryOf(units[i]));
      assert i in Members(units, CategoryOf(units[i]));
    }
    assert units != [] ==> CategoryOf(units[0]) in Keys(units);
    GroupsPartition(units, Keys(units));
    SumOfEqual(c => |Members(units, c)|, c => Size(units, c), Keys(units));
  }

  lemma OwedInRemainders(units: seq<Unit>, n: nat)
    requires units != []
    ensures Sum(c => Remainder(units, n, c), Keys(units)) == |units| * Owed(units, n) && Owed(units, n) >= 0
  {
    var keys := Keys(units);
    SizesAdd(units);
    LeftOver(units, n, keys);
    RemaindersAdd(units, n, keys);
    hide Keys, Floor, Remainder, Size, Sum;
    Factored(n, |units|, Sum(c => Floor(units, n, c), keys), Sum(c => Remainder(units, n, c), keys));
  }

  lemma RemaindersReordered(units: seq<Unit>, n: nat)
    requires units != []
    ensures Sum(c => Remainder(units, n, c), Keys(units)) == Sum(c => Remainder(units, n, c), Ranked(units, n))
  {
    assert multiset(Ranked(units, n)) == multiset(Keys(units)) by { RankedAre(units, n); }
    hide Keys, Ranked, Remainder;
    SumIsOrderless(c => Remainder(units, n, c), Keys(units), Ranked(units, n));
  }

  /** Fewer than there are categories, and all due to categories whose quota was not whole. */
  lemma OwedToTheFirst(units: seq<Unit>, n: nat)
    requires units != []
    ensures 0 <= Owed(units, n) < |Ranked(units, n)|
    ensures forall i :: 0 <= i < Owed(units, n) ==> Remainder(units, n, Ranked(units, n)[i]) > 0
  {
    assert Ranked(units, n) != [] by {
      SizesAdd(units);
      RankedAre(units, n);
    }
    hide Keys, Remainder, Sum, Ranked, Owed;
    RankedByRemainder(units, n);
    OwedInRemainders(units, n);
    RemaindersReordered(units, n);
    RemaindersReach(units, n, Ranked(units, n), Owed(units, n));
  }

  lemma {:induction false} RemaindersAdd(units: seq<Unit>, n: nat, keys: seq<string>)
    requires units != []
    ensures Sum(c => Remainder(units, n, c), keys) >= 0
  {
    if keys != [] { RemaindersAdd(units, n, keys[1..]); }
  }

  lemma Factored(n: int, u: int, q: int, r: int)
    requires u > 0 && r >= 0 && n * u == u * q + r
    ensures r == u * (n - q) && n - q >= 0
  {
    assert u * (n - q) == n * u - u * q;
  }

  /** Quotas rounded down, with the first `i` in the ranking raised by one. */
  ghost predicate Raised(ranked: seq<string>, floor: string -> int, i: int, alloc: map<string, int>) {
    && (forall c :: c in alloc <==> c in ranked)
    && (forall j :: 0 <= j < |ranked| ==> alloc[ranked[j]] == floor(ranked[j]) + if j < i then 1 else 0)
  }

  lemma RaisedOnce(ranked: seq<string>, floor: string -> int, i: nat, alloc: map<string, int>, keys: seq<string>)
    requires i < |ranked| && Raised(ranked, floor, i, alloc)
    requires Distinct(ranked) && Distinct(keys) && forall c :: c in keys <==> c in ranked
    ensures var k := ranked[i]; var alloc' := alloc[k := alloc[k] + 1];
      Raised(ranked, floor, i + 1, alloc') && Sum(At(alloc'), keys) == Sum(At(alloc), keys) + 1
  {
    var k := ranked[i];
    SumWithOneMore(At(alloc), At(alloc[k := alloc[k] + 1]), keys, k);
  }

  function Floors(units: seq<Unit>, n: nat): string -> int
    requires units != []
  {
    c => Floor(units, n, c)
  }

  lemma RaisedToLargestRemainder(units: seq<Unit>, n: nat, alloc: map<string, int>)
    requires units != [] && Raised(Ranked(units, n), Floors(units, n), Owed(units, n), alloc)
    requires Sum(At(alloc), Keys(units)) == n
    ensures LargestRemainder(units, n, At(alloc))
  {
    hide Floor, Sum, Keys, Ranked, NoLater, Remainder, Owed;
    var ranked := Ranked(units, n);
    RankedAre(units, n);
    OwedToTheFirst(units, n);
    forall c, d | c in ranked && d in ranked && At(alloc)(c) != Floor(units, n, c) && At(alloc)(d) == Floor(units, n, d)
      ensures !NoLater(units, n, d, c)
    {
      var i :| 0 <= i < |ranked| && ranked[i] == c;
      var j :| 0 <= j < |ranked| && ranked[j] == d;
    }
  }

  /** The loop stops before it has gone once round the categories, so a saturated category is
      never met and the escape for that case is never taken. */
  method RaiseInTurn(ranked: seq<string>, keys: seq<string>, groups: map<string, seq<nat>>, rounded: map<string, int>,
                     n: nat, ghost floor: string -> int)
    returns (alloc: map<string, int>, rounds: nat)
    requires Distinct(ranked) && Distinct(keys) && (forall c :: c in keys <==> c in ranked) && |keys| == |ranked|
    requires Raised(ranked, floor, 0, rounded) && 0 <= n - Sum(At(rounded), keys) < |ranked|
    requires forall c :: c in ranked ==> c in groups && floor(c) < |groups[c]|
    ensures rounds == n - Sum(At(rounded), keys)
    ensures Raised(ranked, floor, rounds, alloc) && Sum(At(alloc), keys) == n
  {
    alloc, rounds := rounded, 0;
    ghost var owed := n - Sum(At(rounded), keys);
    while Sum(At(alloc), keys) < n
      invariant rounds <= owed && Raised(ranked, floor, rounds, alloc)
      invariant Sum(At(alloc), keys) == n - owed + rounds
      decreases owed - rounds
    {
      hide Sum, At;
      SmallRemainder(rounds, |ranked|);
      var k := ranked[rounds % |ranked|];
      RaisedOnce(ranked, floor, rounds, alloc, keys);
      if alloc[k] < |groups[k]| {
        alloc := alloc[k := alloc[k] + 1];
      }
      rounds := rounds + 1;
      if rounds > 10 * |keys| {
        assert false;
        break;
      }
    }
  }

  lemma SmallRemainder(a: nat, b: nat)
    requires a < b
    ensures a % b == a
  {
  }

  lemma GroupsAreKeys(units: seq<Unit>, n: nat, groups: map<string, seq<nat>>)
    requires n < |units| && IsGrouping(units, groups, Firsts(units))
    ensures forall c :: c in groups <==> c in Keys(units)
    ensures forall c :: c in groups <==> c in Ranked(units, n)
    ensures forall c :: c in groups ==> |groups[c]| == Size(units, c) > 0
  {
    KeysAre(units);
    FirstsAre(units);
    RankedAre(units, n);
  }

  /** `rounded` holds each quota rounded down. */
  ghost predicate IsRoundedDown(n: nat, total: nat, groups: map<string, seq<nat>>, rounded: map<string, int>)
    requires total > 0
  {
    && (forall c :: c in rounded <==> c in groups)
    && (forall c :: c in groups ==> rounded[c] == Quota(n, |groups[c]|, total))
  }

  lemma RoundedValue(units: seq<Unit>, n: nat, groups: map<string, seq<nat>>, rounded: map<string, int>, c: string)
    requires n < |units| && IsGrouping(units, groups, Firsts(units)) && IsRoundedDown(n, |units|, groups, rounded) &&
        c in groups
    ensures rounded[c] == Floor(units, n, c) < |groups[c]|
  {
    GroupsAreKeys(units, n, groups);
    FloorIsBelowSize(units, n, c);
    hide Quota, Firsts, Members, Keys, Ranked;
  }

  lemma RoundedDown(units: seq<Unit>, n: nat, groups: map<string, seq<nat>>, rounded: map<string, int>)
    requires n < |units| && IsGrouping(units, groups, Firsts(units)) && IsRoundedDown(n, |units|, groups, rounded)
    ensures var ranked := Ranked(units, n);
      && Raised(ranked, Floors(units, n), 0, rounded) && n - Sum(At(rounded), Keys(units)) == Owed(units, n)
      && forall c :: c in ranked ==> c in groups && Floors(units, n)(c) < |groups[c]|
  {
    hide Keys, Ranked, NoLater, Quota, Firsts, Floor, Members, IsGrouping, Sum;
    GroupsAreKeys(units, n, groups);
    forall c | c in groups ensures c in rounded && rounded[c] == Floor(units, n, c) < |groups[c]| {
      RoundedValue(units, n, groups, rounded, c);
    }
    SumOfEqual(At(rounded), c => Floor(units, n, c), Keys(units));
  }

  method Allocate(units: seq<Unit>, n: nat, groups: map<string, seq<nat>>, order: seq<string>)
    returns (alloc: map<string, int>, rounds: nat)
    requires n < |units| && IsGrouping(units, groups, order)
    ensures (forall c :: c in alloc <==> c in Keys(units)) && LargestRemainder(units, n, At(alloc))
    ensures rounds < |order|
  {
    hide Ranking, Owed, Sort, Floor, Sum, Quota, NoLater, At, Members, Firsts;
    var keys := Sort(AtMost, order);
    var ranked := Ranking(units, n, keys);
    var rounded := map c | c in groups :: Quota(n, |groups[c]|, |units|);
    assert keys == Keys(units) && ranked == Ranked(units, n);
    assert |keys| == |order| by { SortKeeps(AtMost, order); }
    hide Keys, Ranked;
    AllocationIsReady(units, n, groups, rounded);
    hide IsGrouping;
    alloc, rounds := RaiseInTurn(ranked, keys, groups, rounded, n, Floors(units, n));
    RaisedToLargestRemainder(units, n, alloc);
  }

  lemma AllocationIsReady(units: seq<Unit>, n: nat, groups: map<string, seq<nat>>, rounded: map<string, int>)
    requires n < |units| && IsGrouping(units, groups, Firsts(units))
    requires IsRoundedDown(n, |units|, groups, rounded)
    ensures var ranked, keys := Ranked(units, n), Keys(units);
      && Distinct(ranked) && Distinct(keys) && (forall c :: c in keys <==> c in ranked) && |keys| == |ranked|
      && Raised(ranked, Floors(units, n), 0, rounded) && 0 <= n - Sum(At(rounded), keys) < |ranked|
      && n - Sum(At(rounded), keys) == Owed(units, n)
      && forall c :: c in ranked ==> c in groups && Floors(units, n)(c) < |groups[c]|
  {
    RankedAre(units, n);
    KeysAre(units);
    hide Keys, Ranked, NoLater, Quota, Firsts, Members, IsGrouping, Owed, Floors, Sum, Raised;
    RoundedDown(units, n, groups, rounded);
    OwedToTheFirst(units, n);
  }

  // ---- Drawing -------------------------------------------------------------------------

  /** Any `k` members of the pool, in any order. */
  method Draw(pool: seq<nat>, k: nat) returns (drawn: seq<nat>)
    requires k <= |pool| && Distinct(pool)
    ensures |drawn| == k && Distinct(drawn) && forall p :: p in drawn ==> p in pool
  {
    drawn := [];
    var rest := pool;
    while |drawn| < k
      invariant |drawn| <= k && |drawn| + |rest| == |pool|
      invariant Distinct(drawn) && Distinct(rest)
      invariant forall p :: p in drawn ==> p in pool && p !in rest
      invariant forall p :: p in rest ==> p in pool
    {
      var j :| 0 <= j < |rest|;
      DistinctWithoutOne(rest, j);
      assert rest[j] in rest && rest[j] !in drawn;
      drawn := drawn + [rest[j]];
      rest := rest[..j] + rest[j + 1..];
    }
  }

  /** How many positions in `sample` are of a category. */
  function CountIn(units: seq<Unit>, sample: seq<nat>, c: string): nat {
    if sample == [] then 0 else
      var p := sample[|sample| - 1];
      CountIn(units, sample[..|sample| - 1], c) + if p < |units| && CategoryOf(units[p]) == c then 1 else 0
  }

  lemma {:induction false} CountAppended(units: seq<Unit>, a: seq<nat>, b: seq<nat>, c: string, d: string)
    requires forall p :: p in b ==> p < |units| && CategoryOf(units[p]) == d
    ensures CountIn(units, a + b, c) == CountIn(units, a, c) + if c == d then |b| else 0
    decreases |b|
  {
    if b == [] {
      assert a + b == a;
    } else {
      var n := |b| - 1;
      forall p | p in b[..n] ensures p in b {
        var i :| 0 <= i < n && b[i] == p;
      }
      CountAppended(units, a, b[..n], c, d);
      assert (a + b)[..|a + b| - 1] == a + b[..n] && (a + b)[|a + b| - 1] == b[n];
      assert b[n] in b;
    }
  }

  ghost predicate PositionsIn(units: seq<Unit>, sample: seq<nat>) {
    Distinct(sample) && forall p :: p in sample ==> p < |units|
  }

  /** The sample so far: the allocated number from each of the first `j` categories. */
  ghost predicate Drawn(units: seq<Unit>, alloc: map<string, int>, keys: seq<string>, j: nat, sample: seq<nat>)
    requires j <= |keys| && forall c :: c in keys ==> c in alloc
  {
    && PositionsIn(units, sample) && |sample| == Sum(At(alloc), keys[..j])
    && (forall i :: 0 <= i < |keys| ==> CountIn(units, sample, keys[i]) == if i < j then alloc[keys[i]] else 0)
  }

  lemma {:induction false} NoneCounted(units: seq<Unit>, sample: seq<nat>, c: string)
    requires PositionsIn(units, sample) && CountIn(units, sample, c) == 0
    ensures forall p :: p in sample ==> CategoryOf(units[p]) != c
  {
    if sample != [] {
      var before := sample[..|sample| - 1];
      assert forall p :: p in before ==> p in sample;
      NoneCounted(units, before, c);
      assert sample == before + [sample[|sample| - 1]];
    }
  }

  lemma {:induction false} SumAppended(f: string -> int, keys: seq<string>, k: string)
    ensures Sum(f, keys + [k]) == Sum(f, keys) + f(k)
  {
    if keys == [] {
      assert keys + [k] == [k];
      assert Sum(f, [k]) == f(k) + Sum(f, [k][1..]);
    } else {
      SumAppended(f, keys[1..], k);
      assert (keys + [k])[1..] == keys[1..] + [k];
    }
  }

  lemma DrawnMore(units: seq<Unit>, alloc: map<string, int>, keys: seq<string>, j: nat, sample: seq<nat>,
                  more: seq<nat>)
    requires Distinct(keys) && j < |keys| && (forall c :: c in keys ==> c in alloc) &&
        Drawn(units, alloc, keys, j, sample)
    requires |more| == alloc[keys[j]] && Distinct(more) && forall p :: p in more ==> p in Members(units, keys[j])
    ensures Drawn(units, alloc, keys, j + 1, sample + more)
  {
    var k := keys[j];
    MembersAre(units, k);
    NoneCounted(units, sample, k);
    SumAppended(At(alloc), keys[..j], k);
    assert keys[..j + 1] == keys[..j] + [k];
    forall i | 0 <= i < |keys|
      ensures CountIn(units, sample + more, keys[i]) == if i < j + 1 then alloc[keys[i]] else 0
    {
      CountAppended(units, sample, more, keys[i], k);
    }
    hide Sum, CountIn, Members;
    DistinctJoined(sample, more);
  }

  /** The sample so far goes through the first `j` categories in their order. */
  ghost predicate GoesThrough(units: seq<Unit>, keys: seq<string>, j: nat, sample: seq<nat>)
    requires j <= |keys|
  {
    && (forall p :: p in sample ==> p < |units| && CategoryOf(units[p]) in keys[..j])
    && ByCategory(units, sample)
  }

  function CategoryAt(units: seq<Unit>, p: nat): string {
    if p < |units| then CategoryOf(units[p]) else ""
  }

  ghost predicate ByCategory(units: seq<Unit>, sample: seq<nat>) {
    forall i, k :: 0 <= i < k < |sample| ==> AtMost(CategoryAt(units, sample[i]), CategoryAt(units, sample[k]))
  }

  lemma GoesOn(units: seq<Unit>, keys: seq<string>, j: nat, sample: seq<nat>, more: seq<nat>)
    requires j < |keys| && Sorted(AtMost, keys) && GoesThrough(units, keys, j, sample)
    requires forall p :: p in more ==> p < |units| && CategoryOf(units[p]) == keys[j]
    ensures GoesThrough(units, keys, j + 1, sample + more)
  {
    var all := sample + more;
    assert keys[..j + 1] == keys[..j] + [keys[j]];
    AtMostTotal(keys[j], keys[j]);
    hide AtMost;
    forall p | p in all ensures p < |units| && CategoryOf(units[p]) in keys[..j + 1] {
      assert p in sample || p in more;
    }
    forall i, k | 0 <= i < k < |all| ensures AtMost(CategoryAt(units, all[i]), CategoryAt(units, all[k])) {
      if k < |sample| {
        assert all[i] == sample[i] && all[k] == sample[k];
      } else {
        assert all[k] in more;
        if i < |sample| {
          assert all[i] in sample;
          var m :| 0 <= m < j && keys[m] == CategoryAt(units, all[i]);
        } else {
          assert all[i] in more;
        }
      }
    }
  }

  lemma AllPositions(units: seq<Unit>)
    ensures PositionsIn(units, seq(|units|, i => i))
  {
  }

  /** One draw of the allocated size from each category, in name order. */
  method DrawEach(units: seq<Unit>, n: nat, groups: map<string, seq<nat>>, keys: seq<string>, alloc: map<string, int>)
    returns (sample: seq<nat>)
    requires n < |units| && IsGrouping(units, groups, Firsts(units)) && keys == Keys(units)
    requires (forall c :: c in alloc <==> c in keys) && LargestRemainder(units, n, At(alloc))
    ensures Drawn(units, alloc, keys, |keys|, sample)
    ensures GoesThrough(units, keys, |keys|, sample)
  {
    KeysAre(units);
    FirstsAre(units);
    hide Keys, Sum, CountIn, Members;
    sample := [];
    DrawnNone(units, alloc, keys);
    for j := 0 to |keys|
      invariant Drawn(units, alloc, keys, j, sample)
      invariant GoesThrough(units, keys, j, sample)
    {
      hide Drawn, GoesThrough, Sorted;
      var k := keys[j];
      SharesAreProportional(units, n, At(alloc), k);
      MembersAre(units, k);
      var take := Min(alloc[k], |groups[k]|);
      var more := [];
      if take != 0 {
        more := Draw(groups[k], take);
      }
      DrawnMore(units, alloc, keys, j, sample, more);
      GoesOn(units, keys, j, sample, more);
      sample := sample + more;
    }
  }

  lemma DrawnNone(units: seq<Unit>, alloc: map<string, int>, keys: seq<string>)
    requires forall c :: c in keys ==> c in alloc
    ensures Drawn(units, alloc, keys, 0, [])
  {
  }

  /** A request for as many units as there are returns them all; otherwise exactly `n` distinct
      ones, apportioned by largest remainder when there are several categories. */
  method StratifiedSample(units: seq<Unit>, n: nat) returns (sample: seq<nat>)
    ensures n >= |units| ==> sample == seq(|units|, i => i)
    ensures n < |units| ==> |sample| == n && PositionsIn(units, sample)
    ensures n < |units| && |Keys(units)| > 1 ==>
      LargestRemainder(units, n, c => CountIn(units, sample, c)) && ByCategory(units, sample)
  {
    if n >= |units| {
      return seq(|units|, i => i);
    }
    var groups, order := Group(units);
    SortKeeps(AtMost, order);
    if |order| <= 1 {
      AllPositions(units);
      sample := Draw(seq(|units|, i => i), n);
      return;
    }
    hide Floor, Remainder, NoLater, Members, CountIn;
    var alloc, rounds := Allocate(units, n, groups, order);
    var keys := Sort(AtMost, order);
    sample := DrawEach(units, n, groups, keys, alloc);
    hide Keys, Sum;
    assert keys[..|keys|] == keys;
    // The allocation sums to `n`, so there is nothing to top up.
    if |sample| < n {
      assert false;
    }
    SampleIsApportioned(units, n, alloc, sample);
  }

  lemma SampleIsApportioned(units: seq<Unit>, n: nat, alloc: map<string, int>, sample: seq<nat>)
    requires units != [] && (forall c :: c in alloc <==> c in Keys(units)) && LargestRemainder(units, n, At(alloc))
    requires Drawn(units, alloc, Keys(units), |Keys(units)|, sample)
    ensures LargestRemainder(units, n, c => CountIn(units, sample, c))
  {
    hide Keys, Sum, CountIn, Floor, Remainder, NoLater;
    forall c | c in Keys(units) ensures CountIn(units, sample, c) == At(alloc)(c) {
      var i :| 0 <= i < |Keys(units)| && Keys(units)[i] == c;
    }
    SumOfEqual(At(alloc), c => CountIn(units, sample, c), Keys(units));
  }
}
