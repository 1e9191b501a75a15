/** `toSorted` with a comparator. */
module Sorting {
  import opened Sequences

  ghost predicate TotalPreorder<T(!new)>(le: (T, T) -> bool) {
    && (forall x, y :: le(x, y) || le(y, x))
    && (forall x, y, z :: le(x, y) && le(y, z) ==> le(x, z))
  }

  /** Different elements of `s` are not equal in the order. */
  predicate ToldApart<T(==)>(s: seq<T>, le: (T, T) -> bool) {
    forall i, j :: 0 <= i < |s| && 0 <= j < |s| && le(s[i], s[j]) && le(s[j], s[i]) ==> s[i] == s[j]
  }

  /** `x` stands before `y`. */
  ghost predicate Before<T>(s: seq<T>, x: T, y: T) {
    exists i, j :: 0 <= i < j < |s| && s[i] == x && s[j] == y
  }

  /** Elements of `r` that are equal in the order stand as they do in `s`. */
  ghost predicate TiesAsIn<T>(s: seq<T>, r: seq<T>, le: (T, T) -> bool) {
    forall i, j :: 0 <= i < j < |r| && le(r[j], r[i]) ==> Before(s, r[i], r[j])
  }

  predicate Sorted<T>(s: seq<T>, le: (T, T) -> bool) {
    forall i, j :: 0 <= i < j < |s| ==> le(s[i], s[j])
  }

  predicate NoDuplicates<T(==)>(s: seq<T>) {
    forall i, j :: 0 <= i < j < |s| ==> s[i] != s[j]
  }

  function Insert<T>(x: T, s: seq<T>, le: (T, T) -> bool): seq<T> {
    if s == [] || le(x, s[0]) then [x] + s else [s[0]] + Insert(x, s[1..], le)
  }

  function Sort<T>(s: seq<T>, le: (T, T) -> bool): (r: seq<T>) {
    if s == [] then [] else Insert(s[0], Sort(s[1..], le), le)
  }

  lemma {:induction false} InsertKeeps<T>(x: T, s: seq<T>, le: (T, T) -> bool)
    ensures forall y :: y in Insert(x, s, le) <==> y == x || y in s
    ensures |Insert(x, s, le)| == |s| + 1
    ensures multiset(Insert(x, s, le)) == multiset(s) + multiset{x}
  {
    if s == [] || le(x, s[0]) {
    } else {
      InsertKeeps(x, s[1..], le);
      assert s == [s[0]] + s[1..];
    }
  }

  lemma {:induction false} InsertSorts<T(!new)>(x: T, s: seq<T>, le: (T, T) -> bool)
    requires TotalPreorder(le) && Sorted(s, le)
    ensures Sorted(Insert(x, s, le), le)
  {
    if s != [] && !le(x, s[0]) {
      InsertSorts(x, s[1..], le);
      InsertKeeps(x, s[1..], le);
      var r := Insert(x, s[1..], le);
      forall j | 0 <= j < |r|
        ensures le(s[0], r[j])
      {
        assert r[j] in r;
      }
    }
  }

  /** Sorting orders the elements and loses none. */
  lemma {:induction false} SortCorrect<T(!new)>(s: seq<T>, le: (T, T) -> bool)
    requires TotalPreorder(le)
    ensures Sorted(Sort(s, le), le) && multiset(Sort(s, le)) == multiset(s)
  {
    if s != [] {
      SortCorrect(s[1..], le);
      InsertSorts(s[0], Sort(s[1..], le), le);
      InsertKeeps(s[0], Sort(s[1..], le), le);
      assert s == [s[0]] + s[1..];
    }
  }

  lemma {:induction false} SortKeepsMembers<T>(s: seq<T>, le: (T, T) -> bool)
    ensures forall x :: x in Sort(s, le) <==> x in s
  {
    if s != [] {
      SortKeepsMembers(s[1..], le);
      InsertKeeps(s[0], Sort(s[1..], le), le);
    }
  }

  lemma {:induction false} InsertKeepsDistinct<T>(x: T, s: seq<T>, le: (T, T) -> bool)
    requires NoDuplicates(s) && x !in s
    ensures NoDuplicates(Insert(x, s, le))
  {
    if s != [] && !le(x, s[0]) {
      InsertKeepsDistinct(x, s[1..], le);
      InsertKeeps(x, s[1..], le);
      assert s[0] !in s[1..];
      assert s[0] !in Insert(x, s[1..], le);
    }
  }

  lemma {:induction false} SortKeepsDistinct<T>(s: seq<T>, le: (T, T) -> bool)
    requires NoDuplicates(s)
    ensures NoDuplicates(Sort(s, le))
  {
    if s != [] {
      SortKeepsDistinct(s[1..], le);
      SortKeepsMembers(s[1..], le);
      assert s[0] !in s[1..];
      InsertKeepsDistinct(s[0], Sort(s[1..], le), le);
    }
  }

  /** Taking one common element away from each leaves the same elements. */
  lemma RemoveCommon<T>(a: seq<T>, b: seq<T>, k: nat) returns (rest: seq<T>)
    requires a != [] && k < |b| && b[k] == a[|a| - 1] && multiset(a) == multiset(b)
    ensures rest == Without(b, k) && multiset(a[..|a| - 1]) == multiset(rest)
  {
    var n := |a| - 1;
    rest := Without(b, k);
    WithoutOne(a, n);
    WithoutOne(b, k);
    assert Without(a, n) == a[..n];
  }

  lemma {:induction false} SortedIsFixed<T>(s: seq<T>, le: (T, T) -> bool)
    requires Sorted(s, le)
    ensures Sort(s, le) == s
  {
    if s != [] {
      SortedIsFixed(s[1..], le);
      assert s == [s[0]] + s[1..];
    }
  }

  lemma TailElements<T>(s: seq<T>)
    requires s != []
    ensures multiset(s[1..]) == multiset(s) - multiset{s[0]}
  {
    WithoutOne(s, 0);
    assert Without(s, 0) == s[1..];
  }

  lemma TailIsSorted<T>(s: seq<T>, le: (T, T) -> bool)
    requires s != [] && Sorted(s, le)
    ensures Sorted(s[1..], le)
  {
  }

  lemma SameHeadAndTail<T>(a: seq<T>, b: seq<T>)
    requires a != [] && b != [] && a[0] == b[0] && a[1..] == b[1..]
    ensures a == b
  {
    assert a == [a[0]] + a[1..] && b == [b[0]] + b[1..];
  }

  lemma {:induction false} SameElementsSameMultiset<T>(a: seq<T>, b: seq<T>)
    requires NoDuplicates(a) && NoDuplicates(b)
    requires forall x :: x in a <==> x in b
    ensures multiset(a) == multiset(b)
  {
    forall x
      ensures multiset(a)[x] == multiset(b)[x]
    {
      CountOnce(a, x);
      CountOnce(b, x);
    }
  }

  lemma {:induction false} CountOnce<T>(s: seq<T>, x: T)
    requires NoDuplicates(s)
    ensures multiset(s)[x] == if x in s then 1 else 0
  {
    if s != [] {
      assert s == [s[0]] + s[1..];
      CountOnce(s[1..], x);
    }
  }

  lemma CountedTwice<T>(s: seq<T>, i: nat, j: nat)
    requires i < j < |s| && s[i] == s[j]
    ensures multiset(s)[s[i]] >= 2
  {
    WithoutOne(s, j);
    assert Without(s, j)[i] == s[i];
  }

  // ----- Sorting is stable, and there is only one stable order -----

  lemma {:induction false} SortKeepsLength<T>(s: seq<T>, le: (T, T) -> bool)
    ensures |Sort(s, le)| == |s|
  {
    if s != [] {
      SortKeepsLength(s[1..], le);
      InsertKeeps(s[0], Sort(s[1..], le), le);
    }
  }

  lemma BeforeOf<T>(s: seq<T>, x: T, y: T)
    requires s != []
    ensures Before(s, x, y) <==> Before(s[1..], x, y) || (s[0] == x && y in s[1..])
  {
    if Before(s[1..], x, y) {
      var i, j :| 0 <= i < j < |s[1..]| && s[1..][i] == x && s[1..][j] == y;
      assert s[i + 1] == x && s[j + 1] == y;
    }
    if Before(s, x, y) {
      var i, j :| 0 <= i < j < |s| && s[i] == x && s[j] == y;
      assert s[1..][j - 1] == y;
      assert i > 0 ==> s[1..][i - 1] == x;
    }
    if s[0] == x && y in s[1..] {
      var j :| 0 <= j < |s[1..]| && s[1..][j] == y;
      assert s[j + 1] == y;
    }
  }

  lemma BeforeIsOneWay<T>(s: seq<T>, x: T, y: T)
    requires NoDuplicates(s) && Before(s, x, y)
    ensures !Before(s, y, x)
  {
    var i, j :| 0 <= i < j < |s| && s[i] == x && s[j] == y;
  }

  /** An element goes in front of those it is not above. */
  lemma {:induction false} InsertGoesBefore<T>(x: T, s: seq<T>, y: T, le: (T, T) -> bool)
    requires y in s && le(x, y)
    ensures Before(Insert(x, s, le), x, y)
  {
    var r := Insert(x, s, le);
    BeforeOf(r, x, y);
    if le(x, s[0]) {
      assert r[1..] == s;
    } else {
      InsertGoesBefore(x, s[1..], y, le);
      assert r[1..] == Insert(x, s[1..], le);
    }
  }

  lemma {:induction false} InsertKeepsBefore<T>(x: T, s: seq<T>, a: T, b: T, le: (T, T) -> bool)
    requires Before(s, a, b)
    ensures Before(Insert(x, s, le), a, b)
  {
    var r := Insert(x, s, le);
    BeforeOf(s, a, b);
    BeforeOf(r, a, b);
    if le(x, s[0]) {
      assert r[1..] == s;
    } else {
      assert r[1..] == Insert(x, s[1..], le);
      InsertKeeps(x, s[1..], le);
      if Before(s[1..], a, b) {
        InsertKeepsBefore(x, s[1..], a, b, le);
      }
    }
  }

  lemma {:induction false} SortIsStable<T>(s: seq<T>, a: T, b: T, le: (T, T) -> bool)
    requires Before(s, a, b) && le(a, b)
    ensures Before(Sort(s, le), a, b)
  {
    BeforeOf(s, a, b);
    if Before(s[1..], a, b) {
      SortIsStable(s[1..], a, b, le);
      InsertKeepsBefore(s[0], Sort(s[1..], le), a, b, le);
    } else {
      SortKeepsMembers(s[1..], le);
      InsertGoesBefore(a, Sort(s[1..], le), b, le);
    }
  }

  lemma SameLeast<T(!new)>(a: seq<T>, b: seq<T>, le: (T, T) -> bool)
    requires TotalPreorder(le) && Sorted(a, le) && Sorted(b, le) && NoDuplicates(b)
    requires a != [] && multiset(a) == multiset(b) && TiesAsIn(b, a, le)
    ensures b != [] && a[0] == b[0]
  {
    assert a[0] in multiset(b) && a[0] in b;
    assert b[0] in multiset(a) && b[0] in a;
    var k :| 0 <= k < |a| && a[k] == b[0];
    var j :| 0 <= j < |b| && b[j] == a[0];
    assert le(a[k], a[0]) by {
      assert le(b[0], b[j]);
    }
    NothingBeforeFirst(b, a[0]);
    assert k == 0;
  }

  lemma NothingBeforeFirst<T>(s: seq<T>, x: T)
    requires s != [] && NoDuplicates(s)
    ensures !Before(s, x, s[0])
  {
  }

  lemma TiesOfTails<T>(a: seq<T>, b: seq<T>, le: (T, T) -> bool)
    requires a != [] && b != [] && a[0] == b[0] && NoDuplicates(a) && TiesAsIn(b, a, le)
    ensures TiesAsIn(b[1..], a[1..], le)
  {
    forall i, j | 0 <= i < j < |a[1..]| && le(a[1..][j], a[1..][i])
      ensures Before(b[1..], a[1..][i], a[1..][j])
    {
      assert a[i + 1] == a[1..][i] && a[j + 1] == a[1..][j];
      assert Before(b, a[i + 1], a[j + 1]) && a[0] != a[i + 1];
      BeforeOf(b, a[i + 1], a[j + 1]);
    }
  }

  /** Two sorted sequences of the same elements with the same order of ties are the same. */
  lemma {:induction false} SortedIsUnique<T(!new)>(a: seq<T>, b: seq<T>, le: (T, T) -> bool)
    requires TotalPreorder(le) && Sorted(a, le) && Sorted(b, le) && multiset(a) == multiset(b)
    requires NoDuplicates(a) && NoDuplicates(b) && TiesAsIn(b, a, le)
    ensures a == b
  {
    if a == [] {
      assert |multiset(b)| == 0;
    } else {
      SameLeast(a, b, le);
      TailElements(a);
      TailElements(b);
      TailIsSorted(a, le);
      TailIsSorted(b, le);
      TailIsDistinct(a);
      TailIsDistinct(b);
      TiesOfTails(a, b, le);
      SortedIsUnique(a[1..], b[1..], le);
      SameHeadAndTail(a, b);
    }
  }

  lemma TailIsDistinct<T>(s: seq<T>)
    requires s != [] && NoDuplicates(s)
    ensures NoDuplicates(s[1..])
  {
  }

  /** A sorted arrangement of distinct elements is the one that `Sort` gives exactly
      when ties stand in it as they did before. */
  lemma SortIsTheStableOne<T(!new)>(s: seq<T>, r: seq<T>, le: (T, T) -> bool)
    requires TotalPreorder(le) && Sorted(r, le) && NoDuplicates(s) && NoDuplicates(r)
    requires forall x :: x in r <==> x in s
    ensures r == Sort(s, le) <==> TiesAsIn(s, r, le)
  {
    var t := Sort(s, le);
    SortCorrect(s, le);
    SortKeepsDistinct(s, le);
    SortKeepsMembers(s, le);
    if TiesAsIn(s, r, le) {
      forall i, j | 0 <= i < j < |r| && le(r[j], r[i])
        ensures Before(t, r[i], r[j])
      {
        assert Before(s, r[i], r[j]) && le(r[i], r[j]);
        SortIsStable(s, r[i], r[j], le);
      }
      SameElementsSameMultiset(r, t);
      SortedIsUnique(r, t, le);
    }
    if r == t {
      forall i, j | 0 <= i < j < |r| && le(r[j], r[i])
        ensures Before(s, r[i], r[j])
      {
        TieStandsAsBefore(s, r, i, j, le);
      }
    }
  }

  lemma TieStandsAsBefore<T>(s: seq<T>, r: seq<T>, i: nat, j: nat, le: (T, T) -> bool)
    requires r == Sort(s, le) && NoDuplicates(r) && i < j < |r| && le(r[j], r[i])
    ensures Before(s, r[i], r[j])
  {
    SortKeepsMembers(s, le);
    assert r[i] in s && r[j] in s && r[i] != r[j];
    EitherBefore(s, r[i], r[j]);
    assert Before(r, r[i], r[j]);
    if Before(s, r[j], r[i]) {
      SortIsStable(s, r[j], r[i], le);
      BeforeIsOneWay(r, r[i], r[j]);
    }
  }

  lemma EitherBefore<T>(s: seq<T>, x: T, y: T)
    requires x in s && y in s && x != y
    ensures Before(s, x, y) || Before(s, y, x)
  {
    var i :| 0 <= i < |s| && s[i] == x;
    var j :| 0 <= j < |s| && s[j] == y;
    assert if i < j then Before(s, x, y) else Before(s, y, x);
  }

  lemma NoTies<T>(s: seq<T>, r: seq<T>, le: (T, T) -> bool)
    requires Sorted(r, le) && NoDuplicates(r) && ToldApart(r, le)
    ensures TiesAsIn(s, r, le)
  {
  }

  /** Elements that are told apart are sorted alike however they were collected. */
  lemma SortForgetsOrder<T(!new)>(a: seq<T>, b: seq<T>, le: (T, T) -> bool)
    requires TotalPreorder(le) && ToldApart(a, le) && NoDuplicates(a) && NoDuplicates(b)
    requires forall x :: x in a <==> x in b
    ensures Sort(a, le) == Sort(b, le)
  {
    var r := Sort(a, le);
    SortCorrect(a, le);
    SortKeepsDistinct(a, le);
    SortKeepsMembers(a, le);
    forall i, j | 0 <= i < |r| && 0 <= j < |r| && le(r[i], r[j]) && le(r[j], r[i])
      ensures r[i] == r[j]
    {
      assert r[i] in a && r[j] in a;
    }
    NoTies(b, r, le);
    SortIsTheStableOne(b, r, le);
  }
}
