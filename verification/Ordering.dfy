/**
 Comparators and canonical order (`lib/table-query.ts`), with the stable sort
 that JavaScript's `Array.prototype.sort` performs.
 */
module Ordering {
  import opened Wrappers

  /** A comparator whose sign is a total preorder. */
  ghost predicate Preorder<T(!new)>(c: (T, T) -> int) {
    && Signed(c)
    && (forall x, y, z :: c(x, y) <= 0 && c(y, z) <= 0 ==> c(x, z) <= 0)
  }

  ghost predicate Signed<T(!new)>(c: (T, T) -> int) {
    forall x, y :: c(x, y) < 0 <==> c(y, x) > 0
  }

  /** What is asked of `localeCompare`: a total order on strings that is 0 only on equal ones. */
  ghost predicate Collation(lc: (string, string) -> int) {
    Preorder(lc) && forall a, b :: lc(a, b) == 0 <==> a == b
  }

  /** No two different rows of `s` compare equal. */
  ghost predicate Separates<T(!new)>(c: (T, T) -> int, s: seq<T>) {
    forall x, y :: x in s && y in s && c(x, y) == 0 ==> x == y
  }

  /** `by`: the first comparison that is not 0 decides. */
  function By<T>(comparisons: seq<(T, T) -> int>, left: T, right: T): int {
    if comparisons == [] then 0
    else if comparisons[0](left, right) != 0 then comparisons[0](left, right)
    else By(comparisons[1..], left, right)
  }

  function Chain<T>(comparisons: seq<(T, T) -> int>): (T, T) -> int {
    (left, right) => By(comparisons, left, right)
  }

  function BiggestFirst(left: Option<int>, right: Option<int>): int {
    if left.None? && right.None? then 0
    else if left.None? then 1
    else if right.None? then -1
    else right.value - left.value
  }

  /** The largest reading leads and a missing one trails; equal readings are left to the next comparison. */
  lemma BiggestFirstOrders()
    ensures Preorder(BiggestFirst)
    ensures forall a, b :: BiggestFirst(a, b) == 0 <==> a == b
    ensures forall a, b :: BiggestFirst(a, b) < 0 <==> a.Some? && (b.None? || a.value > b.value)
  {
  }

  lemma {:induction false} ByIsPreorder<T(!new)>(cs: seq<(T, T) -> int>)
    requires forall c <- cs :: Preorder(c)
    ensures Preorder(Chain(cs))
  {
    var all := Chain(cs);
    if cs != [] {
      var head, tail := cs[0], Chain(cs[1..]);
      ByIsPreorder(cs[1..]);
      assert Preorder(head);
      assert forall x, y :: all(x, y) == if head(x, y) != 0 then head(x, y) else tail(x, y);
      forall x, y ensures all(x, y) < 0 <==> all(y, x) > 0 {
        assert head(x, y) < 0 <==> head(y, x) > 0;
        assert head(y, x) < 0 <==> head(x, y) > 0;
        assert tail(x, y) < 0 <==> tail(y, x) > 0;
      }
      forall x, y, z | all(x, y) <= 0 && all(y, z) <= 0 ensures all(x, z) <= 0 {
        ChainTransitive(head, tail, all, x, y, z);
      }
    }
  }

  lemma ChainTransitive<T(!new)>(head: (T, T) -> int, tail: (T, T) -> int, all: (T, T) -> int, x: T, y: T, z: T)
    requires Preorder(head) && Preorder(tail)
    requires forall x, y :: all(x, y) == if head(x, y) != 0 then head(x, y) else tail(x, y)
    requires all(x, y) <= 0 && all(y, z) <= 0
    ensures all(x, z) <= 0
  {
    assert head(x, y) <= 0 && head(y, z) <= 0;
    assert head(x, z) <= 0;
    if head(x, z) == 0 {
      assert head(z, x) <= 0;
      assert head(z, y) <= 0 by { assert head(z, x) <= 0 && head(x, y) <= 0; }
      assert head(y, x) <= 0 by { assert head(y, z) <= 0 && head(z, x) <= 0; }
      assert head(x, y) == 0 && head(y, z) == 0;
      assert tail(x, z) <= 0;
    }
  }

  /** One comparison that never returns 0 on different rows makes the whole chain a strict total order. */
  lemma {:induction false} BySeparates<T(!new)>(cs: seq<(T, T) -> int>, i: nat, s: seq<T>)
    requires i < |cs| && Separates(cs[i], s)
    ensures Separates(Chain(cs), s)
  {
    if i > 0 {
      BySeparates(cs[1..], i - 1, s);
    }
    forall x, y | x in s && y in s && Chain(cs)(x, y) == 0 ensures x == y {
      if i > 0 {
        assert Chain(cs[1..])(x, y) == 0;
      }
    }
  }

  // ---- The stable sort ----

  function Insert<T>(c: (T, T) -> int, x: T, s: seq<T>): seq<T> {
    if s == [] || c(x, s[0]) <= 0 then [x] + s else [s[0]] + Insert(c, x, s[1..])
  }

  function Sort<T>(c: (T, T) -> int, s: seq<T>): (r: seq<T>)
    ensures |r| == |s|
  {
    if s == [] then [] else
      InsertLength(c, s[0], Sort(c, s[1..]));
      Insert(c, s[0], Sort(c, s[1..]))
  }

  lemma InsertLength<T>(c: (T, T) -> int, x: T, s: seq<T>)
    ensures |Insert(c, x, s)| == |s| + 1
  {
  }

  /** `x` may stand in front of everything in `s`. */
  ghost predicate Leads<T>(c: (T, T) -> int, x: T, s: seq<T>) {
    forall y <- s :: c(x, y) <= 0
  }

  ghost predicate Sorted<T>(c: (T, T) -> int, s: seq<T>) {
    s == [] || (Leads(c, s[0], s[1..]) && Sorted(c, s[1..]))
  }

  lemma {:induction false} InsertMembers<T>(c: (T, T) -> int, x: T, s: seq<T>)
    ensures multiset(Insert(c, x, s)) == multiset(s) + multiset{x}
  {
    if s != [] && c(x, s[0]) > 0 {
      InsertMembers(c, x, s[1..]);
      assert s == [s[0]] + s[1..];
    }
  }

  lemma {:induction false} SortMembers<T>(c: (T, T) -> int, s: seq<T>)
    ensures multiset(Sort(c, s)) == multiset(s)
    ensures forall x :: x in Sort(c, s) <==> x in s
  {
    if s != [] {
      SortMembers(c, s[1..]);
      InsertMembers(c, s[0], Sort(c, s[1..]));
      assert s == [s[0]] + s[1..];
    }
    assert forall x :: x in Sort(c, s) <==> x in multiset(Sort(c, s));
    assert forall x :: x in s <==> x in multiset(s);
  }

  lemma LeadsThrough<T(!new)>(c: (T, T) -> int, x: T, y: T, s: seq<T>)
    requires Preorder(c) && c(x, y) <= 0 && Leads(c, y, s)
    ensures Leads(c, x, [y] + s)
  {
    forall z | z in [y] + s ensures c(x, z) <= 0 {
      assert z == y || z in s;
    }
  }

  lemma {:induction false} InsertMembership<T>(c: (T, T) -> int, x: T, s: seq<T>)
    ensures forall y :: y in Insert(c, x, s) <==> y == x || y in s
  {
    InsertMembers(c, x, s);
    assert forall y :: y in Insert(c, x, s) <==> y in multiset(Insert(c, x, s));
    assert forall y :: y in s <==> y in multiset(s);
  }

  lemma {:induction false} InsertSorted<T(!new)>(c: (T, T) -> int, x: T, s: seq<T>)
    requires Preorder(c) && Sorted(c, s)
    ensures Sorted(c, Insert(c, x, s))
  {
    if s != [] {
      assert s == [s[0]] + s[1..];
      if c(x, s[0]) <= 0 {
        LeadsThrough(c, x, s[0], s[1..]);
        assert ([x] + s)[1..] == s;
      } else {
        InsertSorted(c, x, s[1..]);
        InsertMembership(c, x, s[1..]);
        var t := Insert(c, x, s[1..]);
        assert ([s[0]] + t)[1..] == t;
        assert c(s[0], x) <= 0;
        assert Leads(c, s[0], t);
      }
    }
  }

  lemma {:induction false} SortSorted<T(!new)>(c: (T, T) -> int, s: seq<T>)
    requires Preorder(c)
    ensures Sorted(c, Sort(c, s))
  {
    if s != [] {
      SortSorted(c, s[1..]);
      InsertSorted(c, s[0], Sort(c, s[1..]));
    }
  }

  lemma {:induction false} SortedAt<T>(c: (T, T) -> int, s: seq<T>, i: nat, j: nat)
    requires Sorted(c, s) && i < j < |s|
    ensures c(s[i], s[j]) <= 0
  {
    if i == 0 {
      assert s[j] == s[1..][j - 1];
    } else {
      SortedAt(c, s[1..], i - 1, j - 1);
    }
  }

  lemma SameHead<T(!new)>(c: (T, T) -> int, a: seq<T>, b: seq<T>)
    requires Signed(c) && Sorted(c, a) && Sorted(c, b) && Separates(c, a)
    requires a != [] && b != [] && a[0] in b && b[0] in a
    ensures a[0] == b[0]
  {
    assert c(a[0], a[0]) == 0 && c(b[0], b[0]) == 0;
    assert b[0] in a[1..] || b[0] == a[0];
    assert a[0] in b[1..] || a[0] == b[0];
  }

  /** Two sorted arrangements of the same rows are the same sequence once no two rows tie. */
  lemma {:induction false} SortedUnique<T(!new)>(c: (T, T) -> int, a: seq<T>, b: seq<T>)
    requires Signed(c) && Sorted(c, a) && Sorted(c, b)
    requires multiset(a) == multiset(b) && Separates(c, a)
    ensures a == b
  {
    if a == [] {
      assert |multiset(b)| == 0;
    } else {
      assert |multiset(b)| == |a|;
      assert a[0] in multiset(b) && b[0] in multiset(a);
      SameHead(c, a, b);
      TailsAgree(a, b);
      assert forall x :: x in a[1..] ==> x in a;
      SortedUnique(c, a[1..], b[1..]);
    }
  }

  lemma TailsAgree<T>(a: seq<T>, b: seq<T>)
    requires a != [] && b != [] && a[0] == b[0] && multiset(a) == multiset(b)
    ensures multiset(a[1..]) == multiset(b[1..])
    ensures a[1..] == b[1..] ==> a == b
  {
    assert a == [a[0]] + a[1..] && b == [b[0]] + b[1..];
    assert multiset(a[1..]) == multiset(a) - multiset{a[0]} == multiset(b[1..]);
  }

  /** With no ties the sorted list depends on which rows there are, never on how they arrived. */
  lemma ArrivalOrderIsForgotten<T(!new)>(c: (T, T) -> int, a: seq<T>, b: seq<T>)
    requires Preorder(c) && Separates(c, a) && multiset(a) == multiset(b)
    ensures Sort(c, a) == Sort(c, b)
  {
    SortMembers(c, a);
    SortMembers(c, b);
    SortSorted(c, a);
    SortSorted(c, b);
    SortedUnique(c, Sort(c, a), Sort(c, b));
  }

  // ---- And only with no ties ----

  /** The rows of `s` that tie with `x`, in order. */
  function Ties<T>(c: (T, T) -> int, x: T, s: seq<T>): seq<T> {
    if s == [] then [] else (if c(x, s[0]) == 0 then [s[0]] else []) + Ties(c, x, s[1..])
  }

  lemma StrictlyAfterIsNoTie<T(!new)>(c: (T, T) -> int, x: T, y: T, z: T)
    requires Preorder(c) && c(y, z) > 0
    ensures !(c(x, y) == 0 && c(x, z) == 0)
  {
    assert c(x, y) == 0 ==> c(y, x) <= 0;
    assert c(y, x) <= 0 && c(x, z) <= 0 ==> c(y, z) <= 0;
  }

  lemma {:induction false} InsertTies<T(!new)>(c: (T, T) -> int, x: T, y: T, s: seq<T>)
    requires Preorder(c)
    ensures Ties(c, x, Insert(c, y, s)) == Ties(c, x, [y] + s)
  {
    assert ([y] + s)[1..] == s;
    if s != [] && c(y, s[0]) > 0 {
      InsertTies(c, x, y, s[1..]);
      var t := Insert(c, y, s[1..]);
      assert Insert(c, y, s) == [s[0]] + t;
      assert ([s[0]] + t)[1..] == t;
      assert ([y] + s[1..])[1..] == s[1..];
      StrictlyAfterIsNoTie(c, x, y, s[0]);
    }
  }

  /** Rows that tie keep the order they arrived in. */
  lemma {:induction false} SortIsStable<T(!new)>(c: (T, T) -> int, x: T, s: seq<T>)
    requires Preorder(c)
    ensures Ties(c, x, Sort(c, s)) == Ties(c, x, s)
  {
    if s != [] {
      SortIsStable(c, x, s[1..]);
      InsertTies(c, x, s[0], Sort(c, s[1..]));
      var t := Sort(c, s[1..]);
      assert ([s[0]] + t)[1..] == t;
    }
  }

  lemma TieShowsArrival<T(!new)>(c: (T, T) -> int, x: T, y: T, rest: seq<T>)
    requires Preorder(c) && c(x, y) == 0 && x != y
    ensures Sort(c, [x, y] + rest) != Sort(c, [y, x] + rest)
  {
    var a, b := [x, y] + rest, [y, x] + rest;
    SortIsStable(c, x, a);
    SortIsStable(c, x, b);
    assert c(x, x) == 0;
    assert Ties(c, x, a)[0] == x && Ties(c, x, b)[0] == y;
  }

  ghost predicate ForgetsArrival<T(!new)>(c: (T, T) -> int, s: seq<T>) {
    forall t: seq<T> | multiset(t) == multiset(s) :: Sort(c, t) == Sort(c, s)
  }

  /** Exactly when the order is arrival-independent: no two different rows of the list tie. */
  lemma ArrivalIndependentIffNoTies<T(!new)>(c: (T, T) -> int, s: seq<T>)
    requires Preorder(c)
    ensures Separates(c, s) <==> ForgetsArrival(c, s)
  {
    if Separates(c, s) {
      forall t: seq<T> | multiset(t) == multiset(s) ensures Sort(c, t) == Sort(c, s) {
        ArrivalOrderIsForgotten(c, s, t);
      }
    } else {
      var x, y :| x in s && y in s && c(x, y) == 0 && x != y;
      TieIsRemembered(c, s, x, y);
    }
  }

  lemma TieIsRemembered<T(!new)>(c: (T, T) -> int, s: seq<T>, x: T, y: T)
    requires Preorder(c) && x in s && y in s && c(x, y) == 0 && x != y
    ensures !ForgetsArrival(c, s)
  {
    var rest := TwoInFront(s, x, y);
    TieShowsArrival(c, x, y, rest);
  }

  lemma TwoInFront<T>(s: seq<T>, x: T, y: T) returns (rest: seq<T>)
    requires x in s && y in s && x != y
    ensures multiset([x, y] + rest) == multiset(s) == multiset([y, x] + rest)
  {
    WithoutMembers(s, x);
    var t := Without(s, x);
    assert y in multiset(s) && multiset(s)[y] == multiset(t)[y];
    assert y in multiset(t);
    WithoutMembers(t, y);
    rest := Without(t, y);
  }

  function Without<T(==)>(s: seq<T>, x: T): seq<T> {
    if s == [] then [] else if s[0] == x then s[1..] else [s[0]] + Without(s[1..], x)
  }

  lemma {:induction false} WithoutMembers<T>(s: seq<T>, x: T)
    requires x in s
    ensures multiset(Without(s, x)) + multiset{x} == multiset(s)
  {
    assert s == [s[0]] + s[1..];
    if s[0] != x {
      WithoutMembers(s[1..], x);
    }
  }
}
