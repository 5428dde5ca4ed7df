/**
 * Python's ordering of `str` values (code point by code point, a proper
 * prefix first) and the two uses of `sorted` the scripts make: sorting a
 * list by a key, and `sorted(some_set)`.
 */
module Sorting {

  /** Python's `a <= b` on `str`. */
  predicate StrLe(a: string, b: string)
    decreases |a|
  {
    a == [] || (b != [] && (a[0] < b[0] || (a[0] == b[0] && StrLe(a[1..], b[1..]))))
  }

  lemma {:induction false} StrLeTotal(a: string, b: string)
    ensures StrLe(a, b) || StrLe(b, a)
  {
    if a != [] && b != [] && a[0] == b[0] {
      StrLeTotal(a[1..], b[1..]);
    }
  }

  lemma {:induction false} StrLeTransitive(a: string, b: string, c: string)
    requires StrLe(a, b) && StrLe(b, c)
    ensures StrLe(a, c)
  {
    if a != [] && b != [] && c != [] && a[0] == b[0] == c[0] {
      StrLeTransitive(a[1..], b[1..], c[1..]);
    }
  }

  lemma {:induction false} StrLeAntisymmetric(a: string, b: string)
    requires StrLe(a, b) && StrLe(b, a)
    ensures a == b
  {
    if a != [] && b != [] {
      StrLeAntisymmetric(a[1..], b[1..]);
      assert a == [a[0]] + a[1..];
      assert b == [b[0]] + b[1..];
    }
  }

  lemma StrLeTotalOrder()
    ensures TotalOrder((a: string, b: string) => StrLe(a, b))
    ensures Antisymmetric((a: string, b: string) => StrLe(a, b))
  {
    forall a: string, b: string ensures StrLe(a, b) || StrLe(b, a) {
      StrLeTotal(a, b);
    }
    forall a: string, b: string, c: string | StrLe(a, b) && StrLe(b, c) ensures StrLe(a, c) {
      StrLeTransitive(a, b, c);
    }
    forall a: string, b: string | StrLe(a, b) && StrLe(b, a) ensures a == b {
      StrLeAntisymmetric(a, b);
    }
  }

  // ------------------------------------------------------- orders and sorting

  ghost predicate TotalOrder<T(!new)>(le: (T, T) -> bool) {
    && (forall x, y :: le(x, y) || le(y, x))
    && (forall x, y, z :: le(x, y) && le(y, z) ==> le(x, z))
  }

  ghost predicate Antisymmetric<T(!new)>(le: (T, T) -> bool) {
    forall x, y :: le(x, y) && le(y, x) ==> x == y
  }

  /** Every element is `le` its successor. */
  predicate SortedBy<T>(xs: seq<T>, le: (T, T) -> bool) {
    forall k | 0 <= k < |xs| - 1 :: le(xs[k], xs[k + 1])
  }

  /** Places `x` before the first element it is `le` to. */
  function InsertBy<T(!new)>(x: T, xs: seq<T>, le: (T, T) -> bool): (r: seq<T>)
    requires forall a, b :: le(a, b) || le(b, a)
    requires SortedBy(xs, le)
    ensures multiset(r) == multiset(xs) + multiset{x}
    ensures SortedBy(r, le)
    ensures |r| == |xs| + 1 && (r[0] == x || (xs != [] && r[0] == xs[0]))
  {
    if xs == [] || le(x, xs[0]) then [x] + xs
    else
      var rest := InsertBy(x, xs[1..], le);
      assert xs == [xs[0]] + xs[1..];
      [xs[0]] + rest
  }

  /** `sorted(xs, key=...)`: a permutation of `xs` in ascending order, and
      (`SortIsUnique`) the only one when the order is antisymmetric. */
  function SortBy<T(!new)>(xs: seq<T>, le: (T, T) -> bool): (r: seq<T>)
    requires forall a, b :: le(a, b) || le(b, a)
    ensures multiset(r) == multiset(xs)
    ensures SortedBy(r, le)
    decreases |xs|
  {
    if xs == [] then []
    else
      assert xs == [xs[0]] + xs[1..];
      InsertBy(xs[0], SortBy(xs[1..], le), le)
  }

  /** Under a transitive order, a sorted sequence is ordered pairwise. */
  lemma {:induction false} SortedPairwise<T(!new)>(xs: seq<T>, le: (T, T) -> bool, i: nat, j: nat)
    requires forall x, y, z :: le(x, y) && le(y, z) ==> le(x, z)
    requires SortedBy(xs, le)
    requires i < j < |xs|
    ensures le(xs[i], xs[j])
    decreases j - i
  {
    if j > i + 1 {
      SortedPairwise(xs, le, i + 1, j);
    }
  }

  /** Two sorted permutations of the same elements are equal when the order
      is an antisymmetric total order: the sort returns exactly Python's
      `sorted(...)` result. */
  lemma {:induction false} SortIsUnique<T(!new)>(a: seq<T>, b: seq<T>, le: (T, T) -> bool)
    requires TotalOrder(le) && Antisymmetric(le)
    requires SortedBy(a, le) && SortedBy(b, le)
    requires multiset(a) == multiset(b)
    ensures a == b
    decreases |a|
  {
    if a != [] {
      assert |b| == |a| by { assert |multiset(a)| == |multiset(b)|; }
      // the head of each is a least element of the common multiset
      assert a[0] in multiset(b);
      assert b[0] in multiset(a);
      var i :| 0 <= i < |b| && b[i] == a[0];
      var j :| 0 <= j < |a| && a[j] == b[0];
      if i > 0 { SortedPairwise(b, le, 0, i); }
      if j > 0 { SortedPairwise(a, le, 0, j); }
      assert le(b[0], a[0]) && le(a[0], b[0]);
      assert a[0] == b[0];
      TailsAgree(a, b);
      SortIsUnique(a[1..], b[1..], le);
    }
  }

  /** Removing equal heads from equal multisets leaves equal multisets. */
  lemma TailsAgree<T>(a: seq<T>, b: seq<T>)
    requires a != [] && b != [] && a[0] == b[0]
    requires multiset(a) == multiset(b)
    ensures multiset(a[1..]) == multiset(b[1..])
  {
    assert a == [a[0]] + a[1..];
    assert b == [b[0]] + b[1..];
    assert multiset(a) == multiset{a[0]} + multiset(a[1..]);
    assert multiset(b) == multiset{b[0]} + multiset(b[1..]);
    assert multiset(a[1..]) == multiset(a) - multiset{a[0]};
    assert multiset(b[1..]) == multiset(b) - multiset{b[0]};
  }

  // ------------------------------------------------------------ sorted(set)

  predicate StrictlyAscending(xs: seq<string>) {
    forall k | 0 <= k < |xs| - 1 :: StrLe(xs[k], xs[k + 1]) && xs[k] != xs[k + 1]
  }

  /** Drops each element equal to its predecessor. */
  function DropRepeats(xs: seq<string>): (r: seq<string>)
    requires SortedBy(xs, (a: string, b: string) => StrLe(a, b))
    ensures StrictlyAscending(r)
    ensures forall x :: x in r <==> x in xs
    ensures xs != [] ==> r != [] && r[0] == xs[0]
    decreases |xs|
  {
    if |xs| <= 1 then xs
    else
      var rest := DropRepeats(xs[1..]);
      assert xs[1] in xs[1..];
      if xs[0] == xs[1] then rest else [xs[0]] + rest
  }

  /** `sorted(set(xs))`: the distinct elements of `xs` in ascending order. */
  function SortedSet(xs: seq<string>): (r: seq<string>)
    ensures StrictlyAscending(r)
    ensures forall x :: x in r <==> x in xs
  {
    StrLeTotalOrder();
    var s := SortBy(xs, (a: string, b: string) => StrLe(a, b));
    assert forall x :: x in s <==> x in multiset(s);
    DropRepeats(s)
  }
}
