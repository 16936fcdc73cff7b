/** Lists in strictly increasing order. */
module Ascending {
  ghost predicate StrictOrder<T(!new)>(less: (T, T) -> bool) {
    && (forall x: T :: !less(x, x))
    && (forall x, y, z: T :: less(x, y) && less(y, z) ==> less(x, z))
    && (forall x, y: T :: less(x, y) || less(y, x) || x == y)
  }

  /** Strictly increasing, so sorted and without repetition. */
  ghost predicate Increasing<T>(less: (T, T) -> bool, s: seq<T>) {
    forall i, j :: 0 <= i < j < |s| ==> less(s[i], s[j])
  }

  lemma IncreasingMore<T>(less: (T, T) -> bool, s: seq<T>, x: T)
    requires Increasing(less, s) && forall y :: y in s ==> less(y, x)
    ensures Increasing(less, s + [x])
  {
  }

  ghost predicate SameMembers<T(!new)>(a: seq<T>, b: seq<T>) {
    forall x :: x in a <==> x in b
  }

  /** The last element dominates the list, and the rest is everything else. */
  lemma Last<T(!new)>(less: (T, T) -> bool, s: seq<T>) returns (rest: seq<T>, last: T)
    requires StrictOrder(less) && Increasing(less, s) && s != []
    ensures s == rest + [last] && Increasing(less, rest)
    ensures forall x :: x in rest <==> x in s && x != last
    ensures forall x :: x in s ==> x == last || less(x, last)
  {
    rest, last := s[..|s| - 1], s[|s| - 1];
    assert forall i :: 0 <= i < |rest| ==> less(s[i], last);
  }

  lemma SameEmptiness<T(!new)>(a: seq<T>, b: seq<T>)
    requires SameMembers(a, b)
    ensures a == [] <==> b == []
  {
    if a != [] {
      assert a[0] in b;
    }
    if b != [] {
      assert b[0] in a;
    }
  }

  /** There is only one increasing list of a set of elements. */
  lemma {:induction false} IncreasingUnique<T(!new)>(less: (T, T) -> bool, a: seq<T>, b: seq<T>)
    requires StrictOrder(less) && Increasing(less, a) && Increasing(less, b) && SameMembers(a, b)
    ensures a == b
    decreases |a|
  {
    SameEmptiness(a, b);
    if a != [] {
      var a', m := Last(less, a);
      var b', n := Last(less, b);
      assert m in a && n in b;
      assert m in b && n in a;
      assert m == n;
      assert forall x :: x in a' ==> x in a && x in b;
      assert forall x :: x in b' ==> x in b && x in a;
      IncreasingUnique(less, a', b');
    }
  }
}

/** Lists that hold exactly the fitting members of a set. */
module Membership {
  ghost predicate Members<T(!new)>(has: T -> bool, fits: T -> bool, s: seq<T>) {
    forall x :: has(x) <==> x in s && fits(x)
  }

  /** `has'` is `has` with one more element. */
  ghost predicate Joined<T(!new)>(has: T -> bool, has': T -> bool, e: T) {
    forall x :: JoinedAt(has, has', e, x)
  }

  ghost predicate JoinedAt<T>(has: T -> bool, has': T -> bool, e: T, x: T) {
    has'(x) <==> has(x) || x == e
  }

  lemma MembersMore<T(!new)>(has: T -> bool, has': T -> bool, fits: T -> bool, s: seq<T>, e: T)
    requires Members(has, fits, s) && fits(e) && Joined(has, has', e)
    ensures Members(has', fits, s + [e])
  {
    assert forall x :: JoinedAt(has, has', e, x) ==> (has'(x) <==> has(x) || x == e);
  }

  lemma MembersSkip<T(!new)>(has: T -> bool, fits: T -> bool, s: seq<T>, e: T)
    requires Members(has, fits, s) && !fits(e)
    ensures Members(has, fits, s + [e])
  {
  }
}
