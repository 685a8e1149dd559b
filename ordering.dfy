/**
  The orderings the pivot relies on, and the "sorted distinct values" operation that
  `sorted(... .unique())` and pandas' group-key sorting perform.
  Strings compare as Python compares `str` values: code point by code point, a proper
  prefix before any longer string.
 */
module Ordering {

  /** The set of values occurring in a sequence. */
  function Elements<T>(s: seq<T>): set<T>
  {
    set x | x in s
  }

  lemma ElementsAppend<T>(a: seq<T>, b: seq<T>)
    ensures Elements(a + b) == Elements(a) + Elements(b)
  {
  }

  /** `lt` is a strict total order: irreflexive, transitive and total on distinct values. */
  ghost predicate StrictTotalOrder<T(!new)>(lt: (T, T) -> bool)
  {
    && (forall a :: !lt(a, a))
    && (forall a, b, c :: lt(a, b) && lt(b, c) ==> lt(a, c))
    && (forall a, b :: a != b ==> lt(a, b) || lt(b, a))
  }

  /** Ascending without repetition. */
  predicate StrictlySorted<T>(lt: (T, T) -> bool, s: seq<T>)
  {
    forall i, j :: 0 <= i < j < |s| ==> lt(s[i], s[j])
  }

  predicate Distinct<T(==)>(s: seq<T>)
  {
    forall i, j :: 0 <= i < j < |s| ==> s[i] != s[j]
  }

  /** Inserts `x` into a strictly sorted sequence, unless it is already there. */
  function Insert<T(==,!new)>(lt: (T, T) -> bool, x: T, s: seq<T>): (r: seq<T>)
    requires StrictTotalOrder(lt)
    requires StrictlySorted(lt, s)
    ensures StrictlySorted(lt, r)
    ensures Elements(r) == Elements(s) + {x}
  {
    if s == [] then [x]
    else if x == s[0] then s
    else if lt(x, s[0]) then
      assert forall y :: y in s ==> y == s[0] || lt(s[0], y);
      [x] + s
    else
      assert lt(s[0], x);
      var t := Insert(lt, x, s[1..]);
      assert Elements(s) == {s[0]} + Elements(s[1..]);
      assert forall y :: y in t ==> lt(s[0], y) by {
        forall y | y in t ensures lt(s[0], y) {
          assert y in Elements(t);
        }
      }
      assert Elements([s[0]] + t) == {s[0]} + Elements(t);
      [s[0]] + t
  }

  /** The distinct values of `xs` in ascending order. */
  function SortedDistinct<T(==,!new)>(lt: (T, T) -> bool, xs: seq<T>): (r: seq<T>)
    requires StrictTotalOrder(lt)
    ensures StrictlySorted(lt, r)
    ensures Elements(r) == Elements(xs)
  {
    if xs == [] then []
    else
      var init := xs[..|xs| - 1];
      assert Elements(xs) == Elements(init) + {xs[|xs| - 1]} by {
        assert xs == init + [xs[|xs| - 1]];
      }
      Insert(lt, xs[|xs| - 1], SortedDistinct(lt, init))
  }

  /** A strictly sorted sequence repeats nothing. */
  lemma StrictlySortedIsDistinct<T(!new)>(lt: (T, T) -> bool, s: seq<T>)
    requires StrictTotalOrder(lt)
    requires StrictlySorted(lt, s)
    ensures Distinct(s)
  {
  }

  /**
    A strictly sorted sequence is determined by its elements: two runs over the same
    values produce the same columns and the same row order.
   */
  lemma {:induction false} StrictlySortedUnique<T(!new)>(lt: (T, T) -> bool, s: seq<T>, t: seq<T>)
    requires StrictTotalOrder(lt)
    requires StrictlySorted(lt, s) && StrictlySorted(lt, t)
    requires Elements(s) == Elements(t)
    ensures s == t
  {
    assert |s| > 0 ==> s[0] in Elements(s);
    assert |t| > 0 ==> t[0] in Elements(t);
    if s != [] && t != [] {
      // Each head is the other's least element.
      var i :| 0 <= i < |s| && s[i] == t[0];
      var j :| 0 <= j < |t| && t[j] == s[0];
      assert s[0] == t[0];
      assert s[0] !in s[1..];
      assert t[0] !in t[1..];
      assert Elements(s) == {s[0]} + Elements(s[1..]);
      assert Elements(t) == {t[0]} + Elements(t[1..]);
      assert Elements(s[1..]) == Elements(t[1..]);
      StrictlySortedUnique(lt, s[1..], t[1..]);
      assert s == [s[0]] + s[1..];
      assert t == [t[0]] + t[1..];
    }
  }

  predicate IntLess(a: int, b: int)
  {
    a < b
  }

  lemma IntLessIsStrictTotalOrder()
    ensures StrictTotalOrder(IntLess)
  {
  }

  /** Python's `str` ordering: lexicographic by code point. */
  predicate StringLess(a: string, b: string)
  {
    if |a| == 0 then |b| > 0
    else if |b| == 0 then false
    else if a[0] != b[0] then a[0] < b[0]
    else StringLess(a[1..], b[1..])
  }

  lemma {:induction false} StringLessIrreflexive(a: string)
    ensures !StringLess(a, a)
  {
    if |a| > 0 {
      StringLessIrreflexive(a[1..]);
    }
  }

  lemma {:induction false} StringLessTransitive(a: string, b: string, c: string)
    requires StringLess(a, b) && StringLess(b, c)
    ensures StringLess(a, c)
  {
    if |a| > 0 && |b| > 0 && |c| > 0 && a[0] == b[0] && b[0] == c[0] {
      StringLessTransitive(a[1..], b[1..], c[1..]);
    }
  }

  lemma {:induction false} StringLessTotal(a: string, b: string)
    requires a != b
    ensures StringLess(a, b) || StringLess(b, a)
  {
    if |a| > 0 && |b| > 0 && a[0] == b[0] {
      assert a == [a[0]] + a[1..];
      assert b == [b[0]] + b[1..];
      StringLessTotal(a[1..], b[1..]);
    }
  }

  lemma StringLessIsStrictTotalOrder()
    ensures StrictTotalOrder(StringLess)
  {
    forall a: string ensures !StringLess(a, a) {
      StringLessIrreflexive(a);
    }
    forall a: string, b: string, c: string | StringLess(a, b) && StringLess(b, c)
      ensures StringLess(a, c)
    {
      StringLessTransitive(a, b, c);
    }
    forall a: string, b: string | a != b ensures StringLess(a, b) || StringLess(b, a) {
      StringLessTotal(a, b);
    }
  }
}
