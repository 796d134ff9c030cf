/** Orders used to sort the summaries: Python's code-point comparison of strings,
    and sorted, duplicate-free sequences built by insertion (what `sorted(set(...))`
    and the sorted group keys of a pandas `groupby` produce). */
module Ordering {

  /** `less` is irreflexive, transitive and total on distinct values. */
  ghost predicate StrictTotalOrder<T(!new)>(less: (T, T) -> bool)
  {
    (forall a :: !less(a, a)) &&
    (forall a, b, c :: less(a, b) && less(b, c) ==> less(a, c)) &&
    (forall a, b :: a != b ==> less(a, b) || less(b, a))
  }

  /** Every element is strictly below every later one: sorted and duplicate-free. */
  predicate Increasing<T>(s: seq<T>, less: (T, T) -> bool)
  {
    forall i, j :: 0 <= i < j < |s| ==> less(s[i], s[j])
  }

  /** Inserts `x` into a sorted duplicate-free sequence, keeping it so. */
  function Insert<T(==,!new)>(x: T, s: seq<T>, less: (T, T) -> bool): (r: seq<T>)
    requires StrictTotalOrder(less) && Increasing(s, less)
    ensures Increasing(r, less)
    ensures forall y :: y in r <==> y == x || y in s
    ensures |r| <= |s| + 1
  {
    if s == [] then [x]
    else if x == s[0] then s
    else if less(x, s[0]) then
      assert forall y :: y in s ==> y == s[0] || less(s[0], y);
      [x] + s
    else
      var rest := Insert(x, s[1..], less);
      assert forall y :: y in rest ==> less(s[0], y);
      [s[0]] + rest
  }

  /** The distinct elements of `xs`, in increasing order. */
  function SortedDistinct<T(==,!new)>(xs: seq<T>, less: (T, T) -> bool): (r: seq<T>)
    requires StrictTotalOrder(less)
    ensures Increasing(r, less)
    ensures forall y :: y in r <==> y in xs
    ensures |r| <= |xs|
  {
    if xs == [] then []
    else
      var rest := SortedDistinct(xs[1..], less);
      var r := Insert(xs[0], rest, less);
      assert xs[0] in rest ==> r == rest by {
        if xs[0] in rest { InsertPresent(xs[0], rest, less); }
      }
      r
  }

  /** Inserting an element that is already there changes nothing. */
  lemma {:induction false} InsertPresent<T(!new)>(x: T, s: seq<T>, less: (T, T) -> bool)
    requires StrictTotalOrder(less) && Increasing(s, less) && x in s
    ensures Insert(x, s, less) == s
  {
    if x != s[0] {
      assert less(s[0], x);
      InsertPresent(x, s[1..], less);
    }
  }

  /** Two increasing sequences with the same elements are equal: the sorted
      distinct form of a collection is unique, so any correct sort gives it. */
  lemma {:induction false} IncreasingUnique<T(!new)>(s: seq<T>, t: seq<T>, less: (T, T) -> bool)
    requires StrictTotalOrder(less) && Increasing(s, less) && Increasing(t, less)
    requires forall y :: y in s <==> y in t
    ensures s == t
  {
    if s != [] { assert s[0] in t; }
    if t != [] { assert t[0] in s; }
    if s != [] && t != [] {
      var k :| 0 <= k < |t| && t[k] == s[0];
      var m :| 0 <= m < |s| && s[m] == t[0];
      assert s[0] == t[0];
      forall y ensures y in s[1..] <==> y in t[1..] {
        if y in s[1..] {
          var i :| 1 <= i < |s| && s[i] == y;
          assert less(s[0], y) && y in t && y != t[0];
          assert y in t[1..];
        }
        if y in t[1..] {
          var i :| 1 <= i < |t| && t[i] == y;
          assert less(t[0], y) && y in s && y != s[0];
          assert y in s[1..];
        }
      }
      IncreasingUnique(s[1..], t[1..], less);
    }
  }

  /** Python's `<` on `str`: lexicographic comparison of code points, a proper
      prefix sorting first. */
  predicate TextLess(a: string, b: string)
  {
    if a == [] then b != []
    else if b == [] then false
    else if a[0] != b[0] then a[0] < b[0]
    else TextLess(a[1..], b[1..])
  }

  /** `a` is a proper prefix of `b`. */
  predicate ProperPrefix(a: string, b: string)
  {
    |a| < |b| && a == b[..|a|]
  }

  /** At the first position where `a` and `b` differ, `a` has the smaller code point. */
  ghost predicate FirstDifferenceLess(a: string, b: string)
  {
    exists k :: 0 <= k < |a| && k < |b| && a[..k] == b[..k] && a[k] < b[k]
  }

  /** Python's own account of its string order: `a < b` exactly when `a` is a
      proper prefix of `b`, or `a` has the smaller code point where they first
      differ. */
  lemma {:induction false} TextLessMeaning(a: string, b: string)
    ensures TextLess(a, b) <==> ProperPrefix(a, b) || FirstDifferenceLess(a, b)
  {
    if a == [] {
      assert b != [] ==> ProperPrefix(a, b);
    } else if b != [] {
      TextLessMeaning(a[1..], b[1..]);
      ProperPrefixStep(a, b);
      FirstDifferenceStep(a, b);
    }
  }

  lemma ProperPrefixStep(a: string, b: string)
    requires a != [] && b != []
    ensures ProperPrefix(a, b) <==> a[0] == b[0] && ProperPrefix(a[1..], b[1..])
  {
    if a[0] == b[0] && ProperPrefix(a[1..], b[1..]) {
      assert a == [a[0]] + a[1..] && b[..|a|] == [b[0]] + b[1..][..|a| - 1];
    }
  }

  lemma FirstDifferenceStep(a: string, b: string)
    requires a != [] && b != []
    ensures FirstDifferenceLess(a, b) <==>
            a[0] < b[0] || (a[0] == b[0] && FirstDifferenceLess(a[1..], b[1..]))
  {
    if FirstDifferenceLess(a, b) {
      var k :| 0 <= k < |a| && k < |b| && a[..k] == b[..k] && a[k] < b[k];
      if k > 0 {
        FirstDifferenceTail(a, b, k);
      }
    }
    if a[0] < b[0] {
      assert a[..0] == b[..0];
    } else if a[0] == b[0] && FirstDifferenceLess(a[1..], b[1..]) {
      var k :| 0 <= k < |a[1..]| && k < |b[1..]| && a[1..][..k] == b[1..][..k] && a[1..][k] < b[1..][k];
      FirstDifferenceHead(a, b, k);
    }
  }

  /** A first difference past the heads is a first difference of the tails. */
  lemma FirstDifferenceTail(a: string, b: string, k: nat)
    requires 0 < k < |a| && k < |b| && a[..k] == b[..k] && a[k] < b[k]
    ensures a[0] == b[0] && FirstDifferenceLess(a[1..], b[1..])
  {
    assert a[0] == a[..k][0] == b[..k][0] == b[0];
    assert a[1..][..k - 1] == a[..k][1..] && b[1..][..k - 1] == b[..k][1..];
    assert a[1..][k - 1] == a[k] && b[1..][k - 1] == b[k];
  }

  /** Equal heads followed by a first difference of the tails. */
  lemma FirstDifferenceHead(a: string, b: string, k: nat)
    requires a != [] && b != [] && a[0] == b[0]
    requires k < |a| - 1 && k < |b| - 1 && a[1..][..k] == b[1..][..k] && a[1..][k] < b[1..][k]
    ensures FirstDifferenceLess(a, b)
  {
    assert a[..k + 1] == [a[0]] + a[1..][..k] && b[..k + 1] == [b[0]] + b[1..][..k];
    assert a[k + 1] == a[1..][k] && b[k + 1] == b[1..][k];
  }

  lemma {:induction false} TextLessIrreflexive(a: string)
    ensures !TextLess(a, a)
  {
    if a != [] { TextLessIrreflexive(a[1..]); }
  }

  lemma {:induction false} TextLessTransitive(a: string, b: string, c: string)
    requires TextLess(a, b) && TextLess(b, c)
    ensures TextLess(a, c)
  {
    if a != [] && b != [] && c != [] && a[0] == b[0] == c[0] {
      TextLessTransitive(a[1..], b[1..], c[1..]);
    }
  }

  lemma {:induction false} TextLessTotal(a: string, b: string)
    requires a != b
    ensures TextLess(a, b) || TextLess(b, a)
  {
    if a != [] && b != [] && a[0] == b[0] {
      assert a == [a[0]] + a[1..] && b == [b[0]] + b[1..];
      TextLessTotal(a[1..], b[1..]);
    }
  }

  /** Python's string order is a strict total order, so sorting by it is well defined. */
  lemma TextLessIsStrictTotal()
    ensures StrictTotalOrder(TextLess)
  {
    forall a ensures !TextLess(a, a) { TextLessIrreflexive(a); }
    forall a, b, c | TextLess(a, b) && TextLess(b, c) ensures TextLess(a, c) {
      TextLessTransitive(a, b, c);
    }
    forall a, b | a != b ensures TextLess(a, b) || TextLess(b, a) { TextLessTotal(a, b); }
  }
}
