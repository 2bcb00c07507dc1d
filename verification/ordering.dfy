/**
 * Orderings used by the storage layer: Python's code-point order on
 * strings (what `sorted` uses for keywords and what the datastore uses
 * for key names), and a deterministic sort of a finite set under any
 * strict total order (what `sorted(set(...))` computes).
 */
module Ordering {

  function Min(a: int, b: int): (m: int)
    ensures m <= a && m <= b && (m == a || m == b)
  {
    if a <= b then a else b
  }

  function Max(a: int, b: int): (m: int)
    ensures m >= a && m >= b && (m == a || m == b)
  {
    if a >= b then a else b
  }

  /** `lt` is a strict total order on all of T. */
  ghost predicate StrictTotalOrder<T(!new)>(lt: (T, T) -> bool) {
    && (forall a :: !lt(a, a))
    && (forall a, b, c :: lt(a, b) && lt(b, c) ==> lt(a, c))
    && (forall a, b :: a != b ==> lt(a, b) || lt(b, a))
  }

  predicate StrictlySorted<T>(s: seq<T>, lt: (T, T) -> bool) {
    forall i, j :: 0 <= i < j < |s| ==> lt(s[i], s[j])
  }

  /** `m` is the least element of `s` under `lt`. */
  predicate IsLeast<T(==)>(m: T, s: set<T>, lt: (T, T) -> bool) {
    m in s && forall x :: x in s && x != m ==> lt(m, x)
  }

  lemma {:induction false} LeastExists<T(!new)>(s: set<T>, lt: (T, T) -> bool)
    requires StrictTotalOrder(lt)
    requires s != {}
    ensures exists m :: IsLeast(m, s, lt)
    decreases |s|
  {
    var y :| y in s;
    if s == {y} {
      assert IsLeast(y, s, lt);
    } else {
      var rest := s - {y};
      LeastExists(rest, lt);
      var m :| IsLeast(m, rest, lt);
      if lt(y, m) {
        forall x | x in s && x != y ensures lt(y, x) {
          if x != m {
            assert lt(m, x);
          }
        }
        assert IsLeast(y, s, lt);
      } else {
        assert IsLeast(m, s, lt);
      }
    }
  }

  /**
   * The elements of `s` in ascending order: the least element first, then
   * the rest sorted. `SortSetSpec` states what this computes.
   */
  function SortSet<T(==, !new)>(s: set<T>, lt: (T, T) -> bool): seq<T>
    requires StrictTotalOrder(lt)
    decreases |s|
  {
    if s == {} then []
    else
      LeastExists(s, lt);
      var m :| IsLeast(m, s, lt);
      [m] + SortSet(s - {m}, lt)
  }

  /** The sorted sequence is strictly ascending and holds exactly the elements of `s`. */
  lemma {:induction false} SortSetSpec<T(!new)>(s: set<T>, lt: (T, T) -> bool)
    requires StrictTotalOrder(lt)
    ensures StrictlySorted(SortSet(s, lt), lt)
    ensures forall x :: x in SortSet(s, lt) <==> x in s
    ensures |SortSet(s, lt)| == |s|
    decreases |s|
  {
    if s != {} {
      var r := SortSet(s, lt);
      var m := r[0];
      assert IsLeast(m, s, lt) && r == [m] + SortSet(s - {m}, lt);
      var rest := SortSet(s - {m}, lt);
      SortSetSpec(s - {m}, lt);
      forall i, j | 0 <= i < j < |r| ensures lt(r[i], r[j]) {
        if i == 0 {
          assert r[j] == rest[j - 1] && r[j] in s - {m};
        } else {
          assert r[i] == rest[i - 1] && r[j] == rest[j - 1];
        }
      }
    }
  }

  /** A sequence has at most as many distinct elements as it has entries. */
  lemma {:induction false} DistinctBound<T>(s: seq<T>)
    ensures |set x | x in s| <= |s|
  {
    if s != [] {
      DistinctBound(s[1..]);
      assert (set x | x in s) == (set x | x in s[1..]) + {s[0]};
    }
  }

  /**
   * Python's `<` on strings: lexicographic by code point, a proper prefix
   * coming first.
   */
  predicate Less(a: string, b: string)
    decreases |a|
  {
    |b| > 0 && (|a| == 0 || a[0] < b[0] || (a[0] == b[0] && Less(a[1..], b[1..])))
  }

  lemma {:induction false} LessIrreflexive(a: string)
    ensures !Less(a, a)
    decreases |a|
  {
    if |a| > 0 {
      LessIrreflexive(a[1..]);
    }
  }

  lemma {:induction false} LessTransitive(a: string, b: string, c: string)
    requires Less(a, b) && Less(b, c)
    ensures Less(a, c)
    decreases |a|
  {
    if |a| > 0 && a[0] == b[0] && b[0] == c[0] {
      LessTransitive(a[1..], b[1..], c[1..]);
    }
  }

  lemma {:induction false} LessTotal(a: string, b: string)
    requires a != b
    ensures Less(a, b) || Less(b, a)
    decreases |a|
  {
    if |a| > 0 && |b| > 0 && a[0] == b[0] {
      assert a == [a[0]] + a[1..] && b == [b[0]] + b[1..];
      LessTotal(a[1..], b[1..]);
    }
  }

  lemma LessIsStrictTotalOrder()
    ensures StrictTotalOrder(Less)
  {
    forall a: string ensures !Less(a, a) {
      LessIrreflexive(a);
    }
    forall a: string, b: string, c: string | Less(a, b) && Less(b, c)
      ensures Less(a, c)
    {
      LessTransitive(a, b, c);
    }
    forall a: string, b: string | a != b
      ensures Less(a, b) || Less(b, a)
    {
      LessTotal(a, b);
    }
  }
}
