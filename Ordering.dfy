/** The two orders the viewer keeps paths in: the default `Array.prototype.sort()`
    order (strings compared code unit by code unit) for the full listing, and the
    `localeCompare` order the undo handler uses to place a restored file in the view. */
module Ordering {
  import opened Paths

  /** `a < b` as the default sort compares strings: the first differing character
      decides, and a proper prefix comes first. */
  predicate CodeUnitLess(a: string, b: string)
  {
    if a == [] then b != []
    else if b == [] then false
    else if a[0] != b[0] then a[0] < b[0]
    else CodeUnitLess(a[1..], b[1..])
  }

  lemma {:induction false} CodeUnitLessIrreflexive(a: string)
    ensures !CodeUnitLess(a, a)
  {
    if a != [] {
      CodeUnitLessIrreflexive(a[1..]);
    }
  }

  lemma {:induction false} CodeUnitLessTransitive(a: string, b: string, c: string)
    requires CodeUnitLess(a, b) && CodeUnitLess(b, c)
    ensures CodeUnitLess(a, c)
  {
    if a != [] && b != [] && c != [] && a[0] == b[0] && b[0] == c[0] {
      CodeUnitLessTransitive(a[1..], b[1..], c[1..]);
    }
  }

  /** Two different strings are always ordered one way or the other. */
  lemma {:induction false} CodeUnitLessTotal(a: string, b: string)
    ensures a == b || CodeUnitLess(a, b) || CodeUnitLess(b, a)
  {
    if a != [] && b != [] && a[0] == b[0] {
      CodeUnitLessTotal(a[1..], b[1..]);
      if a[1..] == b[1..] {
        assert a == [a[0]] + a[1..] && b == [b[0]] + b[1..];
      }
    }
  }

  /** `less` is a strict total order on paths (what a collator's `localeCompare(..) < 0`
      is taken to be). */
  ghost predicate IsStrictTotalOrder(less: (Path, Path) -> bool)
  {
    (forall a :: !less(a, a))
    && (forall a, b, c :: less(a, b) && less(b, c) ==> less(a, c))
    && (forall a, b :: a == b || less(a, b) || less(b, a))
  }

  /** The comparison the default sort applies to paths. */
  const DefaultLess: (Path, Path) -> bool := (a: Path, b: Path) => CodeUnitLess(a, b)

  /** The default sort order is a strict total order. */
  lemma CodeUnitOrderIsStrictTotal()
    ensures IsStrictTotalOrder(DefaultLess)
  {
    forall a: Path
      ensures !DefaultLess(a, a)
    {
      CodeUnitLessIrreflexive(a);
    }
    forall a: Path, b: Path, c: Path | DefaultLess(a, b) && DefaultLess(b, c)
      ensures DefaultLess(a, c)
    {
      CodeUnitLessTransitive(a, b, c);
    }
    forall a: Path, b: Path
      ensures a == b || DefaultLess(a, b) || DefaultLess(b, a)
    {
      CodeUnitLessTotal(a, b);
    }
  }

  /** No entry of `s` is less than an entry before it. */
  predicate SortedBy(s: seq<Path>, less: (Path, Path) -> bool)
  {
    forall i, j :: 0 <= i < j < |s| ==> !less(s[j], s[i])
  }

  /** `x` placed before the first entry of `s` that it is less than. */
  function InsertSorted(x: Path, s: seq<Path>, less: (Path, Path) -> bool): (r: seq<Path>)
    ensures multiset(r) == multiset(s) + multiset{x}
    ensures forall y :: y in r <==> y == x || y in s
    ensures |r| == |s| + 1
  {
    if s == [] || less(x, s[0]) then [x] + s
    else
      assert s == [s[0]] + s[1..];
      [s[0]] + InsertSorted(x, s[1..], less)
  }

  lemma {:induction false} InsertSortedKeepsOrder(x: Path, s: seq<Path>, less: (Path, Path) -> bool)
    requires IsStrictTotalOrder(less)
    requires SortedBy(s, less)
    ensures SortedBy(InsertSorted(x, s, less), less)
  {
    var r := InsertSorted(x, s, less);
    if s == [] {
    } else if less(x, s[0]) {
      forall i, j | 0 <= i < j < |r|
        ensures !less(r[j], r[i])
      {
        assert r[j] == s[j - 1];
        if i == 0 {
          if less(s[j - 1], x) {
            assert false;
          }
        } else {
          assert r[i] == s[i - 1];
        }
      }
    } else {
      var tail := InsertSorted(x, s[1..], less);
      InsertSortedKeepsOrder(x, s[1..], less);
      forall i, j | 0 <= i < j < |r|
        ensures !less(r[j], r[i])
      {
        assert r[j] == tail[j - 1];
        if i == 0 {
          assert r[j] in tail;
          if r[j] != x {
            var k :| 0 <= k < |s[1..]| && s[1..][k] == r[j];
            assert s[k + 1] == r[j];
          }
        } else {
          assert r[i] == tail[i - 1];
        }
      }
    }
  }

  /** Insertion sort by `less`. */
  function SortBy(s: seq<Path>, less: (Path, Path) -> bool): (r: seq<Path>)
    ensures multiset(r) == multiset(s)
    ensures |r| == |s|
  {
    if s == [] then []
    else
      assert s == [s[0]] + s[1..];
      InsertSorted(s[0], SortBy(s[1..], less), less)
  }

  lemma {:induction false} SortByIsSorted(s: seq<Path>, less: (Path, Path) -> bool)
    requires IsStrictTotalOrder(less)
    ensures SortedBy(SortBy(s, less), less)
  {
    if s != [] {
      SortByIsSorted(s[1..], less);
      InsertSortedKeepsOrder(s[0], SortBy(s[1..], less), less);
    }
  }

  /** `s.sort()`: the arrangement of `s` in the default order. */
  function Sort(s: seq<Path>): (r: seq<Path>)
    ensures multiset(r) == multiset(s)
  {
    SortBy(s, DefaultLess)
  }

  /** `sort()` leaves its array in order. */
  lemma SortIsSorted(s: seq<Path>)
    ensures SortedBy(Sort(s), DefaultLess)
  {
    CodeUnitOrderIsStrictTotal();
    SortByIsSorted(s, DefaultLess);
  }

  lemma MultisetOfTail(s: seq<Path>)
    requires s != []
    ensures multiset(s[1..]) == multiset(s) - multiset{s[0]}
  {
    assert s == [s[0]] + s[1..];
  }

  /** Two sorted arrangements of one multiset start with the same entry. */
  lemma SortedHeadsAgree(a: seq<Path>, b: seq<Path>, less: (Path, Path) -> bool)
    requires IsStrictTotalOrder(less)
    requires SortedBy(a, less) && SortedBy(b, less)
    requires multiset(a) == multiset(b) && a != []
    ensures b != [] && a[0] == b[0]
  {
    assert a[0] in multiset(b);
    var i :| 0 <= i < |b| && b[i] == a[0];
    assert b[0] in multiset(a);
    var j :| 0 <= j < |a| && a[j] == b[0];
    if a[0] != b[0] {
      assert false;
    }
  }

  /** Under a strict total order a multiset has only one sorted arrangement, so the
      order `sort()` produces is determined by the elements alone. */
  lemma {:induction false} SortedArrangementUnique(a: seq<Path>, b: seq<Path>, less: (Path, Path) -> bool)
    requires IsStrictTotalOrder(less)
    requires SortedBy(a, less) && SortedBy(b, less)
    requires multiset(a) == multiset(b)
    ensures a == b
  {
    if a == [] {
      assert |b| == |multiset(b)| == 0;
    } else {
      SortedHeadsAgree(a, b, less);
      MultisetOfTail(a);
      MultisetOfTail(b);
      SortedArrangementUnique(a[1..], b[1..], less);
      assert a == [a[0]] + a[1..] && b == [b[0]] + b[1..];
    }
  }

  /** Adding a path to a sorted listing and sorting again inserts it in place. */
  lemma PushThenSortInserts(s: seq<Path>, x: Path)
    requires SortedBy(s, DefaultLess)
    ensures Sort(s + [x]) == InsertSorted(x, s, DefaultLess)
  {
    CodeUnitOrderIsStrictTotal();
    SortIsSorted(s + [x]);
    InsertSortedKeepsOrder(x, s, DefaultLess);
    SortedArrangementUnique(Sort(s + [x]), InsertSorted(x, s, DefaultLess), DefaultLess);
  }

  /** The first index whose entry is not less than `x`: where the undo handler
      puts a restored file. */
  function FirstNotLess(s: seq<Path>, x: Path, less: (Path, Path) -> bool): (k: nat)
    ensures k <= |s|
    ensures forall i :: 0 <= i < k ==> less(s[i], x)
    ensures k < |s| ==> !less(s[k], x)
  {
    if s == [] || !less(s[0], x) then 0 else 1 + FirstNotLess(s[1..], x, less)
  }

  /** The `insertIndex` scan of the undo handler. */
  method InsertIndex(s: seq<Path>, x: Path, less: (Path, Path) -> bool) returns (k: nat)
    ensures k == FirstNotLess(s, x, less)
  {
    k := 0;
    while k < |s| && less(s[k], x)
      invariant k <= |s|
      invariant FirstNotLess(s, x, less) == k + FirstNotLess(s[k..], x, less)
    {
      assert s[k..][1..] == s[k + 1..];
      k := k + 1;
    }
  }

  /** In a sorted view every entry from the insertion point on is at least `x`. */
  lemma FirstNotLessSplitsSorted(s: seq<Path>, x: Path, less: (Path, Path) -> bool)
    requires IsStrictTotalOrder(less)
    requires SortedBy(s, less)
    ensures forall i :: FirstNotLess(s, x, less) <= i < |s| ==> !less(s[i], x)
  {
    var k := FirstNotLess(s, x, less);
    forall i | k < i < |s|
      ensures !less(s[i], x)
    {
      assert !less(s[i], s[k]);
    }
  }
}
