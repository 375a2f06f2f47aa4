/**
 * Python's `sorted` is a stable sort. The simulator sorts three lists with it: the
 * queued arrivals of a buffer (by waiting time), and the candidate child cells of a
 * distribution cell (ascending by best-path count, or descending by consecutive steps).
 * This module models that sort as a stable insertion sort under a total preorder `le`
 * ("key(a) <= key(b)") and proves what the callers rely on: the first element of the
 * sorted list that satisfies a filter is the earliest element of the ORIGINAL list
 * whose key is minimal among those satisfying the filter.
 */
module Sorting {
  import opened Wrappers
  import opened Lists

  /** `le` is total and transitive on the elements of `xs`. */
  ghost predicate TotalPreorderOn<T>(xs: seq<T>, le: (T, T) -> bool) {
    && (forall x, y | x in xs && y in xs :: le(x, y) || le(y, x))
    && (forall x, y, z | x in xs && y in xs && z in xs :: le(x, y) && le(y, z) ==> le(x, z))
  }

  lemma PreorderSubset<T>(xs: seq<T>, ys: seq<T>, le: (T, T) -> bool)
    requires TotalPreorderOn(xs, le)
    requires forall y | y in ys :: y in xs
    ensures TotalPreorderOn(ys, le)
  {
  }

  ghost predicate Sorted<T>(s: seq<T>, le: (T, T) -> bool) {
    forall i, j :: 0 <= i < j < |s| ==> le(s[i], s[j])
  }

  /** Inserts `x` before the first element that is not strictly smaller than it. */
  function Insert<T>(x: T, s: seq<T>, le: (T, T) -> bool): seq<T> {
    if s == [] then [x]
    else if le(x, s[0]) then [x] + s
    else [s[0]] + Insert(x, s[1..], le)
  }

  /** Stable sort: an element that comes earlier in `s` stays before later ones with an equal key. */
  function SortBy<T>(s: seq<T>, le: (T, T) -> bool): seq<T> {
    if s == [] then [] else Insert(s[0], SortBy(s[1..], le), le)
  }

  /** The first element satisfying `p`, scanning from the front (Python's first-match loop). */
  function FirstWhere<T>(s: seq<T>, p: T -> bool): (r: Option<T>)
    ensures r.Some? ==> r.value in s && p(r.value)
    ensures r.Some? ==> exists k :: 0 <= k < |s| && s[k] == r.value && forall j :: 0 <= j < k ==> !p(s[j])
    ensures r.None? <==> forall i :: 0 <= i < |s| ==> !p(s[i])
  {
    if s == [] then None
    else if p(s[0]) then Some(s[0])
    else
      var r := FirstWhere(s[1..], p);
      assert r.Some? ==> exists k :: 0 <= k < |s| - 1 && s[1..][k] == r.value && forall j :: 0 <= j < k ==> !p(s[1..][j]);
      r
  }

  /** Scanning a filtered list is scanning the list for both conditions (`r` is `p && q`). */
  lemma {:induction false} FirstWhereFilter<T>(s: seq<T>, p: T -> bool, q: T -> bool, r: T -> bool)
    requires forall x :: r(x) == (p(x) && q(x))
    ensures FirstWhere(Filter(s, p), q) == FirstWhere(s, r)
  {
    if s != [] {
      FirstWhereFilter(s[1..], p, q, r);
      if p(s[0]) {
        assert Filter(s, p) == [s[0]] + Filter(s[1..], p);
      } else {
        assert Filter(s, p) == Filter(s[1..], p);
      }
    }
  }

  /** The head of a filtered list is the first match. */
  lemma {:induction false} FirstIsHead<T>(s: seq<T>, p: T -> bool)
    ensures Filter(s, p) != [] <==> FirstWhere(s, p).Some?
    ensures Filter(s, p) != [] ==> Filter(s, p)[0] == FirstWhere(s, p).value
  {
    if s != [] {
      FirstIsHead(s[1..], p);
    }
  }

  /**
   * Reference definition without sorting: the earliest element satisfying `p` whose key
   * is minimal among all elements satisfying `p`.
   */
  function FirstMinimal<T>(s: seq<T>, p: T -> bool, le: (T, T) -> bool): Option<T> {
    if s == [] then None
    else
      var rest := FirstMinimal(s[1..], p, le);
      if !p(s[0]) then rest
      else if rest.Some? && !le(s[0], rest.value) then rest
      else Some(s[0])
  }

  lemma {:induction false} InsertMultiset<T>(x: T, s: seq<T>, le: (T, T) -> bool)
    ensures multiset(Insert(x, s, le)) == multiset(s) + multiset{x}
  {
    if s == [] {
    } else if le(x, s[0]) {
    } else {
      InsertMultiset(x, s[1..], le);
      assert s == [s[0]] + s[1..];
    }
  }

  lemma {:induction false} SortByMultiset<T>(s: seq<T>, le: (T, T) -> bool)
    ensures multiset(SortBy(s, le)) == multiset(s)
    ensures |SortBy(s, le)| == |s|
  {
    if s != [] {
      SortByMultiset(s[1..], le);
      InsertMultiset(s[0], SortBy(s[1..], le), le);
      assert s == [s[0]] + s[1..];
    }
  }

  lemma {:induction false} InsertSorted<T>(x: T, s: seq<T>, le: (T, T) -> bool)
    requires TotalPreorderOn([x] + s, le)
    requires Sorted(s, le)
    ensures Sorted(Insert(x, s, le), le)
    ensures multiset(Insert(x, s, le)) == multiset(s) + multiset{x}
  {
    InsertMultiset(x, s, le);
    if s != [] && !le(x, s[0]) {
      var tail := s[1..];
      PreorderSubset([x] + s, [x] + tail, le);
      InsertSorted(x, tail, le);
      var r := Insert(x, tail, le);
      InsertMultiset(x, tail, le);
      forall j | 0 <= j < |r| ensures le(s[0], r[j]) {
        assert r[j] in multiset(tail) + multiset{x};
        if r[j] == x {
        } else {
          assert r[j] in tail;
          var k :| 0 <= k < |tail| && tail[k] == r[j];
          assert s[k + 1] == r[j];
        }
      }
    }
  }

  lemma {:induction false} SortBySorted<T>(s: seq<T>, le: (T, T) -> bool)
    requires TotalPreorderOn(s, le)
    ensures Sorted(SortBy(s, le), le)
  {
    if s != [] {
      PreorderSubset(s, s[1..], le);
      SortBySorted(s[1..], le);
      SortByPreorder(s[1..], le);
      PreorderSubset(s, [s[0]] + SortBy(s[1..], le), le);
      InsertSorted(s[0], SortBy(s[1..], le), le);
    }
  }

  /** Sorting keeps the elements, so it keeps a preorder that holds on them. */
  lemma SortByPreorder<T>(s: seq<T>, le: (T, T) -> bool)
    ensures forall y | y in SortBy(s, le) :: y in s
  {
    SortByMultiset(s, le);
    forall y | y in SortBy(s, le) ensures y in s {
      assert y in multiset(SortBy(s, le));
    }
  }

  lemma {:induction false} FirstWhereInsert<T>(x: T, s: seq<T>, p: T -> bool, le: (T, T) -> bool)
    requires TotalPreorderOn([x] + s, le)
    requires Sorted(s, le)
    ensures FirstWhere(Insert(x, s, le), p) ==
      var rest := FirstWhere(s, p);
      if !p(x) then rest
      else if rest.Some? && !le(x, rest.value) then rest
      else Some(x)
  {
    if s == [] {
    } else if le(x, s[0]) {
      var rest := FirstWhere(s, p);
      if p(x) && rest.Some? {
        var k :| 0 <= k < |s| && s[k] == rest.value;
        assert le(s[0], s[k]) || k == 0;
      }
      assert Insert(x, s, le) == [x] + s;
    } else {
      assert Sorted(s[1..], le);
      PreorderSubset([x] + s, [x] + s[1..], le);
      FirstWhereInsert(x, s[1..], p, le);
      assert Insert(x, s, le) == [s[0]] + Insert(x, s[1..], le);
    }
  }

  /** The sort-then-scan the source performs selects the earliest minimal eligible element. */
  lemma {:induction false} FirstWhereSorted<T>(s: seq<T>, p: T -> bool, le: (T, T) -> bool)
    requires TotalPreorderOn(s, le)
    ensures FirstWhere(SortBy(s, le), p) == FirstMinimal(s, p, le)
  {
    if s != [] {
      PreorderSubset(s, s[1..], le);
      FirstWhereSorted(s[1..], p, le);
      SortBySorted(s[1..], le);
      SortByPreorder(s[1..], le);
      PreorderSubset(s, [s[0]] + SortBy(s[1..], le), le);
      FirstWhereInsert(s[0], SortBy(s[1..], le), p, le);
    }
  }

  /** What FirstMinimal means: an eligible element, no eligible key below it, and every
      earlier eligible element has a strictly greater key (ties go to the earliest). */
  lemma {:induction false} FirstMinimalProperties<T>(s: seq<T>, p: T -> bool, le: (T, T) -> bool)
    requires TotalPreorderOn(s, le)
    ensures FirstMinimal(s, p, le).None? <==> forall i :: 0 <= i < |s| ==> !p(s[i])
    ensures FirstMinimal(s, p, le).Some? ==>
      exists k :: 0 <= k < |s| && s[k] == FirstMinimal(s, p, le).value && p(s[k]) &&
        (forall j :: 0 <= j < |s| && p(s[j]) ==> le(s[k], s[j])) &&
        (forall j :: 0 <= j < k && p(s[j]) ==> !le(s[j], s[k]))
  {
    if s != [] {
      PreorderSubset(s, s[1..], le);
      FirstMinimalProperties(s[1..], p, le);
      var rest := FirstMinimal(s[1..], p, le);
      var r := FirstMinimal(s, p, le);
      if r.Some? {
        if !p(s[0]) || (rest.Some? && !le(s[0], rest.value)) {
          var k' :| 0 <= k' < |s| - 1 && s[1..][k'] == rest.value && p(s[1..][k']) &&
            (forall j :: 0 <= j < |s| - 1 && p(s[1..][j]) ==> le(s[1..][k'], s[1..][j])) &&
            (forall j :: 0 <= j < k' && p(s[1..][j]) ==> !le(s[1..][j], s[1..][k']));
          var k := k' + 1;
          assert s[k] == r.value;
          forall j | 0 <= j < |s| && p(s[j]) ensures le(s[k], s[j]) {
            if j == 0 {
              assert !le(s[0], s[k]);
            } else {
              assert s[j] == s[1..][j - 1];
            }
          }
          forall j | 0 <= j < k && p(s[j]) ensures !le(s[j], s[k]) {
            if j > 0 { assert s[j] == s[1..][j - 1]; }
          }
        } else {
          forall j | 0 <= j < |s| && p(s[j]) ensures le(s[0], s[j]) {
            if j > 0 {
              assert s[j] == s[1..][j - 1];
              if rest.Some? {
                var k' :| 0 <= k' < |s| - 1 && s[1..][k'] == rest.value && p(s[1..][k']) &&
                  (forall i :: 0 <= i < |s| - 1 && p(s[1..][i]) ==> le(s[1..][k'], s[1..][i])) &&
                  (forall i :: 0 <= i < k' && p(s[1..][i]) ==> !le(s[1..][i], s[1..][k']));
                assert le(rest.value, s[j]);
              }
            }
          }
          assert s[0] == r.value;
        }
      }
    }
    FirstMinimalNone(s, p, le);
  }

  /** FirstMinimal finds nothing exactly when no element is eligible. */
  lemma {:induction false} FirstMinimalNone<T>(s: seq<T>, p: T -> bool, le: (T, T) -> bool)
    ensures FirstMinimal(s, p, le).None? <==> forall i :: 0 <= i < |s| ==> !p(s[i])
  {
    if s != [] {
      FirstMinimalNone(s[1..], p, le);
      assert forall i :: 1 <= i < |s| ==> s[i] == s[1..][i - 1];
    }
  }
}
