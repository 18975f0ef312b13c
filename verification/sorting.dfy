/**
 * `Array.prototype.sort` with a comparator, which is stable: an insertion
 * sort by a total preorder, with its ordering, permutation and stability
 * facts. Used for the path order of structured search results and the
 * position order of highlight spans.
 */
module Sorting {
  import opened Seqs

  /** `le` is total and transitive (a comparator that never contradicts itself). */
  ghost predicate TotalPreorder<T(!new)>(le: (T, T) -> bool) {
    && (forall a, b :: le(a, b) || le(b, a))
    && (forall a, b, c :: le(a, b) && le(b, c) ==> le(a, c))
  }

  predicate SortedBy<T>(s: seq<T>, le: (T, T) -> bool) {
    forall i, j | 0 <= i < j < |s| :: le(s[i], s[j])
  }

  /** Insert `x` after every element not greater than it. */
  function Insert<T>(x: T, t: seq<T>, le: (T, T) -> bool): (r: seq<T>)
    ensures |r| == |t| + 1
  {
    if |t| == 0 then [x]
    else if le(t[0], x) then [t[0]] + Insert(x, t[1..], le)
    else [x] + t
  }

  /** Stable insertion sort: each element is inserted after its equals. */
  function SortBy<T>(s: seq<T>, le: (T, T) -> bool): (r: seq<T>)
    ensures |r| == |s|
  {
    if |s| == 0 then [] else Insert(s[|s| - 1], SortBy(s[..|s| - 1], le), le)
  }

  lemma {:induction false} InsertMultiset<T>(x: T, t: seq<T>, le: (T, T) -> bool)
    ensures multiset(Insert(x, t, le)) == multiset(t) + multiset{x}
  {
    if |t| > 0 && le(t[0], x) {
      InsertMultiset(x, t[1..], le);
      assert t == [t[0]] + t[1..];
    }
  }

  lemma {:induction false} InsertSorted<T(!new)>(x: T, t: seq<T>, le: (T, T) -> bool)
    requires TotalPreorder(le) && SortedBy(t, le)
    ensures SortedBy(Insert(x, t, le), le)
  {
    if |t| > 0 {
      if le(t[0], x) {
        var rest := Insert(x, t[1..], le);
        InsertSorted(x, t[1..], le);
        InsertMultiset(x, t[1..], le);
        forall j | 0 <= j < |rest| ensures le(t[0], rest[j]) {
          assert rest[j] in multiset(rest);
          if rest[j] != x {
            assert rest[j] in multiset(t[1..]);
            var k :| 0 <= k < |t[1..]| && t[1..][k] == rest[j];
            assert t[k + 1] == rest[j];
          }
        }
      } else {
        assert le(x, t[0]);
      }
    }
  }

  /** The result is ordered by `le`. */
  lemma {:induction false} SortBySorted<T(!new)>(s: seq<T>, le: (T, T) -> bool)
    requires TotalPreorder(le)
    ensures SortedBy(SortBy(s, le), le)
  {
    if |s| > 0 {
      SortBySorted(s[..|s| - 1], le);
      InsertSorted(s[|s| - 1], SortBy(s[..|s| - 1], le), le);
    }
  }

  /** The result is a permutation of the input. */
  lemma {:induction false} SortByPermutation<T>(s: seq<T>, le: (T, T) -> bool)
    ensures multiset(SortBy(s, le)) == multiset(s)
  {
    if |s| > 0 {
      SortByPermutation(s[..|s| - 1], le);
      InsertMultiset(s[|s| - 1], SortBy(s[..|s| - 1], le), le);
      assert s == s[..|s| - 1] + [s[|s| - 1]];
    }
  }

  /** The elements `le`-equivalent to `y`. */
  function EquivTo<T>(le: (T, T) -> bool, y: T): T -> bool {
    (x: T) => le(x, y) && le(y, x)
  }

  lemma {:induction false} InsertStable<T(!new)>(x: T, t: seq<T>, le: (T, T) -> bool, y: T)
    requires TotalPreorder(le) && SortedBy(t, le)
    ensures Filter(Insert(x, t, le), EquivTo(le, y))
            == Filter(t, EquivTo(le, y)) + Filter([x], EquivTo(le, y))
  {
    var e := EquivTo(le, y);
    if |t| == 0 {
    } else if le(t[0], x) {
      InsertStable(x, t[1..], le, y);
      InsertStableAfter(x, t, le, y);
    } else {
      FilterCons(x, t, e);
      FilterCons(x, [], e);
      if e(x) {
        InsertStableFront(x, t, le, y);
      }
    }
  }

  /** The step of `InsertStable` where `x` goes after the head of `t`. */
  lemma InsertStableAfter<T(!new)>(x: T, t: seq<T>, le: (T, T) -> bool, y: T)
    requires |t| > 0 && le(t[0], x)
    requires Filter(Insert(x, t[1..], le), EquivTo(le, y))
             == Filter(t[1..], EquivTo(le, y)) + Filter([x], EquivTo(le, y))
    ensures Filter(Insert(x, t, le), EquivTo(le, y))
            == Filter(t, EquivTo(le, y)) + Filter([x], EquivTo(le, y))
  {
    var e := EquivTo(le, y);
    var tail := t[1..];
    FilterCons(t[0], Insert(x, tail, le), e);
    FilterCons(t[0], tail, e);
    assert t == [t[0]] + tail;
    AppendAssoc(if e(t[0]) then [t[0]] else [], Filter(tail, e), Filter([x], e));
  }

  /** Inserted in front of a sorted `t`, an `x` equivalent to `y` is the only such element. */
  lemma InsertStableFront<T(!new)>(x: T, t: seq<T>, le: (T, T) -> bool, y: T)
    requires TotalPreorder(le) && SortedBy(t, le)
    requires |t| > 0 && !le(t[0], x) && EquivTo(le, y)(x)
    ensures Filter(t, EquivTo(le, y)) == []
  {
    var e := EquivTo(le, y);
    forall i | 0 <= i < |t| ensures !e(t[i]) {
      if 0 < i {
        assert le(t[0], t[i]);
      }
    }
    FilterNone(t, e);
  }

  /**
   * Stability: the elements equivalent to any `y` appear in the output in
   * the same relative order as in the input.
   */
  lemma {:induction false} SortByStable<T(!new)>(s: seq<T>, le: (T, T) -> bool, y: T)
    requires TotalPreorder(le)
    ensures Filter(SortBy(s, le), EquivTo(le, y)) == Filter(s, EquivTo(le, y))
  {
    if |s| > 0 {
      var init, last := s[..|s| - 1], s[|s| - 1];
      SortByStable(init, le, y);
      SortBySorted(init, le);
      InsertStable(last, SortBy(init, le), le, y);
      assert s == init + [last];
      FilterAppend(init, [last], EquivTo(le, y));
    }
  }
}
