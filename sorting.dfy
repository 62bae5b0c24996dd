/**
 * `Array.prototype.sort` with a consistent comparator. Since ES2019 the sort
 * is stable, so its result is that of a stable insertion sort; `le(a, b)`
 * stands for `compare(a, b) <= 0`.
 */
module Sorting {
  import opened Lists

  ghost predicate Total<T(!new)>(le: (T, T) -> bool) {
    forall a, b :: le(a, b) || le(b, a)
  }

  ghost predicate Transitive<T(!new)>(le: (T, T) -> bool) {
    forall a, b, c :: le(a, b) && le(b, c) ==> le(a, c)
  }

  predicate SortedBy<T>(s: seq<T>, le: (T, T) -> bool) {
    forall i, j :: 0 <= i < j < |s| ==> le(s[i], s[j])
  }

  /** Inserts `x` before the first element it does not come after. */
  function Insert<T>(x: T, s: seq<T>, le: (T, T) -> bool): seq<T> {
    if s == [] then [x]
    else if le(x, s[0]) then [x] + s
    else [s[0]] + Insert(x, s[1..], le)
  }

  /** The stable sort of `s` by `le`. */
  function SortBy<T>(s: seq<T>, le: (T, T) -> bool): seq<T> {
    if s == [] then [] else Insert(s[0], SortBy(s[1..], le), le)
  }

  lemma {:induction false} InsertPermutes<T>(x: T, s: seq<T>, le: (T, T) -> bool)
    ensures multiset(Insert(x, s, le)) == multiset(s) + multiset{x}
  {
    if s != [] && !le(x, s[0]) {
      InsertPermutes(x, s[1..], le);
      assert s == [s[0]] + s[1..];
    }
  }

  /** Sorting only reorders: the result is a permutation of the input. */
  lemma {:induction false} SortByPermutes<T>(s: seq<T>, le: (T, T) -> bool)
    ensures multiset(SortBy(s, le)) == multiset(s)
  {
    if s != [] {
      SortByPermutes(s[1..], le);
      InsertPermutes(s[0], SortBy(s[1..], le), le);
      assert s == [s[0]] + s[1..];
    }
  }

  lemma {:induction false} InsertSorted<T(!new)>(x: T, s: seq<T>, le: (T, T) -> bool)
    requires Total(le) && Transitive(le) && SortedBy(s, le)
    ensures SortedBy(Insert(x, s, le), le)
  {
    if s != [] && !le(x, s[0]) {
      InsertSorted(x, s[1..], le);
      InsertPermutes(x, s[1..], le);
      var r := Insert(x, s[1..], le);
      forall j | 0 <= j < |r| ensures le(s[0], r[j]) {
        assert r[j] in multiset(r);
        if r[j] != x {
          assert r[j] in multiset(s[1..]);
          var k :| 0 <= k < |s[1..]| && s[1..][k] == r[j];
          assert s[k + 1] == r[j];
        }
      }
    }
  }

  /** Under a total preorder the result is sorted. */
  lemma {:induction false} SortBySorted<T(!new)>(s: seq<T>, le: (T, T) -> bool)
    requires Total(le) && Transitive(le)
    ensures SortedBy(SortBy(s, le), le)
  {
    if s != [] {
      SortBySorted(s[1..], le);
      InsertSorted(s[0], SortBy(s[1..], le), le);
    }
  }

  lemma {:induction false} InsertLength<T>(x: T, s: seq<T>, le: (T, T) -> bool)
    ensures |Insert(x, s, le)| == |s| + 1
  {
    if s != [] && !le(x, s[0]) {
      InsertLength(x, s[1..], le);
    }
  }

  /** Sorting keeps the length. */
  lemma {:induction false} SortByLength<T>(s: seq<T>, le: (T, T) -> bool)
    ensures |SortBy(s, le)| == |s|
  {
    if s != [] {
      SortByLength(s[1..], le);
      InsertLength(s[0], SortBy(s[1..], le), le);
    }
  }

  /**
   * Inserting `x` puts it ahead of every element of its own class (a class
   * whose members all compare as equal), and leaves that class's order alone.
   */
  lemma {:induction false} InsertFilter<T>(x: T, s: seq<T>, le: (T, T) -> bool, p: T -> bool)
    requires forall a, b :: p(a) && p(b) ==> le(a, b)
    ensures Filter(Insert(x, s, le), p) == (if p(x) then [x] + Filter(s, p) else Filter(s, p))
  {
    if s == [] {
    } else if le(x, s[0]) {
      assert ([x] + s)[1..] == s;
    } else {
      InsertFilter(x, s[1..], le, p);
      var r := [s[0]] + Insert(x, s[1..], le);
      assert r[1..] == Insert(x, s[1..], le);
      if p(x) {
        assert !p(s[0]);
      }
    }
  }

  /**
   * Stability: elements that compare as equal keep their relative order, i.e.
   * the sort leaves each such class exactly as it was in the input.
   */
  lemma {:induction false} SortByStable<T>(s: seq<T>, le: (T, T) -> bool, p: T -> bool)
    requires forall a, b :: p(a) && p(b) ==> le(a, b)
    ensures Filter(SortBy(s, le), p) == Filter(s, p)
  {
    if s != [] {
      SortByStable(s[1..], le, p);
      InsertFilter(s[0], SortBy(s[1..], le), le, p);
    }
  }
}
