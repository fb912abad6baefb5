/**
 * `array.sort(compare)` with a comparator, as a stable sort: `le(a, b)`
 * holds when `compare(a, b) <= 0`, so `a` may stay in front of `b`.
 * Elements that compare equal keep their input order. Insertion sort is
 * one stable sort; with a comparator that is a total preorder on the
 * elements, every stable sort gives the same result.
 */
module Sorting {
  import Sequences

  /** Places `x` after every element that does not come after it. */
  function InsertBy<T>(x: T, s: seq<T>, le: (T, T) -> bool): (r: seq<T>)
    ensures |r| == |s| + 1
  {
    if s == [] then [x]
    else if !le(s[0], x) then [x] + s
    else [s[0]] + InsertBy(x, s[1..], le)
  }

  /** Sorts by inserting the elements one by one, in input order. */
  function SortBy<T>(s: seq<T>, le: (T, T) -> bool): (r: seq<T>)
    ensures |r| == |s|
  {
    if s == [] then [] else InsertBy(s[|s| - 1], SortBy(s[..|s| - 1], le), le)
  }

  predicate Sorted<T>(s: seq<T>, le: (T, T) -> bool) {
    forall i, j :: 0 <= i < j < |s| ==> le(s[i], s[j])
  }

  /** `le` is total and transitive on the elements of `s`. */
  predicate PreorderOn<T(==,!new)>(s: seq<T>, le: (T, T) -> bool) {
    (forall a, b :: a in s && b in s ==> le(a, b) || le(b, a))
    && (forall a, b, c :: a in s && b in s && c in s && le(a, b) && le(b, c) ==> le(a, c))
  }

  /** Inserting adds exactly `x`, and keeps a duplicate-free sequence duplicate-free when `x` is new. */
  lemma {:induction false} InsertByMembers<T>(x: T, s: seq<T>, le: (T, T) -> bool)
    ensures forall y :: y in InsertBy(x, s, le) <==> y == x || y in s
    ensures Sequences.NoDuplicates(s) && x !in s ==> Sequences.NoDuplicates(InsertBy(x, s, le))
    decreases |s|
  {
    if s != [] && le(s[0], x) {
      InsertByMembers(x, s[1..], le);
      assert s == [s[0]] + s[1..];
      if Sequences.NoDuplicates(s) && x !in s {
        var t := InsertBy(x, s[1..], le);
        assert Sequences.NoDuplicates(s[1..]) by {
          forall i, j | 0 <= i < j < |s[1..]| ensures s[1..][i] != s[1..][j] {
            assert s[1..][i] == s[i + 1] && s[1..][j] == s[j + 1];
          }
        }
        assert s[0] !in t;
        ConsNoDuplicates(s[0], t);
      }
    } else if s != [] {
      if Sequences.NoDuplicates(s) && x !in s {
        ConsNoDuplicates(x, s);
      }
    }
  }

  /** Putting a new element in front keeps a sequence duplicate-free. */
  lemma ConsNoDuplicates<T>(x: T, s: seq<T>)
    requires Sequences.NoDuplicates(s) && x !in s
    ensures Sequences.NoDuplicates([x] + s)
  {
    var r := [x] + s;
    forall i, j | 0 <= i < j < |r| ensures r[i] != r[j] {
      assert r[j] == s[j - 1];
      if i > 0 {
        assert r[i] == s[i - 1];
      }
    }
  }

  /** The sort keeps exactly the elements, and a duplicate-free input stays duplicate-free. */
  lemma {:induction false} SortByMembers<T>(s: seq<T>, le: (T, T) -> bool)
    ensures forall y :: y in SortBy(s, le) <==> y in s
    ensures Sequences.NoDuplicates(s) ==> Sequences.NoDuplicates(SortBy(s, le))
    decreases |s|
  {
    if s != [] {
      var n := |s|;
      var init := s[..n - 1];
      SortByMembers(init, le);
      InsertByMembers(s[n - 1], SortBy(init, le), le);
      assert s == init + [s[n - 1]];
      if Sequences.NoDuplicates(s) {
        assert Sequences.NoDuplicates(init) by {
          forall i, j | 0 <= i < j < |init| ensures init[i] != init[j] {
            assert init[i] == s[i] && init[j] == s[j];
          }
        }
        assert s[n - 1] !in init by {
          forall k | 0 <= k < |init| ensures init[k] != s[n - 1] {
            assert init[k] == s[k];
          }
        }
      }
    }
  }

  /** Inserting into a sorted sequence keeps it sorted. */
  lemma {:induction false} InsertBySorted<T(!new)>(x: T, s: seq<T>, le: (T, T) -> bool, all: seq<T>)
    requires Sorted(s, le) && PreorderOn(all, le)
    requires x in all && forall y :: y in s ==> y in all
    ensures Sorted(InsertBy(x, s, le), le)
    decreases |s|
  {
    if s != [] {
      var r := InsertBy(x, s, le);
      assert s[0] in s;
      if !le(s[0], x) {
        assert le(x, s[0]);
        forall i, j | 0 <= i < j < |r| ensures le(r[i], r[j]) {
          if i == 0 {
            assert r[j] == s[j - 1] && s[j - 1] in s;
            if j > 1 {
              assert le(s[0], s[j - 1]);
            }
          } else {
            assert r[i] == s[i - 1] && r[j] == s[j - 1];
          }
        }
      } else {
        var tail := s[1..];
        assert Sorted(tail, le) by {
          forall i, j | 0 <= i < j < |tail| ensures le(tail[i], tail[j]) {
            assert tail[i] == s[i + 1] && tail[j] == s[j + 1];
          }
        }
        forall y | y in tail ensures y in all {
          assert y in s;
        }
        InsertBySorted(x, tail, le, all);
        var t := InsertBy(x, tail, le);
        InsertByMembers(x, tail, le);
        forall k | 0 <= k < |t| ensures le(s[0], t[k]) {
          assert t[k] in t;
          if t[k] != x {
            var m := Sequences.FirstIndex(tail, t[k]);
            assert tail[m] == s[m + 1];
          }
        }
        HeadBelow(s[0], t, le);
        assert r == [s[0]] + t;
      }
    }
  }

  /** An element below every element of a sorted sequence can go in front. */
  lemma HeadBelow<T>(h: T, t: seq<T>, le: (T, T) -> bool)
    requires Sorted(t, le)
    requires forall k :: 0 <= k < |t| ==> le(h, t[k])
    ensures Sorted([h] + t, le)
  {
    var r := [h] + t;
    forall i, j | 0 <= i < j < |r| ensures le(r[i], r[j]) {
      assert r[j] == t[j - 1];
      if i > 0 {
        assert r[i] == t[i - 1];
      }
    }
  }

  /** With a comparator that is a total preorder on the elements, the sort's output is sorted. */
  lemma {:induction false} SortBySorted<T(!new)>(s: seq<T>, le: (T, T) -> bool)
    requires PreorderOn(s, le)
    ensures Sorted(SortBy(s, le), le)
    decreases |s|
  {
    if s != [] {
      var n := |s|;
      var init := s[..n - 1];
      assert PreorderOn(init, le) by {
        forall y | y in init ensures y in s {
          assert y == init[Sequences.FirstIndex(init, y)];
        }
      }
      SortBySorted(init, le);
      SortByMembers(init, le);
      forall y | y in SortBy(init, le) ensures y in s {
        assert y in init;
        assert y == init[Sequences.FirstIndex(init, y)];
      }
      InsertBySorted(s[n - 1], SortBy(init, le), le, s);
    }
  }
}
