/** The two iterator adapters the device relations are built from,
    `Iterator::filter` and `Iterator::max_by_key`, over a finite sequence.

    The lazy iterator is modelled by the sequence of items it yields. Both
    adapters consume their input front to back, so they are written as
    recursion on the prefix `s[..|s| - 1]`: the result for `s` is the
    result for all but the last item, updated with the last item.
 */
module Iter {

  datatype Option<T> = None | Some(value: T)

  /** `s.iter().filter(keep)`: the items of `s` for which `keep` holds, in
      the order of `s` (FilterIsSubsequence, FilterAppend), each as often as
      it occurs in `s` (FilterMembers). */
  function Filter<T(!new)>(s: seq<T>, keep: T -> bool): (r: seq<T>)
    ensures |r| <= |s|
    ensures forall i :: 0 <= i < |r| ==> keep(r[i])
    decreases |s|
  {
    if s == [] then []
    else
      var init, last := s[..|s| - 1], s[|s| - 1];
      assert s == init + [last];
      Filter(init, keep) + (if keep(last) then [last] else [])
  }

  /** An item is yielded by the filter exactly when it is in the input and
      passes the test, and then as often as it occurs in the input. */
  lemma {:induction false} FilterMembers<T(!new)>(s: seq<T>, keep: T -> bool, x: T)
    ensures x in Filter(s, keep) <==> x in s && keep(x)
    ensures multiset(Filter(s, keep))[x] == if keep(x) then multiset(s)[x] else 0
    decreases |s|
  {
    if s != [] {
      var init, last := s[..|s| - 1], s[|s| - 1];
      assert s == init + [last];
      FilterMembers(init, keep, x);
      assert multiset(s) == multiset(init) + multiset([last]);
      if keep(last) {
        assert Filter(s, keep) == Filter(init, keep) + [last];
      } else {
        assert Filter(s, keep) == Filter(init, keep);
      }
    }
  }

  /** `a` is `b` with some items left out and the rest kept in order. */
  predicate IsSubsequence<T(==)>(a: seq<T>, b: seq<T>)
    decreases |b|
  {
    if a == [] then true
    else if b == [] then false
    else
      (a[|a| - 1] == b[|b| - 1] && IsSubsequence(a[..|a| - 1], b[..|b| - 1]))
      || IsSubsequence(a, b[..|b| - 1])
  }

  /** Filtering keeps the order of the items it keeps. */
  lemma {:induction false} FilterIsSubsequence<T(!new)>(s: seq<T>, keep: T -> bool)
    ensures IsSubsequence(Filter(s, keep), s)
    decreases |s|
  {
    if s != [] {
      var init, last := s[..|s| - 1], s[|s| - 1];
      FilterIsSubsequence(init, keep);
      if keep(last) {
        var r := Filter(s, keep);
        assert r == Filter(init, keep) + [last];
        assert r[..|r| - 1] == Filter(init, keep);
      } else {
        assert Filter(s, keep) == Filter(init, keep);
        assert s[..|s| - 1] == init;
      }
    }
  }

  /** Filtering a concatenation filters each part: everything kept from the
      front part comes before everything kept from the back part. */
  lemma {:induction false} FilterAppend<T(!new)>(a: seq<T>, b: seq<T>, keep: T -> bool)
    ensures Filter(a + b, keep) == Filter(a, keep) + Filter(b, keep)
    decreases |b|
  {
    if b == [] {
      assert a + b == a;
    } else {
      var init, last := b[..|b| - 1], b[|b| - 1];
      assert (a + b)[..|a + b| - 1] == a + init;
      assert (a + b)[|a + b| - 1] == last;
      FilterAppend(a, init, keep);
    }
  }

  /** A filter that every item passes yields the whole input. */
  lemma {:induction false} FilterKeepsAll<T(!new)>(s: seq<T>, keep: T -> bool)
    requires forall i :: 0 <= i < |s| ==> keep(s[i])
    ensures Filter(s, keep) == s
    decreases |s|
  {
    if s != [] {
      FilterKeepsAll(s[..|s| - 1], keep);
      assert s == s[..|s| - 1] + [s[|s| - 1]];
    }
  }

  /** A filter that no item passes yields nothing. */
  lemma {:induction false} FilterDropsAll<T(!new)>(s: seq<T>, keep: T -> bool)
    requires forall i :: 0 <= i < |s| ==> !keep(s[i])
    ensures Filter(s, keep) == []
    decreases |s|
  {
    if s != [] {
      FilterDropsAll(s[..|s| - 1], keep);
    }
  }

  /** A filter that keeps exactly the items at positions `lo` to `hi - 1`
      yields that slice. */
  lemma {:induction false} FilterKeepsSlice<T(!new)>(s: seq<T>, keep: T -> bool, lo: nat, hi: nat)
    requires lo <= hi <= |s|
    requires forall i :: 0 <= i < lo ==> !keep(s[i])
    requires forall i :: lo <= i < hi ==> keep(s[i])
    requires forall i :: hi <= i < |s| ==> !keep(s[i])
    ensures Filter(s, keep) == s[lo..hi]
  {
    var front, middle, back := s[..lo], s[lo..hi], s[hi..];
    FilterDropsAll(front, keep);
    FilterKeepsAll(middle, keep);
    FilterDropsAll(back, keep);
    assert Filter(front + middle, keep) == middle by {
      FilterAppend(front, middle, keep);
    }
    assert s == (front + middle) + back;
    FilterAppend(front + middle, back, keep);
  }

  /** Two filters in a row are one filter by the conjunction of their tests. */
  lemma {:induction false} FilterFilter<T(!new)>(s: seq<T>, first: T -> bool, second: T -> bool, both: T -> bool)
    requires forall x :: both(x) == (first(x) && second(x))
    ensures Filter(Filter(s, first), second) == Filter(s, both)
    decreases |s|
  {
    if s != [] {
      var init, last := s[..|s| - 1], s[|s| - 1];
      FilterFilter(init, first, second, both);
      if first(last) {
        var f := Filter(s, first);
        assert f == Filter(init, first) + [last];
        assert f[..|f| - 1] == Filter(init, first);
      } else {
        assert Filter(s, first) == Filter(init, first);
        assert !both(last);
      }
    }
  }

  /** `s.into_iter().max_by_key(key)`: None on an empty input; otherwise an
      item of greatest key. It folds front to back and replaces the current
      maximum whenever the next item's key is not smaller, so among items of
      equal greatest key it returns the LAST one (MaxByKeyIsLast). */
  function MaxByKey<T(==,!new)>(s: seq<T>, key: T -> nat): (r: Option<T>)
    ensures r.None? <==> s == []
    ensures r.Some? ==> r.value in s && forall x :: x in s ==> key(x) <= key(r.value)
    decreases |s|
  {
    if s == [] then None
    else
      var init, last := s[..|s| - 1], s[|s| - 1];
      assert s == init + [last];
      match MaxByKey(init, key)
      case None => Some(last)
      case Some(m) => if key(m) <= key(last) then Some(last) else Some(m)
  }

  /** `i` is a position of `s` after which every key is strictly smaller
      than the key at `i`. */
  ghost predicate NothingAsGreatAfter<T>(s: seq<T>, key: T -> nat, i: int) {
    0 <= i < |s| && forall j :: i < j < |s| ==> key(s[j]) < key(s[i])
  }

  /** The tie-breaking rule: the maximum is found at a position after which
      no item has as great a key, i.e. it is the last of the greatest. */
  lemma {:induction false} MaxByKeyIsLast<T(!new)>(s: seq<T>, key: T -> nat)
    ensures MaxByKey(s, key).Some? ==>
      exists i :: NothingAsGreatAfter(s, key, i) && s[i] == MaxByKey(s, key).value
    decreases |s|
  {
    if s != [] {
      var init, last := s[..|s| - 1], s[|s| - 1];
      MaxByKeyIsLast(init, key);
      if MaxByKey(s, key) == Some(last) {
        assert NothingAsGreatAfter(s, key, |s| - 1);
      } else {
        var m := MaxByKey(init, key).value;
        var i :| NothingAsGreatAfter(init, key, i) && init[i] == m;
        assert NothingAsGreatAfter(s, key, i);
      }
    }
  }

  /** `i` is a position of `s` after which every item that passes `keep`
      has a key strictly smaller than the key at `i`. */
  ghost predicate NothingKeptAsGreatAfter<T>(s: seq<T>, keep: T -> bool, key: T -> nat, i: int) {
    0 <= i < |s| && forall j :: i < j < |s| && keep(s[j]) ==> key(s[j]) < key(s[i])
  }

  /** One step of the fold: appending an item to the input. */
  lemma MaxByKeySnoc<T(!new)>(t: seq<T>, x: T, key: T -> nat)
    ensures MaxByKey(t + [x], key) ==
      match MaxByKey(t, key)
      case None => Some(x)
      case Some(m) => if key(m) <= key(x) then Some(x) else Some(m)
  {
    assert (t + [x])[..|t + [x]| - 1] == t;
  }

  /** One step of the filter: removing the last item of the input. */
  lemma FilterSnoc<T(!new)>(s: seq<T>, keep: T -> bool)
    requires s != []
    ensures Filter(s, keep) == Filter(s[..|s| - 1], keep) + (if keep(s[|s| - 1]) then [s[|s| - 1]] else [])
  {
  }

  /** A position that has nothing as great kept after it in a prefix of
      `s` keeps that property in `s` when the items that follow it are either
      dropped by the filter or of smaller key. */
  lemma NothingKeptAsGreatAfterExtends<T>(s: seq<T>, keep: T -> bool, key: T -> nat, n: nat, i: int)
    requires n <= |s| && NothingKeptAsGreatAfter(s[..n], keep, key, i)
    requires forall j :: n <= j < |s| && keep(s[j]) ==> key(s[j]) < key(s[i])
    ensures NothingKeptAsGreatAfter(s, keep, key, i)
  {
    forall j | i < j < |s| && keep(s[j])
      ensures key(s[j]) < key(s[i])
    {
      if j < n {
        assert s[..n][j] == s[j];
      }
    }
  }

  /** The tie-breaking rule seen through a filter: the greatest item kept is
      found in the unfiltered sequence at a position after which every item
      kept has a strictly smaller key. */
  lemma {:induction false} MaxByKeyOfFilter<T(!new)>(s: seq<T>, keep: T -> bool, key: T -> nat)
    ensures MaxByKey(Filter(s, keep), key).Some? ==>
      exists i :: NothingKeptAsGreatAfter(s, keep, key, i) && s[i] == MaxByKey(Filter(s, keep), key).value
    decreases |s|
  {
    if s != [] {
      var init, last := s[..|s| - 1], s[|s| - 1];
      var g := Filter(init, keep);
      FilterSnoc(s, keep);
      MaxByKeyOfFilter(init, keep, key);
      var r := MaxByKey(Filter(s, keep), key);
      if r == Some(last) {
        assert NothingKeptAsGreatAfter(s, keep, key, |s| - 1);
      } else if r.Some? {
        if keep(last) {
          assert Filter(s, keep) == g + [last];
          MaxByKeySnoc(g, last, key);
        } else {
          assert Filter(s, keep) == g;
        }
        var i :| NothingKeptAsGreatAfter(init, keep, key, i) && init[i] == r.value;
        NothingKeptAsGreatAfterExtends(s, keep, key, |s| - 1, i);
      }
    }
  }
}
