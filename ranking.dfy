/**
 * Ordering and selection over sequences, as the pipeline gets them from Python
 * and pandas: filtering rows by a mask, `sorted(..., reverse=True)` / `list.sort`
 * (stable, highest first), and the prefix slice `xs[:n]` / `DataFrame.head(n)`.
 */
module Ranking {

  /** `before(a, b)`: `a` may be listed ahead of `b`. A total preorder ranks every pair. */
  ghost predicate TotalPreorder<T(!new)>(before: (T, T) -> bool) {
    && (forall a, b :: before(a, b) || before(b, a))
    && (forall a, b, c :: before(a, b) && before(b, c) ==> before(a, c))
  }

  /** Every item may precede every later item. */
  ghost predicate Ordered<T>(s: seq<T>, before: (T, T) -> bool) {
    forall i, j :: 0 <= i < j < |s| ==> before(s[i], s[j])
  }

  /** Inserts `x` after every item that may precede it: equal-ranked items keep their order. */
  function Insert<T(!new)>(s: seq<T>, x: T, before: (T, T) -> bool): (r: seq<T>)
    requires TotalPreorder(before) && Ordered(s, before)
    ensures multiset(r) == multiset(s) + multiset{x}
    ensures Ordered(r, before)
  {
    if s == [] then [x]
    else if before(s[0], x) then
      OrderedTail(s, before);
      var rest := Insert(s[1..], x, before);
      InsertedAfterHead(s, x, before, rest);
      OrderedCons(s[0], rest, before);
      MultisetCons(s, rest, x);
      [s[0]] + rest
    else
      PrecedesAll(s, x, before);
      OrderedCons(x, s, before);
      [x] + s
  }

  /** When the head of an ordered `s` may not precede `x`, `x` may precede everything in `s`. */
  lemma PrecedesAll<T(!new)>(s: seq<T>, x: T, before: (T, T) -> bool)
    requires TotalPreorder(before) && Ordered(s, before) && s != [] && !before(s[0], x)
    ensures forall y :: y in s ==> before(x, y)
  {
    assert before(x, s[0]);
    forall y | y in s
      ensures before(x, y)
    {
      var j :| 0 <= j < |s| && s[j] == y;
      if j > 0 {
        assert before(s[0], s[j]);
      }
    }
  }

  /** The head of an ordered `s` may precede everything in `s` with `x` inserted, when it may precede `x`. */
  lemma InsertedAfterHead<T(!new)>(s: seq<T>, x: T, before: (T, T) -> bool, rest: seq<T>)
    requires TotalPreorder(before) && Ordered(s, before) && s != [] && before(s[0], x)
    requires multiset(rest) == multiset(s[1..]) + multiset{x}
    ensures forall y :: y in rest ==> before(s[0], y)
  {
    forall y | y in rest
      ensures before(s[0], y)
    {
      assert y in multiset(rest);
      if y != x {
        assert y in multiset(s[1..]);
        var j :| 0 <= j < |s[1..]| && s[1..][j] == y;
        assert s[j + 1] == y;
      }
    }
  }

  /** Dropping the head keeps a sequence ordered. */
  lemma OrderedTail<T>(s: seq<T>, before: (T, T) -> bool)
    requires Ordered(s, before) && s != []
    ensures Ordered(s[1..], before)
  {
    forall i, j | 0 <= i < j < |s[1..]|
      ensures before(s[1..][i], s[1..][j])
    {
      assert s[1..][i] == s[i + 1] && s[1..][j] == s[j + 1];
    }
  }

  /** Putting the head back in front of `s`'s tail with `x` added holds `s` and `x`. */
  lemma MultisetCons<T>(s: seq<T>, rest: seq<T>, x: T)
    requires s != [] && multiset(rest) == multiset(s[1..]) + multiset{x}
    ensures multiset([s[0]] + rest) == multiset(s) + multiset{x}
  {
    assert s == [s[0]] + s[1..];
  }

  /** An item that may precede everything in an ordered sequence may head it. */
  lemma OrderedCons<T>(h: T, t: seq<T>, before: (T, T) -> bool)
    requires Ordered(t, before) && forall y :: y in t ==> before(h, y)
    ensures Ordered([h] + t, before)
  {
    var r := [h] + t;
    forall i, j | 0 <= i < j < |r|
      ensures before(r[i], r[j])
    {
      assert r[j] == t[j - 1];
      if i > 0 {
        assert r[i] == t[i - 1];
      }
    }
  }

  /**
   * A stable sort: the result is a permutation of `s`, ordered by `before`, and items that
   * rank equally keep their input order (the behaviour of Python's `sorted` with
   * `reverse=True` when `before` compares keys with `>=`).
   */
  function StableSort<T(!new)>(s: seq<T>, before: (T, T) -> bool): (r: seq<T>)
    requires TotalPreorder(before)
    ensures multiset(r) == multiset(s) && |r| == |s|
    ensures Ordered(r, before)
  {
    if s == [] then []
    else
      assert s == s[..|s| - 1] + [s[|s| - 1]];
      var r := Insert(StableSort(s[..|s| - 1], before), s[|s| - 1], before);
      assert |multiset(r)| == |r| && |multiset(s)| == |s|;
      r
  }

  /** Python's `s[:n]`, which for a negative `n` drops the last `-n` items (pandas `head(n)` too). */
  function Prefix<T>(s: seq<T>, n: int): (r: seq<T>)
    ensures |r| <= |s| && r == s[..|r|]
    ensures n >= 0 ==> |r| == if n <= |s| then n else |s|
    ensures n < 0 ==> |r| == if |s| + n >= 0 then |s| + n else 0
  {
    if n >= 0 then (if n <= |s| then s[..n] else s)
    else if |s| + n >= 0 then s[..|s| + n]
    else []
  }

  /** Whatever the prefix holds, the sequence holds. */
  lemma PrefixMembers<T>(s: seq<T>, n: int)
    ensures forall x :: x in Prefix(s, n) ==> x in s
  {
    var p := Prefix(s, n);
    forall x | x in p
      ensures x in s
    {
      var i :| 0 <= i < |p| && p[i] == x;
      assert s[i] == x;
    }
  }

  /**
   * Taking a prefix of an ordered sequence keeps the best items: whatever was
   * left out may follow every item that was kept.
   */
  lemma PrefixDominates<T>(s: seq<T>, before: (T, T) -> bool, n: int, x: T)
    requires Ordered(s, before)
    requires x in s && x !in Prefix(s, n)
    ensures forall i :: 0 <= i < |Prefix(s, n)| ==> before(Prefix(s, n)[i], x)
  {
    var p := Prefix(s, n);
    var j :| 0 <= j < |s| && s[j] == x;
    assert forall k :: 0 <= k < |p| ==> p[k] == s[k];
  }

  /** A prefix of an ordered sequence is ordered. */
  lemma PrefixOrdered<T>(s: seq<T>, before: (T, T) -> bool, n: int)
    requires Ordered(s, before)
    ensures Ordered(Prefix(s, n), before)
  {
  }

  /** `r` is `s` with some items left out, the rest in their original order. */
  predicate IsSubsequence<T(==)>(r: seq<T>, s: seq<T>)
    decreases |s|
  {
    r == [] || (s != [] && if r[0] == s[0] then IsSubsequence(r[1..], s[1..]) else IsSubsequence(r, s[1..]))
  }

  /** The rows a boolean mask keeps (`df[mask]`): exactly the rows it accepts, in order. */
  function Filter<T(!new)>(s: seq<T>, keep: T -> bool): (r: seq<T>)
    ensures forall x :: x in r <==> x in s && keep(x)
    ensures IsSubsequence(r, s)
    ensures |r| <= |s|
  {
    if s == [] then []
    else
      var rest := Filter(s[1..], keep);
      if keep(s[0]) then
        assert ([s[0]] + rest)[1..] == rest;
        [s[0]] + rest
      else rest
  }

  /** When no item is rejected, the mask keeps everything. */
  lemma {:induction false} FilterKeepsAll<T(!new)>(s: seq<T>, keep: T -> bool)
    requires forall x :: x in s ==> keep(x)
    ensures Filter(s, keep) == s
  {
    if s != [] {
      FilterKeepsAll(s[1..], keep);
      assert s == [s[0]] + s[1..];
    }
  }

  /** Masking a concatenation masks each part. */
  lemma {:induction false} FilterAppend<T(!new)>(a: seq<T>, b: seq<T>, keep: T -> bool)
    ensures Filter(a + b, keep) == Filter(a, keep) + Filter(b, keep)
  {
    if a != [] {
      assert (a + b)[0] == a[0] && (a + b)[1..] == a[1..] + b;
      FilterAppend(a[1..], b, keep);
    } else {
      assert a + b == b;
    }
  }

  /** `[f(x) for x in s]` keeping only the results `keep` accepts, in order. */
  function MapKeep<T, U>(s: seq<T>, f: T -> U, keep: U -> bool): (r: seq<U>)
    ensures |r| <= |s|
    ensures forall k :: 0 <= k < |r| ==> keep(r[k])
  {
    if s == [] then []
    else
      var rest := MapKeep(s[..|s| - 1], f, keep);
      var y := f(s[|s| - 1]);
      if keep(y) then rest + [y] else rest
  }

  /** Every kept result is the image of some input item. */
  lemma {:induction false} MapKeepSource<T, U>(s: seq<T>, f: T -> U, keep: U -> bool, k: nat)
    requires k < |MapKeep(s, f, keep)|
    ensures exists i :: 0 <= i < |s| && f(s[i]) == MapKeep(s, f, keep)[k]
    decreases |s|
  {
    var init := s[..|s| - 1];
    var rest := MapKeep(init, f, keep);
    if k < |rest| {
      MapKeepSource(init, f, keep, k);
      var i :| 0 <= i < |init| && f(init[i]) == rest[k];
      assert s[i] == init[i];
    } else {
      assert f(s[|s| - 1]) == MapKeep(s, f, keep)[k];
    }
  }

  /** When every image is kept, the result is the images, item for item. */
  lemma {:induction false} MapKeepAll<T, U>(s: seq<T>, f: T -> U, keep: U -> bool, ts: seq<U>)
    requires |s| == |ts|
    requires forall k :: 0 <= k < |s| ==> f(s[k]) == ts[k] && keep(ts[k])
    ensures MapKeep(s, f, keep) == ts
    decreases |s|
  {
    if s != [] {
      var n := |s| - 1;
      assert keep(ts[n]) && f(s[n]) == ts[n];
      MapKeepAll(s[..n], f, keep, ts[..n]);
      assert ts == ts[..n] + [ts[n]];
    }
  }

  /** Masking by two predicates in turn is masking by their conjunction. */
  lemma {:induction false} FilterFilter<T(!new)>(s: seq<T>, p: T -> bool, q: T -> bool, both: T -> bool)
    requires forall x :: both(x) == (p(x) && q(x))
    ensures Filter(Filter(s, p), q) == Filter(s, both)
  {
    if s != [] {
      FilterFilter(s[1..], p, q, both);
      if p(s[0]) {
        assert ([s[0]] + Filter(s[1..], p))[1..] == Filter(s[1..], p);
      }
    }
  }

  /** A mask that accepts nothing keeps nothing. */
  lemma {:induction false} FilterKeepsNone<T(!new)>(s: seq<T>, keep: T -> bool)
    requires forall x :: x in s ==> !keep(x)
    ensures Filter(s, keep) == []
  {
    if s != [] {
      FilterKeepsNone(s[1..], keep);
    }
  }

  /** A mask and its negation split the items between them. */
  lemma {:induction false} FilterPartition<T(!new)>(s: seq<T>, keep: T -> bool, drop: T -> bool)
    requires forall x :: drop(x) == !keep(x)
    ensures |Filter(s, keep)| + |Filter(s, drop)| == |s|
  {
    if s != [] {
      FilterPartition(s[1..], keep, drop);
    }
  }

  /** Leaving out the first item of a subsequence keeps it a subsequence. */
  lemma {:induction false} SubsequenceDropHead<T>(a: seq<T>, t: seq<T>)
    requires a != [] && IsSubsequence(a, t)
    ensures IsSubsequence(a[1..], t)
    decreases |t|, 1
  {
    if a[0] == t[0] {
      SubsequenceSkip(a[1..], t);
    } else {
      SubsequenceDropHead(a, t[1..]);
      SubsequenceSkip(a[1..], t);
    }
  }

  /** A subsequence of the tail is a subsequence of the whole. */
  lemma {:induction false} SubsequenceSkip<T>(a: seq<T>, t: seq<T>)
    requires t != [] && IsSubsequence(a, t[1..])
    ensures IsSubsequence(a, t)
    decreases |t|, 0
  {
    if a != [] && a[0] == t[0] {
      SubsequenceDropHead(a, t[1..]);
    }
  }

  lemma {:induction false} SubsequenceTransitive<T>(a: seq<T>, b: seq<T>, c: seq<T>)
    requires IsSubsequence(a, b) && IsSubsequence(b, c)
    ensures IsSubsequence(a, c)
    decreases |c|
  {
    if a != [] {
      if b[0] == c[0] {
        if a[0] == b[0] {
          SubsequenceTransitive(a[1..], b[1..], c[1..]);
        } else {
          SubsequenceTransitive(a, b[1..], c[1..]);
        }
      } else {
        SubsequenceTransitive(a, b, c[1..]);
        SubsequenceSkip(a, c);
      }
    }
  }

  /** No item occurs twice. */
  predicate NoDuplicates<T(==)>(s: seq<T>) {
    forall i, j :: 0 <= i < j < |s| ==> s[i] != s[j]
  }

  lemma {:induction false} NoDuplicatesMultiplicity<T>(s: seq<T>)
    requires NoDuplicates(s)
    ensures forall x :: multiset(s)[x] <= 1
  {
    if s != [] {
      NoDuplicatesMultiplicity(s[1..]);
      assert s == [s[0]] + s[1..];
      assert s[0] !in s[1..];
    }
  }

  lemma DuplicateMultiplicity<T>(s: seq<T>, i: nat, j: nat)
    requires i < j < |s| && s[i] == s[j]
    ensures multiset(s)[s[i]] >= 2
  {
    assert s == s[..j] + [s[j]] + s[j + 1..];
    assert s[i] == s[..j][i];
    assert multiset(s[..j])[s[i]] >= 1;
  }

  /** A sequence without duplicates has as many items as distinct elements. */
  lemma {:induction false} NoDuplicatesCard<T>(s: seq<T>)
    requires NoDuplicates(s)
    ensures |set x | x in s| == |s|
  {
    if s != [] {
      NoDuplicatesCard(s[1..]);
      assert (set x | x in s) == {s[0]} + (set x | x in s[1..]);
      assert s[0] !in s[1..];
    }
  }

  /** A permutation has the same members. */
  lemma PermutationSameMembers<T>(a: seq<T>, b: seq<T>)
    requires multiset(a) == multiset(b)
    ensures forall x :: x in a <==> x in b
  {
    forall x
      ensures x in a <==> x in b
    {
      assert x in a <==> x in multiset(a);
      assert x in b <==> x in multiset(b);
    }
  }

  /** A permutation of a sequence without duplicates has none either. */
  lemma PermutationNoDuplicates<T>(a: seq<T>, b: seq<T>)
    requires multiset(a) == multiset(b) && NoDuplicates(b)
    ensures NoDuplicates(a)
  {
    NoDuplicatesMultiplicity(b);
    forall i, j | 0 <= i < j < |a|
      ensures a[i] != a[j]
    {
      if a[i] == a[j] {
        DuplicateMultiplicity(a, i, j);
      }
    }
  }
}
