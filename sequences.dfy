/**
 * The sequence operations the listings are built from: JavaScript's
 * `Array.prototype.filter`, de-duplication through a `Set` (which keeps
 * first occurrences in order), a sort under a total preorder, and the
 * `skip`/`take` window of a query.
 */
module Sequences {

  /** `s.filter(p)`. */
  function Filter<T>(s: seq<T>, p: T -> bool): (r: seq<T>)
    ensures |r| <= |s|
    ensures forall i :: 0 <= i < |r| ==> p(r[i])
    decreases |s|
  {
    if s == [] then []
    else if p(s[0]) then [s[0]] + Filter(s[1..], p)
    else Filter(s[1..], p)
  }

  /** `r` can be obtained from `s` by deleting elements. */
  predicate IsSubsequence<T(==)>(r: seq<T>, s: seq<T>)
    decreases |s|
  {
    r == [] || (s != [] && ((r[0] == s[0] && IsSubsequence(r[1..], s[1..])) || IsSubsequence(r, s[1..])))
  }

  /** The filtered sequence keeps its elements in their original order and
      keeps every occurrence of each element that passes the test. */
  lemma {:induction false} FilterIsExact<T>(s: seq<T>, p: T -> bool)
    ensures IsSubsequence(Filter(s, p), s)
    ensures forall x :: multiset(Filter(s, p))[x] == if p(x) then multiset(s)[x] else 0
    decreases |s|
  {
    if s != [] {
      FilterIsExact(s[1..], p);
      assert s == [s[0]] + s[1..];
      assert multiset(s) == multiset{s[0]} + multiset(s[1..]);
      if p(s[0]) {
        var r := Filter(s, p);
        assert r[1..] == Filter(s[1..], p);
      } else {
        SubsequenceOfTail(Filter(s, p), s);
      }
    }
  }

  lemma SubsequenceOfTail<T>(r: seq<T>, s: seq<T>)
    requires s != [] && IsSubsequence(r, s[1..])
    ensures IsSubsequence(r, s)
  {
  }

  /** Filtering with a test every element passes changes nothing. */
  lemma {:induction false} FilterAll<T>(s: seq<T>, p: T -> bool)
    requires forall i :: 0 <= i < |s| ==> p(s[i])
    ensures Filter(s, p) == s
    decreases |s|
  {
    if s != [] {
      FilterAll(s[1..], p);
    }
  }

  /** An element is kept exactly when it occurs and passes the test. */
  lemma FilterMembers<T>(s: seq<T>, p: T -> bool, x: T)
    ensures x in Filter(s, p) <==> x in s && p(x)
  {
    FilterIsExact(s, p);
    assert x in Filter(s, p) <==> multiset(Filter(s, p))[x] > 0;
    assert x in s <==> multiset(s)[x] > 0;
  }

  /** No element occurs twice. */
  predicate NoDuplicates<T(==)>(s: seq<T>)
  {
    forall i, j :: 0 <= i < j < |s| ==> s[i] != s[j]
  }

  /** `Array.from(new Set(s))`: the first occurrence of each value, in order. */
  function Distinct<T(==)>(s: seq<T>): (r: seq<T>)
    decreases |s|
  {
    if s == [] then []
    else
      var rest := Distinct(s[..|s| - 1]);
      if s[|s| - 1] in rest then rest else rest + [s[|s| - 1]]
  }

  /** Each value of `r` first occurs in `s` before any occurrence of the
      values listed after it in `r`. */
  predicate InFirstOccurrenceOrder<T(==)>(r: seq<T>, s: seq<T>)
  {
    forall i, j, q :: 0 <= i < j < |r| && 0 <= q < |s| && s[q] == r[j] ==> r[i] in s[..q]
  }

  /** The de-duplicated sequence holds the same values, each once, in the
      order of their first occurrences. */
  lemma {:induction false} DistinctProperties<T>(s: seq<T>)
    ensures forall x :: x in Distinct(s) <==> x in s
    ensures NoDuplicates(Distinct(s))
    ensures IsSubsequence(Distinct(s), s)
    ensures InFirstOccurrenceOrder(Distinct(s), s)
    decreases |s|
  {
    if s != [] {
      var init := s[..|s| - 1];
      var last := s[|s| - 1];
      DistinctProperties(init);
      assert s == init + [last];
      var rest := Distinct(init);
      if last in rest {
        SubsequenceOfPrefix(rest, init, [last]);
      } else {
        SubsequenceAppend(rest, init, last);
      }
      var r := Distinct(s);
      forall i, j, q | 0 <= i < j < |r| && 0 <= q < |s| && s[q] == r[j] ensures r[i] in s[..q] {
        assert r[i] == rest[i] && rest[i] in rest;
        if q < |init| {
          assert s[q] == init[q] && s[..q] == init[..q];
          if j == |rest| {
            assert false;
          } else {
            assert r[j] == rest[j] && init[q] == rest[j];
            assert rest[i] in init[..q];
          }
        } else {
          SubsequenceMember(rest, init, i);
          assert s[..q] == init;
        }
      }
    }
  }

  lemma {:induction false} SubsequenceOfPrefix<T>(r: seq<T>, s: seq<T>, t: seq<T>)
    requires IsSubsequence(r, s)
    ensures IsSubsequence(r, s + t)
    decreases |s|
  {
    if r != [] {
      assert (s + t)[1..] == s[1..] + t;
      if r[0] == s[0] && IsSubsequence(r[1..], s[1..]) {
        SubsequenceOfPrefix(r[1..], s[1..], t);
      } else {
        SubsequenceOfPrefix(r, s[1..], t);
      }
    }
  }

  lemma {:induction false} SubsequenceAppend<T>(r: seq<T>, s: seq<T>, x: T)
    requires IsSubsequence(r, s)
    ensures IsSubsequence(r + [x], s + [x])
    decreases |s|
  {
    if r == [] {
      assert r + [x] == [x];
      EmptyThenLast(s, x);
    } else {
      assert (r + [x])[1..] == r[1..] + [x];
      assert (s + [x])[1..] == s[1..] + [x];
      if r[0] == s[0] && IsSubsequence(r[1..], s[1..]) {
        SubsequenceAppend(r[1..], s[1..], x);
      } else {
        SubsequenceAppend(r, s[1..], x);
      }
    }
  }

  lemma {:induction false} EmptyThenLast<T>(s: seq<T>, x: T)
    ensures IsSubsequence([x], s + [x])
    decreases |s|
  {
    if s != [] {
      assert (s + [x])[1..] == s[1..] + [x];
      EmptyThenLast(s[1..], x);
    } else {
      assert ([x] + [])[1..] == [];
    }
  }

  /** `le` orders every pair and chains: a comparison a sort can use. */
  ghost predicate TotalPreorder<T(!new)>(le: (T, T) -> bool)
  {
    && (forall a, b :: le(a, b) || le(b, a))
    && (forall a, b, c :: le(a, b) && le(b, c) ==> le(a, c))
  }

  predicate SortedBy<T>(s: seq<T>, le: (T, T) -> bool)
  {
    forall i, j :: 0 <= i < j < |s| ==> le(s[i], s[j])
  }

  /** Places `x` in front of the first element it may precede. */
  function InsertBy<T>(x: T, s: seq<T>, le: (T, T) -> bool): (r: seq<T>)
    decreases |s|
  {
    if s == [] || le(x, s[0]) then [x] + s
    else [s[0]] + InsertBy(x, s[1..], le)
  }

  /** Insertion sort under `le`. */
  function SortBy<T>(s: seq<T>, le: (T, T) -> bool): (r: seq<T>)
    decreases |s|
  {
    if s == [] then [] else InsertBy(s[0], SortBy(s[1..], le), le)
  }

  lemma {:induction false} InsertByCorrect<T(!new)>(x: T, s: seq<T>, le: (T, T) -> bool)
    requires TotalPreorder(le) && SortedBy(s, le)
    ensures SortedBy(InsertBy(x, s, le), le)
    ensures multiset(InsertBy(x, s, le)) == multiset(s) + multiset{x}
    ensures |InsertBy(x, s, le)| == |s| + 1
    decreases |s|
  {
    if s != [] && !le(x, s[0]) {
      var tail := InsertBy(x, s[1..], le);
      InsertByCorrect(x, s[1..], le);
      assert le(s[0], x);
      assert s == [s[0]] + s[1..];
      var r := [s[0]] + tail;
      assert forall k :: 0 <= k < |tail| ==> le(s[0], tail[k]) by {
        forall k | 0 <= k < |tail| ensures le(s[0], tail[k]) {
          assert tail[k] in multiset(tail);
          assert tail[k] == x || tail[k] in multiset(s[1..]);
          if tail[k] != x {
            var m :| 0 <= m < |s[1..]| && s[1..][m] == tail[k];
            assert s[1 + m] == tail[k];
          }
        }
      }
      assert SortedBy(r, le) by {
        forall i, j | 0 <= i < j < |r| ensures le(r[i], r[j]) {
          if i > 0 {
            assert r[i] == tail[i - 1] && r[j] == tail[j - 1];
          }
        }
      }
    }
  }

  /** The sort orders its input and keeps every element, duplicates included. */
  lemma {:induction false} SortByCorrect<T(!new)>(s: seq<T>, le: (T, T) -> bool)
    requires TotalPreorder(le)
    ensures SortedBy(SortBy(s, le), le)
    ensures multiset(SortBy(s, le)) == multiset(s)
    ensures |SortBy(s, le)| == |s|
    decreases |s|
  {
    if s != [] {
      SortByCorrect(s[1..], le);
      InsertByCorrect(s[0], SortBy(s[1..], le), le);
      assert s == [s[0]] + s[1..];
    }
  }

  /** Without duplicates every value occurs at most once. */
  lemma {:induction false} NoDuplicatesCountsOnce<T>(s: seq<T>)
    requires NoDuplicates(s)
    ensures forall x :: multiset(s)[x] <= 1
    decreases |s|
  {
    if s != [] {
      assert NoDuplicates(s[1..]) by {
        forall i, j | 0 <= i < j < |s[1..]| ensures s[1..][i] != s[1..][j] {
          assert s[1..][i] == s[i + 1] && s[1..][j] == s[j + 1];
        }
      }
      NoDuplicatesCountsOnce(s[1..]);
      assert s == [s[0]] + s[1..];
      assert s[0] !in s[1..];
    }
  }

  /** Reordering a sequence without duplicates leaves it without duplicates. */
  lemma PermutationKeepsNoDuplicates<T>(a: seq<T>, b: seq<T>)
    requires NoDuplicates(a) && multiset(a) == multiset(b)
    ensures NoDuplicates(b)
  {
    NoDuplicatesCountsOnce(a);
    forall i, j | 0 <= i < j < |b| ensures b[i] != b[j] {
      EqualAtTwoIndices(b, i, j);
    }
  }

  lemma EqualAtTwoIndices<T>(b: seq<T>, i: nat, j: nat)
    requires i < j < |b|
    ensures b[i] == b[j] ==> multiset(b)[b[i]] >= 2
  {
    assert b == b[..j] + b[j..];
    assert b[i] in b[..j];
    assert b[j] in b[j..];
    assert multiset(b)[b[i]] == multiset(b[..j])[b[i]] + multiset(b[j..])[b[i]];
  }

  /** Two positions of a subsequence come from two positions of the whole in
      the same order. */
  lemma {:induction false} SubsequenceIndices<T>(r: seq<T>, s: seq<T>, i: nat, j: nat)
    requires IsSubsequence(r, s) && i < j < |r|
    ensures exists ki, kj :: 0 <= ki < kj < |s| && s[ki] == r[i] && s[kj] == r[j]
    decreases |s|
  {
    if r[0] == s[0] && IsSubsequence(r[1..], s[1..]) {
      if i == 0 {
        SubsequenceIndex(r[1..], s[1..], j - 1);
        var kj :| 0 <= kj < |s[1..]| && s[1..][kj] == r[1..][j - 1];
        assert s[0] == r[0] && s[kj + 1] == r[j];
      } else {
        SubsequenceIndices(r[1..], s[1..], i - 1, j - 1);
        var ki, kj :| 0 <= ki < kj < |s[1..]| && s[1..][ki] == r[1..][i - 1] && s[1..][kj] == r[1..][j - 1];
        assert s[ki + 1] == r[i] && s[kj + 1] == r[j];
      }
    } else {
      SubsequenceIndices(r, s[1..], i, j);
      var ki, kj :| 0 <= ki < kj < |s[1..]| && s[1..][ki] == r[i] && s[1..][kj] == r[j];
      assert s[ki + 1] == r[i] && s[kj + 1] == r[j];
    }
  }

  lemma {:induction false} SubsequenceIndex<T>(r: seq<T>, s: seq<T>, i: nat)
    requires IsSubsequence(r, s) && i < |r|
    ensures exists k :: 0 <= k < |s| && s[k] == r[i]
    decreases |s|
  {
    if r[0] == s[0] && IsSubsequence(r[1..], s[1..]) {
      if i == 0 {
        assert s[0] == r[0];
      } else {
        SubsequenceIndex(r[1..], s[1..], i - 1);
        var k :| 0 <= k < |s[1..]| && s[1..][k] == r[1..][i - 1];
        assert s[k + 1] == r[i];
      }
    } else {
      SubsequenceIndex(r, s[1..], i);
      var k :| 0 <= k < |s[1..]| && s[1..][k] == r[i];
      assert s[k + 1] == r[i];
    }
  }

  /** Every element of a subsequence occurs in the whole. */
  lemma SubsequenceMember<T>(r: seq<T>, s: seq<T>, i: nat)
    requires IsSubsequence(r, s) && i < |r|
    ensures r[i] in s
  {
    SubsequenceIndex(r, s, i);
  }

  /** Deleting elements keeps a sorted sequence sorted. */
  lemma SubsequenceOfSortedIsSorted<T>(r: seq<T>, s: seq<T>, le: (T, T) -> bool)
    requires IsSubsequence(r, s) && SortedBy(s, le)
    ensures SortedBy(r, le)
  {
    forall i, j | 0 <= i < j < |r| ensures le(r[i], r[j]) {
      SubsequenceIndices(r, s, i, j);
    }
  }

  /** The rows a query returns after skipping `skip` and taking at most `take`. */
  function Window<T>(s: seq<T>, skip: nat, take: nat): (r: seq<T>)
    ensures |r| <= take
    ensures skip < |s| ==> |r| == if skip + take <= |s| then take else |s| - skip
    ensures skip >= |s| ==> r == []
    ensures forall i :: 0 <= i < |r| ==> skip + i < |s| && r[i] == s[skip + i]
  {
    if skip >= |s| then []
    else if skip + take <= |s| then s[skip..skip + take]
    else s[skip..]
  }

  /** A window of a sorted sequence is sorted. */
  lemma WindowIsSorted<T>(s: seq<T>, skip: nat, take: nat, le: (T, T) -> bool)
    requires SortedBy(s, le)
    ensures SortedBy(Window(s, skip, take), le)
  {
    var w := Window(s, skip, take);
    forall i, j | 0 <= i < j < |w| ensures le(w[i], w[j]) {
      assert w[i] == s[skip + i] && w[j] == s[skip + j];
    }
  }

  /** Deleting elements keeps a sequence free of duplicates. */
  lemma SubsequenceKeepsNoDuplicates<T>(r: seq<T>, s: seq<T>)
    requires IsSubsequence(r, s) && NoDuplicates(s)
    ensures NoDuplicates(r)
  {
    forall i, j | 0 <= i < j < |r| ensures r[i] != r[j] {
      SubsequenceIndices(r, s, i, j);
    }
  }

  /** The sort keeps the length; this needs no ordering assumption. */
  lemma {:induction false} SortKeepsLength<T>(s: seq<T>, le: (T, T) -> bool)
    ensures |SortBy(s, le)| == |s|
    decreases |s|
  {
    if s != [] {
      SortKeepsLength(s[1..], le);
      InsertKeepsLength(s[0], SortBy(s[1..], le), le);
    }
  }

  lemma {:induction false} InsertKeepsLength<T>(x: T, s: seq<T>, le: (T, T) -> bool)
    ensures |InsertBy(x, s, le)| == |s| + 1
    decreases |s|
  {
    if s != [] && !le(x, s[0]) {
      InsertKeepsLength(x, s[1..], le);
    }
  }

  /** What a query with a filter, an order, `skip` and `take` returns: the
      matching elements at positions `skip` onwards of the ordered matches,
      as many as `take` allows and the matches hold, ordered, each an element
      of the input that passes the filter. */
  lemma QueryRows<T(!new)>(s: seq<T>, p: T -> bool, le: (T, T) -> bool, skip: nat, take: nat)
    requires TotalPreorder(le)
    ensures var matching := Filter(s, p);
      var w := Window(SortBy(matching, le), skip, take);
      && |w| == (if skip >= |matching| then 0 else if skip + take <= |matching| then take else |matching| - skip)
      && (forall i :: 0 <= i < |w| ==> w[i] == SortBy(matching, le)[skip + i])
      && SortedBy(w, le)
      && (forall i :: 0 <= i < |w| ==> w[i] in s && p(w[i]))
  {
    var matching := Filter(s, p);
    var sorted := SortBy(matching, le);
    var w := Window(sorted, skip, take);
    SortByCorrect(matching, le);
    WindowIsSorted(sorted, skip, take, le);
    forall i | 0 <= i < |w| ensures w[i] in s && p(w[i]) {
      assert w[i] in multiset(sorted);
      FilterMembers(s, p, w[i]);
    }
  }
}
