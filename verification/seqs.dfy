/**
 Sequence helpers behind the board store's updates: the slice-and-spread
 rebuild of one slot, the `filter` that drops one candidate, and the
 duplicate-freedom and order-preservation notions used to talk about them.
 */
module Seqs {

  /** The sequence rebuilt as `[...xs.slice(0, i), x, ...xs.slice(i + 1)]`:
      a new sequence of the same length that differs from `xs` at most in
      position `i`, where it holds `x`. */
  function Splice<T>(xs: seq<T>, i: nat, x: T): (r: seq<T>)
    requires i < |xs|
    ensures |r| == |xs|
    ensures r == xs[i := x]
  {
    xs[..i] + [x] + xs[i + 1..]
  }

  /** The elements of `xs` different from `o`, in their original order
      (the effect of `xs.filter(v => v != o)`). */
  function Without(xs: seq<int>, o: int): (r: seq<int>)
    ensures o !in r
    ensures forall x :: x in r <==> x in xs && x != o
    ensures forall x :: x != o ==> multiset(r)[x] == multiset(xs)[x]
    ensures o !in xs ==> r == xs
  {
    if xs == [] then []
    else
      assert xs == [xs[0]] + xs[1..];
      if xs[0] == o then Without(xs[1..], o)
      else [xs[0]] + Without(xs[1..], o)
  }

  /** No value occurs twice in `xs`. */
  predicate NoDuplicates(xs: seq<int>) {
    forall i, j :: 0 <= i < j < |xs| ==> xs[i] != xs[j]
  }

  /** `a` can be obtained from `b` by deleting elements, keeping the order
      of the elements that remain (greedy left-to-right matching). */
  predicate IsSubsequence(a: seq<int>, b: seq<int>)
    decreases |b|
  {
    if a == [] then true
    else if b == [] then false
    else if a[0] == b[0] then IsSubsequence(a[1..], b[1..])
    else IsSubsequence(a, b[1..])
  }

  /** Duplicate freedom said with positions agrees with duplicate freedom
      said with multiplicities. */
  lemma {:induction false} NoDuplicatesIffCountsAtMostOne(xs: seq<int>)
    ensures NoDuplicates(xs) <==> forall x :: multiset(xs)[x] <= 1
  {
    if xs != [] {
      var tail := xs[1..];
      assert xs == [xs[0]] + tail;
      NoDuplicatesIffCountsAtMostOne(tail);
      if NoDuplicates(xs) {
        assert NoDuplicates(tail) by {
          forall i, j | 0 <= i < j < |tail| ensures tail[i] != tail[j] {
            assert tail[i] == xs[i + 1] && tail[j] == xs[j + 1];
          }
        }
        assert xs[0] !in tail by {
          forall j | 0 <= j < |tail| ensures tail[j] != xs[0] {
            assert tail[j] == xs[j + 1];
          }
        }
        forall x ensures multiset(xs)[x] <= 1 {
          assert multiset(xs)[x] == multiset([xs[0]])[x] + multiset(tail)[x];
        }
      }
      if forall x :: multiset(xs)[x] <= 1 {
        forall x ensures multiset(tail)[x] <= 1 {
          assert multiset(xs)[x] == multiset([xs[0]])[x] + multiset(tail)[x];
        }
        assert multiset(xs)[xs[0]] == 1 + multiset(tail)[xs[0]];
        assert xs[0] !in tail;
        forall i, j | 0 <= i < j < |xs| ensures xs[i] != xs[j] {
          assert xs[j] == tail[j - 1];
          if i > 0 {
            assert xs[i] == tail[i - 1];
          }
        }
      }
    }
  }

  /** Dropping `o` distributes over concatenation. */
  lemma {:induction false} WithoutAppend(xs: seq<int>, ys: seq<int>, o: int)
    ensures Without(xs + ys, o) == Without(xs, o) + Without(ys, o)
  {
    if xs != [] {
      assert (xs + ys)[1..] == xs[1..] + ys;
      WithoutAppend(xs[1..], ys, o);
    } else {
      assert xs + ys == ys;
    }
  }

  /** Dropping `o` keeps the order of everything else: the result is a
      subsequence of the input. */
  lemma {:induction false} WithoutIsSubsequence(xs: seq<int>, o: int)
    ensures IsSubsequence(Without(xs, o), xs)
  {
    if xs != [] {
      WithoutIsSubsequence(xs[1..], o);
      var w := Without(xs, o);
      if xs[0] != o {
        assert w[1..] == Without(xs[1..], o);
      } else if w != [] {
        assert w[0] in w;
      }
    }
  }

  /** In a duplicate-free list, dropping a present value and appending it
      again permutes the list. */
  lemma ReAppendIsPermutation(xs: seq<int>, o: int)
    requires NoDuplicates(xs) && o in xs
    ensures multiset(Without(xs, o) + [o]) == multiset(xs)
  {
    NoDuplicatesIffCountsAtMostOne(xs);
    var ys := Without(xs, o) + [o];
    forall x ensures multiset(ys)[x] == multiset(xs)[x] {
      assert multiset(ys)[x] == multiset(Without(xs, o))[x] + multiset([o])[x];
    }
  }
}
