/** The descending pairwise-exchange sort that api.go runs in place twice:
    on activity entries by count (getTopRepos) and on repositories by stars
    (printPublicRepos). Both copies are the same loop over a different key. */
module BubbleSort {

  /** `s` is non-increasing under `key`. */
  ghost predicate SortedDesc<T>(s: seq<T>, key: T -> int) {
    forall p, q :: 0 <= p < q < |s| ==> key(s[p]) >= key(s[q])
  }

  /** Exchanges two neighbouring elements. */
  method SwapNext<T>(a: array<T>, j: int)
    requires 0 <= j < a.Length - 1
    modifies a
    ensures a[j] == old(a[j + 1]) && a[j + 1] == old(a[j])
    ensures forall p :: 0 <= p < a.Length && p != j && p != j + 1 ==> a[p] == old(a[p])
    ensures multiset(a[..]) == multiset(old(a[..]))
  {
    a[j], a[j + 1] := a[j + 1], a[j];
  }

  /** One pass of the inner loop over `a[..n-i]`: it carries the smallest key of
      that prefix to position n-i-1, so the sorted suffix grows by one. */
  method BubblePass<T>(a: array<T>, key: T -> int, i: int)
    requires 0 <= i < a.Length - 1
    requires forall p, q :: a.Length - i <= p < q < a.Length ==> key(a[p]) >= key(a[q])
    requires i > 0 ==> forall p :: 0 <= p < a.Length - i ==> key(a[p]) >= key(a[a.Length - i])
    modifies a
    ensures multiset(a[..]) == multiset(old(a[..]))
    ensures forall p, q :: a.Length - i - 1 <= p < q < a.Length ==> key(a[p]) >= key(a[q])
    ensures forall p :: 0 <= p < a.Length - i - 1 ==> key(a[p]) >= key(a[a.Length - i - 1])
  {
    var n := a.Length;
    var j := 0;
    while j < n - i - 1
      invariant 0 <= j <= n - i - 1
      invariant multiset(a[..]) == multiset(old(a[..]))
      invariant forall p, q :: n - i <= p < q < n ==> key(a[p]) >= key(a[q])
      invariant i > 0 ==> forall p :: 0 <= p < n - i ==> key(a[p]) >= key(a[n - i])
      // a[j] holds the smallest key of a[..j+1]
      invariant forall p :: 0 <= p < j ==> key(a[p]) >= key(a[j])
    {
      if key(a[j]) < key(a[j + 1]) {
        SwapNext(a, j);
      }
      j := j + 1;
    }
  }

  /** Sorts `a` non-increasingly by `key`, exchanging neighbours whose keys are
      in ascending order; the outer pass count is `a.Length - 1`. */
  method BubbleSortDesc<T>(a: array<T>, key: T -> int)
    modifies a
    ensures SortedDesc(a[..], key)
    ensures multiset(a[..]) == multiset(old(a[..]))
  {
    var n := a.Length;
    var i := 0;
    while i < n - 1
      invariant 0 <= i <= n && (n > 0 ==> i <= n - 1)
      invariant multiset(a[..]) == multiset(old(a[..]))
      // a[n-i..] is in order and every key before it is at least its first key
      invariant forall p, q :: n - i <= p < q < n ==> key(a[p]) >= key(a[q])
      invariant i > 0 ==> forall p :: 0 <= p < n - i ==> key(a[p]) >= key(a[n - i])
    {
      BubblePass(a, key, i);
      i := i + 1;
    }
  }

  /** No element occurs twice in `s`. */
  ghost predicate Distinct<T>(s: seq<T>) {
    forall i, j :: 0 <= i < j < |s| ==> s[i] != s[j]
  }

  lemma {:induction false} DistinctMultiplicity<T>(s: seq<T>, x: T)
    requires Distinct(s)
    ensures multiset(s)[x] <= 1
  {
    if s != [] {
      assert s == [s[0]] + s[1..];
      assert Distinct(s[1..]) by {
        forall i, j | 0 <= i < j < |s[1..]| ensures s[1..][i] != s[1..][j] {
          assert s[1..][i] == s[i + 1] && s[1..][j] == s[j + 1];
        }
      }
      DistinctMultiplicity(s[1..], x);
      if s[0] == x {
        assert x !in s[1..] by {
          forall j | 0 <= j < |s[1..]| ensures s[1..][j] != x {
            assert s[1..][j] == s[j + 1];
          }
        }
      }
    }
  }

  /** A permutation of a sequence without repetitions has none either. */
  lemma PermutationKeepsDistinct<T>(s: seq<T>, t: seq<T>)
    requires multiset(s) == multiset(t)
    requires Distinct(s)
    ensures Distinct(t)
  {
    forall i, j | 0 <= i < j < |t| ensures t[i] != t[j] {
      if t[i] == t[j] {
        var x := t[i];
        assert t == t[..j] + t[j..];
        assert x in t[..j] && x in t[j..];
        assert multiset(t)[x] == multiset(t[..j])[x] + multiset(t[j..])[x];
        DistinctMultiplicity(s, x);
        assert false;
      }
    }
  }
}
