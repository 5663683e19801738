/** What the four sorts of sort_algo/ are for: order, permutation, and the
    fact that these two together leave no choice of result. */
module SortSpec {

  ghost predicate Ascending(s: seq<int>) {
    forall p, q :: 0 <= p < q < |s| ==> s[p] <= s[q]
  }

  ghost predicate Descending(s: seq<int>) {
    forall p, q :: 0 <= p < q < |s| ==> s[p] >= s[q]
  }

  ghost predicate Permutation(s: seq<int>, t: seq<int>) {
    multiset(s) == multiset(t)
  }

  function Swapped(s: seq<int>, i: nat, j: nat): (t: seq<int>)
    requires i < |s| && j < |s|
    ensures |t| == |s|
    ensures t[i] == s[j] && t[j] == s[i]
    ensures forall p :: 0 <= p < |s| && p != i && p != j ==> t[p] == s[p]
  {
    s[i := s[j]][j := s[i]]
  }

  lemma SwappedPermutes(s: seq<int>, i: nat, j: nat)
    requires i < |s| && j < |s|
    ensures Permutation(s, Swapped(s, i, j))
  {
  }

  /** swap_int of quick_sort.c and swap of test.c. */
  method Swap(a: array<int>, x: nat, y: nat)
    requires x < a.Length && y < a.Length
    modifies a
    ensures a[x] == old(a[y]) && a[y] == old(a[x])
    ensures forall p :: 0 <= p < a.Length && p != x && p != y ==> a[p] == old(a[p])
    ensures Permutation(old(a[..]), a[..])
  {
    var tmp := a[x];
    a[x] := a[y];
    a[y] := tmp;
    assert a[..] == Swapped(old(a[..]), x, y);
    SwappedPermutes(old(a[..]), x, y);
  }

  ghost function Reversed(s: seq<int>): (t: seq<int>)
    ensures |t| == |s|
    ensures forall k :: 0 <= k < |s| ==> t[k] == s[|s| - 1 - k]
  {
    seq(|s|, k requires 0 <= k < |s| => s[|s| - 1 - k])
  }

  /** How many elements of s are at least v. */
  ghost function CountGE(s: seq<int>, v: int): (c: nat)
    ensures c <= |s|
  {
    if s == [] then 0 else CountGE(s[..|s| - 1], v) + if s[|s| - 1] >= v then 1 else 0
  }

  lemma {:induction false} CountGEConcat(s: seq<int>, t: seq<int>, v: int)
    ensures CountGE(s + t, v) == CountGE(s, v) + CountGE(t, v)
  {
    if t == [] {
      assert s + t == s;
    } else {
      assert (s + t)[..|s + t| - 1] == s + t[..|t| - 1];
      CountGEConcat(s, t[..|t| - 1], v);
    }
  }

  /** The count sees only the multiset of elements. */
  lemma {:induction false} CountGEPermutation(s: seq<int>, t: seq<int>, v: int)
    requires Permutation(s, t)
    ensures CountGE(s, v) == CountGE(t, v)
    decreases |s|
  {
    if s == [] {
      assert |multiset(t)| == |t|;
    } else {
      var x := s[|s| - 1];
      assert x in multiset(t);
      var k :| 0 <= k < |t| && t[k] == x;
      var t' := t[..k] + t[k + 1..];
      assert t == t[..k] + [x] + t[k + 1..];
      assert s == s[..|s| - 1] + [x];
      assert multiset(t') == multiset(t) - multiset{x};
      assert multiset(s[..|s| - 1]) == multiset(s) - multiset{x};
      CountGEPermutation(s[..|s| - 1], t', v);
      CountGEConcat(t[..k], t[k + 1..], v);
      CountGEConcat(t[..k], [x], v);
      CountGEConcat(t[..k] + [x], t[k + 1..], v);
    }
  }

  lemma {:induction false} CountGEOfPrefix(s: seq<int>, n: nat, v: int)
    requires n <= |s| && forall p :: 0 <= p < n ==> s[p] >= v
    requires forall p :: n <= p < |s| ==> s[p] < v
    ensures CountGE(s, v) == n
    decreases |s|
  {
    if s != [] {
      CountGEOfPrefix(s[..|s| - 1], if n == |s| then n - 1 else n, v);
    }
  }

  /** In a descending sequence the elements that reach v are exactly a prefix. */
  lemma DescendingCount(s: seq<int>, k: nat, v: int)
    requires Descending(s) && k < |s|
    ensures s[k] >= v <==> CountGE(s, v) > k
  {
    var n := 0;
    while n < |s| && s[n] >= v
      invariant n <= |s| && forall p :: 0 <= p < n ==> s[p] >= v
    {
      n := n + 1;
    }
    CountGEOfPrefix(s, n, v);
  }

  lemma DescendingUnique(s: seq<int>, t: seq<int>)
    requires Descending(s) && Descending(t) && Permutation(s, t)
    ensures s == t
  {
    assert |s| == |multiset(s)| == |multiset(t)| == |t|;
    forall k | 0 <= k < |s| ensures s[k] == t[k] {
      CountGEPermutation(s, t, s[k]);
      CountGEPermutation(s, t, t[k]);
      DescendingCount(s, k, s[k]);
      DescendingCount(t, k, s[k]);
      DescendingCount(s, k, t[k]);
      DescendingCount(t, k, t[k]);
    }
  }

  lemma {:induction false} ReversedPermutation(s: seq<int>)
    ensures Permutation(s, Reversed(s))
  {
    if s != [] {
      var n := |s| - 1;
      ReversedPermutation(s[..n]);
      assert Reversed(s) == [s[n]] + Reversed(s[..n]);
      assert s == s[..n] + [s[n]];
    }
  }

  /** An ascending and a descending permutation of one input are mirror images. */
  lemma AscendingMirrorsDescending(input: seq<int>, up: seq<int>, down: seq<int>)
    requires Ascending(up) && Permutation(input, up)
    requires Descending(down) && Permutation(input, down)
    ensures down == Reversed(up)
  {
    ReversedPermutation(up);
    DescendingUnique(down, Reversed(up));
  }

  /** Same whole multiset and same outside [lo, hi): same multiset inside. */
  lemma SlicePermutation(s: seq<int>, t: seq<int>, lo: nat, hi: nat)
    requires Permutation(s, t) && |s| == |t| && lo <= hi <= |s|
    requires s[..lo] == t[..lo] && s[hi..] == t[hi..]
    ensures Permutation(s[lo..hi], t[lo..hi])
  {
    assert s == s[..lo] + s[lo..hi] + s[hi..];
    assert t == t[..lo] + t[lo..hi] + t[hi..];
    assert multiset(s[lo..hi]) == multiset(s) - multiset(s[..lo]) - multiset(s[hi..]);
    assert multiset(t[lo..hi]) == multiset(t) - multiset(t[..lo]) - multiset(t[hi..]);
  }
}
