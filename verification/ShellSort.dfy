/** sort_algo/shell_sort.c: gap passes that halve the gap, sorting descending.
    The classical theorem proved here is that a later pass never destroys the
    order an earlier gap established. */
module ShellSort {
  import opened SortSpec

  ghost predicate GapOrdered(s: seq<int>, gap: nat) {
    forall p :: 0 <= p && p + gap < |s| ==> s[p] >= s[p + gap]
  }

  /** Every gap-th element of s from position r on. */
  ghost function Chain(s: seq<int>, gap: nat, r: nat): (c: seq<int>)
    requires gap > 0
    decreases if r < |s| then |s| - r else 0
  {
    if r >= |s| then [] else [s[r]] + Chain(s, gap, r + gap)
  }

  ghost predicate SameChain(s: seq<int>, t: seq<int>, gap: nat, r: nat)
    requires gap > 0
  {
    Permutation(Chain(s, gap, r), Chain(t, gap, r))
  }

  /** t rearranges s inside the gap's residue classes only. */
  ghost predicate ChainPermutation(s: seq<int>, t: seq<int>, gap: nat)
    requires gap > 0
  {
    |s| == |t| && forall r :: 0 <= r < gap ==> SameChain(s, t, gap, r)
  }

  lemma {:induction false} ChainIndex(s: seq<int>, gap: nat, r: nat, k: nat)
    requires gap > 0
    ensures k < |Chain(s, gap, r)| <==> r + k * gap < |s|
    ensures k < |Chain(s, gap, r)| ==> Chain(s, gap, r)[k] == s[r + k * gap]
    decreases k
  {
    if r < |s| && k > 0 {
      ChainIndex(s, gap, r + gap, k - 1);
      assert r + gap + (k - 1) * gap == r + k * gap;
    } else if k > 0 {
      assert k * gap >= 0;
    }
  }

  lemma {:induction false} ChainUnchanged(s: seq<int>, t: seq<int>, gap: nat, r: nat)
    requires gap > 0 && |s| == |t|
    requires forall p :: r <= p < |s| ==> s[p] == t[p]
    ensures Chain(s, gap, r) == Chain(t, gap, r)
    decreases if r < |s| then |s| - r else 0
  {
    if r < |s| {
      ChainUnchanged(s, t, gap, r + gap);
    }
  }

  lemma ChainFrom(s: seq<int>, gap: nat, r: nat)
    requires gap > 0 && r < |s|
    ensures Chain(s, gap, r) == [s[r]] + Chain(s, gap, r + gap)
  {
  }

  lemma ChainFromTwo(s: seq<int>, gap: nat, r: nat, x: int, y: int, c: seq<int>)
    requires gap > 0 && r + gap < |s| && s[r] == x && s[r + gap] == y && Chain(s, gap, r + gap + gap) == c
    ensures Chain(s, gap, r) == [x] + ([y] + c)
  {
    ChainFrom(s, gap, r);
    ChainFrom(s, gap, r + gap);
  }

  lemma FirstTwoSwapped(x: int, y: int, c: seq<int>, d: seq<int>, e: seq<int>)
    requires d == [x] + ([y] + c) && e == [y] + ([x] + c)
    ensures Permutation(d, e)
  {
  }

  lemma SwapKeepsChainHead(s: seq<int>, t: seq<int>, gap: nat, j: nat)
    requires 0 < gap <= j < |s| && t == Swapped(s, j - gap, j)
    ensures SameChain(s, t, gap, j - gap)
  {
    var r, x, y, c := j - gap, s[j - gap], s[j], Chain(s, gap, j + gap);
    ChainUnchanged(s, t, gap, j + gap);
    ChainFromTwo(s, gap, r, x, y, c);
    ChainFromTwo(t, gap, r, y, x, c);
    FirstTwoSwapped(x, y, c, Chain(s, gap, r), Chain(t, gap, r));
  }

  lemma PrependBoth(x: int, c: seq<int>, d: seq<int>)
    requires Permutation(c, d)
    ensures Permutation([x] + c, [x] + d)
  {
  }

  lemma SameChainStep(s: seq<int>, t: seq<int>, gap: nat, r: nat)
    requires gap > 0 && |s| == |t| && r < |s| && s[r] == t[r] && SameChain(s, t, gap, r + gap)
    ensures SameChain(s, t, gap, r)
  {
    ChainFrom(s, gap, r);
    ChainFrom(t, gap, r);
    PrependBoth(s[r], Chain(s, gap, r + gap), Chain(t, gap, r + gap));
  }

  lemma SwapMissesChain(s: seq<int>, t: seq<int>, gap: nat, j: nat, r: nat)
    requires 0 < gap <= j < |s| && j - gap < r < j && t == Swapped(s, j - gap, j)
    ensures SameChain(s, t, gap, r)
  {
    ChainUnchanged(s, t, gap, r + gap);
    ChainFrom(s, gap, r);
    ChainFrom(t, gap, r);
  }

  lemma {:induction false} SwapKeepsChain(s: seq<int>, t: seq<int>, gap: nat, j: nat, r: nat)
    requires 0 < gap <= j < |s| && r < j && t == Swapped(s, j - gap, j)
    ensures SameChain(s, t, gap, r)
    decreases j - r
  {
    if r == j - gap {
      SwapKeepsChainHead(s, t, gap, j);
    } else if r < j - gap {
      SwapKeepsChain(s, t, gap, j, r + gap);
      SameChainStep(s, t, gap, r);
    } else {
      SwapMissesChain(s, t, gap, j, r);
    }
  }

  lemma SwapKeepsChains(s: seq<int>, gap: nat, j: nat)
    requires 0 < gap <= j < |s|
    ensures ChainPermutation(s, Swapped(s, j - gap, j), gap)
  {
    var t := Swapped(s, j - gap, j);
    forall r | 0 <= r < gap ensures SameChain(s, t, gap, r) {
      SwapKeepsChain(s, t, gap, j, r);
    }
  }

  lemma ChainPermutationTransitive(s: seq<int>, t: seq<int>, u: seq<int>, gap: nat)
    requires gap > 0 && ChainPermutation(s, t, gap) && ChainPermutation(t, u, gap)
    ensures ChainPermutation(s, u, gap)
  {
    forall r | 0 <= r < gap ensures SameChain(s, u, gap, r) {
      assert SameChain(s, t, gap, r) && SameChain(t, u, gap, r);
    }
  }

  lemma ChainDescending(s: seq<int>, gap: nat, r: nat)
    requires gap > 0 && GapOrdered(s, gap)
    ensures Descending(Chain(s, gap, r))
  {
    var c := Chain(s, gap, r);
    forall p, q | 0 <= p < q < |c| ensures c[p] >= c[q] {
      ChainStepwise(s, gap, r, p, q);
    }
  }

  lemma {:induction false} ChainStepwise(s: seq<int>, gap: nat, r: nat, p: nat, q: nat)
    requires gap > 0 && GapOrdered(s, gap) && p <= q < |Chain(s, gap, r)|
    ensures Chain(s, gap, r)[p] >= Chain(s, gap, r)[q]
    decreases q - p
  {
    if p < q {
      ChainStepwise(s, gap, r, p, q - 1);
      ChainIndex(s, gap, r, q - 1);
      ChainIndex(s, gap, r, q);
      assert r + q * gap == r + (q - 1) * gap + gap;
    }
  }

  lemma {:induction false} CountDominated(x: seq<int>, y: seq<int>, v: int)
    requires |y| <= |x| && forall j :: 0 <= j < |y| ==> x[j] >= y[j]
    ensures CountGE(y, v) <= CountGE(x, v)
    decreases |x|
  {
    if |y| < |x| {
      CountDominated(x[..|x| - 1], y, v);
    } else if y != [] {
      CountDominated(x[..|x| - 1], y[..|y| - 1], v);
    }
  }

  /** Two chains related elementwise stay related when each is sorted on its own. */
  lemma IndependentSortsStayRelated(x: seq<int>, y: seq<int>, x': seq<int>, y': seq<int>, d: nat)
    requires Permutation(x, x') && Permutation(y, y') && Descending(x') && Descending(y')
    requires |y| <= |x| + d && forall j :: d <= j < |y| ==> x[j - d] >= y[j]
    ensures |x| == |x'| && |y| == |y'|
    ensures forall j :: d <= j < |y'| ==> x'[j - d] >= y'[j]
  {
    assert |x| == |multiset(x)| == |multiset(x')| == |x'|;
    assert |y| == |multiset(y)| == |multiset(y')| == |y'|;
    forall j | d <= j < |y'| ensures x'[j - d] >= y'[j] {
      var v := y'[j];
      DescendingCount(y', j, v);
      CountGEPermutation(y, y', v);
      CountGEConcat(y[..d], y[d..], v);
      assert y == y[..d] + y[d..];
      CountDominated(x, y[d..], v);
      CountGEPermutation(x, x', v);
      DescendingCount(x', j - d, v);
    }
  }

  lemma DivMod(p: nat, gap: nat)
    requires gap > 0
    ensures p == p % gap + p / gap * gap && p % gap < gap && p / gap >= 0
  {
  }

  lemma SplitProduct(j: nat, d: nat, h: nat)
    requires d <= j
    ensures j * h == (j - d) * h + d * h
  {
  }

  lemma ChainsRelatedAt(s: seq<int>, g: nat, h: nat, r: nat, e: nat, d: nat, j: nat)
    requires h > 0 && GapOrdered(s, g) && e + d * h == r + g
    requires d <= j < |Chain(s, h, e)|
    ensures j - d < |Chain(s, h, r)| && Chain(s, h, r)[j - d] >= Chain(s, h, e)[j]
  {
    ChainIndex(s, h, e, j);
    ChainIndex(s, h, r, j - d);
    SplitProduct(j, d, h);
    assert s[r + (j - d) * h] >= s[r + (j - d) * h + g];
  }

  /** A chain and the one g positions further are related element by element. */
  lemma ChainsRelated(s: seq<int>, g: nat, h: nat, r: nat, e: nat, d: nat)
    requires h > 0 && GapOrdered(s, g) && e + d * h == r + g
    ensures var x, y := Chain(s, h, r), Chain(s, h, e);
            |y| <= |x| + d && forall j :: d <= j < |y| ==> x[j - d] >= y[j]
  {
    var x, y := Chain(s, h, r), Chain(s, h, e);
    if |y| > d {
      ChainsRelatedAt(s, g, h, r, e, d, |y| - 1);
    }
    forall j | d <= j < |y| ensures x[j - d] >= y[j] {
      ChainsRelatedAt(s, g, h, r, e, d, j);
    }
  }

  lemma SortedChainsRelated(s: seq<int>, t: seq<int>, g: nat, h: nat, r: nat, e: nat, d: nat)
    requires h > 0 && GapOrdered(s, g) && GapOrdered(t, h) && e + d * h == r + g
    requires SameChain(s, t, h, r) && SameChain(s, t, h, e)
    ensures var x, y := Chain(t, h, r), Chain(t, h, e);
            |y| <= |x| + d && forall j :: d <= j < |y| ==> x[j - d] >= y[j]
  {
    ChainsRelated(s, g, h, r, e, d);
    ChainDescending(t, h, r);
    ChainDescending(t, h, e);
    IndependentSortsStayRelated(Chain(s, h, r), Chain(s, h, e), Chain(t, h, r), Chain(t, h, e), d);
  }

  lemma EarlierGapsSurviveAt(s: seq<int>, t: seq<int>, g: nat, h: nat, r: nat, k: nat, e: nat, l: nat)
    requires h > 0 && GapOrdered(s, g) && GapOrdered(t, h)
    requires SameChain(s, t, h, r) && SameChain(s, t, h, e)
    requires k <= l && 0 <= r + k * h && r + k * h + g == e + l * h < |t|
    ensures t[r + k * h] >= t[e + l * h]
  {
    SplitProduct(l, l - k, h);
    SortedChainsRelated(s, t, g, h, r, e, l - k);
    ChainIndex(t, h, r, k);
    ChainIndex(t, h, e, l);
  }

  lemma ProductMonotone(k: nat, l: nat, h: nat)
    requires k <= l
    ensures k * h <= l * h
  {
    assert l * h == k * h + (l - k) * h;
  }

  lemma QuotientMonotone(p: nat, q: nat, h: nat)
    requires h > 0 && p <= q
    ensures p / h <= q / h
  {
    DivMod(p, h);
    DivMod(q, h);
    if q / h + 1 <= p / h {
      ProductMonotone(q / h + 1, p / h, h);
    }
  }

  /** Sorting the chains of gap h keeps every g-ordering that held before
      (Knuth, The Art of Computer Programming, volume 3, section 5.2.1, Theorem K). */
  lemma EarlierGapsSurvive(s: seq<int>, t: seq<int>, g: nat, h: nat)
    requires h > 0 && GapOrdered(s, g)
    requires ChainPermutation(s, t, h) && GapOrdered(t, h)
    ensures GapOrdered(t, g)
  {
    forall p | 0 <= p && p + g < |t| ensures t[p] >= t[p + g] {
      DivMod(p, h);
      DivMod(p + g, h);
      QuotientMonotone(p, p + g, h);
      EarlierGapsSurviveAt(s, t, g, h, p % h, p / h, (p + g) % h, (p + g) / h);
    }
  }

  ghost predicate PrefixOrdered(s: seq<int>, gap: nat, n: nat) {
    n <= |s| && GapOrdered(s[..n], gap)
  }

  /** b is ordered at the gap up to i, but for a value at j still on its way down. */
  ghost predicate Sinking(b: seq<int>, gap: nat, i: nat, j: nat) {
    gap > 0 && j <= i < |b| &&
    (forall p :: 0 <= p && p + gap <= i && p + gap != j ==> b[p] >= b[p + gap]) &&
    (gap <= j && j + gap <= i ==> b[j - gap] >= b[j + gap])
  }

  lemma SinkStart(s: seq<int>, gap: nat, i: nat)
    requires gap > 0 && i < |s| && PrefixOrdered(s, gap, i)
    ensures Sinking(s, gap, i, i)
  {
    var t := s[..i];
    forall p | 0 <= p && p + gap <= i && p + gap != i ensures s[p] >= s[p + gap] {
      assert t[p] >= t[p + gap];
    }
  }

  lemma SinkEnd(b: seq<int>, gap: nat, i: nat, j: nat)
    requires Sinking(b, gap, i, j) && (j < gap || b[j] <= b[j - gap])
    ensures PrefixOrdered(b, gap, i + 1)
  {
    var t := b[..i + 1];
    forall p | 0 <= p && p + gap < |t| ensures t[p] >= t[p + gap] {
      assert p + gap != j ==> b[p] >= b[p + gap];
    }
  }

  lemma SinkOnce(b: seq<int>, gap: nat, i: nat, j: nat)
    requires Sinking(b, gap, i, j) && gap <= j && b[j] > b[j - gap]
    ensures Sinking(Swapped(b, j - gap, j), gap, i, j - gap)
  {
    var t := Swapped(b, j - gap, j);
    forall p | 0 <= p && p + gap <= i && p + gap != j - gap ensures t[p] >= t[p + gap] {
      assert p + gap != j ==> b[p] >= b[p + gap];
    }
  }

  /** What is left to do when the value at j is on its way down. */
  ghost function Sunk(b: seq<int>, gap: nat, j: nat): (t: seq<int>)
    requires gap > 0 && j < |b|
    ensures |t| == |b|
    decreases j
  {
    if j >= gap && b[j] > b[j - gap] then Sunk(Swapped(b, j - gap, j), gap, j - gap) else b
  }

  lemma {:induction false} SunkInOrder(b: seq<int>, gap: nat, i: nat, j: nat)
    requires Sinking(b, gap, i, j)
    ensures PrefixOrdered(Sunk(b, gap, j), gap, i + 1)
    decreases j
  {
    if j >= gap && b[j] > b[j - gap] {
      SinkOnce(b, gap, i, j);
      SunkInOrder(Swapped(b, j - gap, j), gap, i, j - gap);
    } else {
      SinkEnd(b, gap, i, j);
    }
  }

  lemma ChainPermutationReflexive(s: seq<int>, gap: nat)
    requires gap > 0
    ensures ChainPermutation(s, s, gap)
  {
    forall r | 0 <= r < gap ensures SameChain(s, s, gap, r) {
    }
  }

  lemma {:induction false} SunkInChains(b: seq<int>, gap: nat, j: nat)
    requires gap > 0 && j < |b|
    ensures Permutation(b, Sunk(b, gap, j)) && ChainPermutation(b, Sunk(b, gap, j), gap)
    decreases j
  {
    if j >= gap && b[j] > b[j - gap] {
      var t := Swapped(b, j - gap, j);
      SwappedPermutes(b, j - gap, j);
      SwapKeepsChains(b, gap, j);
      SunkInChains(t, gap, j - gap);
      ChainPermutationTransitive(b, t, Sunk(b, gap, j), gap);
    } else {
      ChainPermutationReflexive(b, gap);
    }
  }

  /** The inner loop and the final assignment. */
  method Sink(a: array<int>, gap: nat, i: nat)
    requires 0 < gap && i < a.Length
    modifies a
    ensures a[..] == Sunk(old(a[..]), gap, i)
  {
    var tmp := a[i];
    var j := i;
    ghost var b := a[..];  // a with the carried value put back at j
    while j >= gap && tmp > a[j - gap]
      invariant 0 <= j <= i && |b| == a.Length && b[j] == tmp
      invariant forall p :: 0 <= p < a.Length && p != j ==> a[p] == b[p]
      invariant Sunk(b, gap, j) == Sunk(old(a[..]), gap, i)
    {
      b := Swapped(b, j - gap, j);
      a[j] := a[j - gap];
      j := j - gap;
    }
    a[j] := tmp;
    assert a[..] == b;
  }

  /** One step of the middle loop: sink a[i] along its chain. */
  method InsertAlongChain(a: array<int>, gap: nat, i: nat)
    requires 0 < gap && i < a.Length && PrefixOrdered(a[..], gap, i)
    modifies a
    ensures PrefixOrdered(a[..], gap, i + 1)
    ensures Permutation(old(a[..]), a[..]) && ChainPermutation(old(a[..]), a[..], gap)
  {
    SinkStart(a[..], gap, i);
    SunkInOrder(a[..], gap, i, i);
    SunkInChains(a[..], gap, i);
    Sink(a, gap, i);
  }

  /** One round of the outer loop. */
  method GapPass(a: array<int>, gap: nat)
    requires gap > 0
    modifies a
    ensures GapOrdered(a[..], gap)
    ensures Permutation(old(a[..]), a[..])
    ensures forall g: nat :: GapOrdered(old(a[..]), g) ==> GapOrdered(a[..], g)
  {
    ChainPermutationReflexive(a[..], gap);
    for i := 0 to a.Length
      invariant PrefixOrdered(a[..], gap, i)
      invariant Permutation(old(a[..]), a[..]) && ChainPermutation(old(a[..]), a[..], gap)
    {
      ghost var b := a[..];
      InsertAlongChain(a, gap, i);
      ChainPermutationTransitive(old(a[..]), b, a[..], gap);
    }
    assert a[..a.Length] == a[..];
    forall g: nat | GapOrdered(old(a[..]), g) ensures GapOrdered(a[..], g) {
      EarlierGapsSurvive(old(a[..]), a[..], g, gap);
    }
  }

  lemma GapOneIsDescending(s: seq<int>)
    requires GapOrdered(s, 1)
    ensures Descending(s)
  {
    forall p, q | 0 <= p < q < |s| ensures s[p] >= s[q] {
      GapOneStepwise(s, p, q);
    }
  }

  lemma {:induction false} GapOneStepwise(s: seq<int>, p: nat, q: nat)
    requires GapOrdered(s, 1) && p <= q < |s|
    ensures s[p] >= s[q]
    decreases q - p
  {
    if p < q {
      GapOneStepwise(s, p, q - 1);
      assert s[q - 1] >= s[q - 1 + 1];
    }
  }

  /** gaps are the gaps of the run so far, passes the array after each of them. */
  ghost predicate Accumulated(gaps: seq<nat>, passes: seq<seq<int>>) {
    |gaps| == |passes| &&
    forall j, k :: 0 <= j <= k < |gaps| ==> GapOrdered(passes[k], gaps[j])
  }

  lemma AccumulateOne(gaps: seq<nat>, passes: seq<seq<int>>, s: seq<int>, gap: nat, t: seq<int>)
    requires Accumulated(gaps, passes) && (passes != [] ==> passes[|passes| - 1] == s)
    requires GapOrdered(t, gap) && forall g: nat :: GapOrdered(s, g) ==> GapOrdered(t, g)
    ensures Accumulated(gaps + [gap], passes + [t])
  {
    var n := |gaps|;
    forall j, k | 0 <= j <= k <= n ensures GapOrdered((passes + [t])[k], (gaps + [gap])[j]) {
      if k == n && j < n {
        assert GapOrdered(passes[n - 1], gaps[j]);
      }
    }
  }

  ghost predicate Halving(gaps: seq<nat>, cnt: nat, next: nat) {
    if gaps == [] then next == cnt / 2
    else gaps[0] == cnt / 2 && next == gaps[|gaps| - 1] / 2 &&
         forall k :: 0 <= k < |gaps| ==> gaps[k] > 0 && (k > 0 ==> gaps[k] == gaps[k - 1] / 2)
  }

  /** The run so far on s: its gaps, the array after each pass, the next gap, the array now. */
  ghost predicate Record(s: seq<int>, gaps: seq<nat>, passes: seq<seq<int>>, gap: nat, now: seq<int>) {
    Accumulated(gaps, passes) && Halving(gaps, |s|, gap) && Permutation(s, now) &&
    (forall k :: 0 <= k < |passes| ==> Permutation(s, passes[k])) &&
    if passes == [] then now == s else passes[|passes| - 1] == now
  }

  lemma RecordPass(s: seq<int>, gaps: seq<nat>, passes: seq<seq<int>>, gap: nat, now: seq<int>, after: seq<int>)
    requires Record(s, gaps, passes, gap, now) && gap > 0
    requires GapOrdered(after, gap) && Permutation(now, after)
    requires forall g: nat :: GapOrdered(now, g) ==> GapOrdered(after, g)
    ensures Record(s, gaps + [gap], passes + [after], gap / 2, after)
  {
    AccumulateOne(gaps, passes, now, gap, after);
  }

  lemma RecordEnd(s: seq<int>, gaps: seq<nat>, passes: seq<seq<int>>, now: seq<int>)
    requires Record(s, gaps, passes, 0, now)
    ensures Descending(now)
  {
    if gaps != [] {
      var n := |gaps| - 1;
      assert gaps[n] > 0 && gaps[n] / 2 == 0;
      assert GapOrdered(passes[n], gaps[n]);
      GapOneIsDescending(now);
    }
  }

  /** lc_shell_sort: descending, a permutation, and after every pass the array
      is ordered for every gap used so far. */
  method Sort(a: array<int>) returns (ghost gaps: seq<nat>, ghost passes: seq<seq<int>>)
    modifies a
    ensures Descending(a[..]) && Permutation(old(a[..]), a[..])
    ensures Accumulated(gaps, passes) && Halving(gaps, a.Length, 0)
    ensures forall k :: 0 <= k < |passes| ==> Permutation(old(a[..]), passes[k])
    ensures |passes| > 0 ==> passes[|passes| - 1] == a[..]
  {
    var gap := a.Length / 2;
    gaps, passes := [], [];
    while gap > 0
      invariant gap >= 0 && Record(old(a[..]), gaps, passes, gap, a[..])
    {
      ghost var now := a[..];
      GapPass(a, gap);
      RecordPass(old(a[..]), gaps, passes, gap, now, a[..]);
      gaps, passes := gaps + [gap], passes + [a[..]];
      gap := gap / 2;
    }
    RecordEnd(old(a[..]), gaps, passes, a[..]);
  }
}
