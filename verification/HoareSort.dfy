/** sort_algo/test.c: quicksort without recursion, middle-element pivot and
    scans that carry no bounds check. */
module HoareSort {
  import opened SortSpec
  import opened RangeStack

  /** while (arr[left] < mid) ++left: stays inside because some element from
      left to end is at least mid. */
  method ScanRight(a: array<int>, mid: int, from: nat, ghost sentinel: nat) returns (left: nat)
    requires from <= sentinel < a.Length && a[sentinel] >= mid
    ensures from <= left <= sentinel && a[left] >= mid
    ensures forall p :: from <= p < left ==> a[p] < mid
  {
    left := from;
    while a[left] < mid
      invariant from <= left <= sentinel
      invariant forall p :: from <= p < left ==> a[p] < mid
      decreases sentinel - left
    {
      left := left + 1;
    }
  }

  /** while (arr[right] > mid) --right: the mirror image. */
  method ScanLeft(a: array<int>, mid: int, from: int, ghost sentinel: nat) returns (right: nat)
    requires sentinel <= from < a.Length && a[sentinel] <= mid
    ensures sentinel <= right <= from && a[right] <= mid
    ensures forall p :: right < p <= from ==> a[p] > mid
  {
    right := from;
    while a[right] > mid
      invariant sentinel <= right <= from
      invariant forall p :: right < p <= from ==> a[p] > mid
      decreases right
    {
      right := right - 1;
    }
  }

  /** Below left nothing exceeds mid, above right nothing falls short of it. */
  ghost predicate Parted(t: seq<int>, r: Range, left: int, right: int, mid: int) {
    0 <= r.start <= left <= r.end + 1 && r.start - 1 <= right <= r.end < |t| &&
    (forall p :: r.start <= p < left ==> t[p] <= mid) &&
    (forall p :: right < p <= r.end ==> t[p] >= mid)
  }

  /** The body of the do-while loop; when it goes round again, the two elements
      just swapped are the next sentinels. */
  method Sweep(a: array<int>, r: Range, mid: int, left0: nat, right0: int,
               ghost atLeast: nat, ghost atMost: nat, ghost s: seq<int>)
    returns (left: int, right: int)
    requires left0 <= right0 && Parted(a[..], r, left0, right0, mid)
    requires left0 <= atLeast <= r.end && a[atLeast] >= mid
    requires r.start <= atMost <= right0 && a[atMost] <= mid
    requires Permutation(s, a[..]) && SameOutside(s, a[..], r)
    modifies a
    ensures Parted(a[..], r, left, right, mid) && left0 <= left && right <= right0
    ensures left <= right ==> left0 < left && right < right0 && a[left - 1] <= mid && a[right + 1] >= mid
    ensures atLeast <= atMost ==> left0 < left && right < right0
    ensures Permutation(s, a[..]) && SameOutside(s, a[..], r)
  {
    left := ScanRight(a, mid, left0, atLeast);
    right := ScanLeft(a, mid, right0, atMost);
    if left <= right {
      SwapWithin(a, r, left, right, s);
      left := left + 1;
      right := right - 1;
    }
  }

  /** The do-while loop. On exit start..right is at most mid, left..end at
      least mid, and whatever lies between equals mid; both ends moved. */
  method Partition(a: array<int>, r: Range) returns (left: int, right: int, mid: int)
    requires 0 <= r.start < r.end < a.Length
    modifies a
    ensures mid == old(a[(r.start + r.end) / 2])
    ensures r.start < left <= r.end + 1 && r.start - 1 <= right < r.end && right < left
    ensures forall p :: r.start <= p <= right ==> a[p] <= mid
    ensures forall p :: left <= p <= r.end ==> a[p] >= mid
    ensures forall p :: right < p < left ==> a[p] == mid
    ensures Permutation(old(a[..]), a[..]) && SameOutside(old(a[..]), a[..], r)
  {
    var m := (r.start + r.end) / 2;
    mid := a[m];
    left, right := Sweep(a, r, mid, r.start, r.end, m, m, a[..]);
    while left <= right
      invariant r.start < left && right < r.end && Parted(a[..], r, left, right, mid)
      invariant left <= right ==> a[left - 1] <= mid && a[right + 1] >= mid
      invariant Permutation(old(a[..]), a[..]) && SameOutside(old(a[..]), a[..], r)
      decreases right - left
    {
      left, right := Sweep(a, r, mid, left, right, right + 1, left - 1, old(a[..]));
    }
  }

  /** One round of the stack loop: pop, then drop or partition and push. */
  method Round(a: array<int>, r: array<Range>, p: nat) returns (p': nat)
    requires 0 < p <= r.Length == a.Length && Pending(a[..], r[..p])
    modifies a, r
    ensures p' <= r.Length && Pending(a[..], r[..p'])
    ensures Permutation(old(a[..]), a[..])
    ensures 0 <= Weight(r[..p']) < old(Weight(r[..p]))
  {
    ghost var s, stack := a[..], r[..p];
    p' := p - 1;
    var cur := r[p'];
    ghost var rest := r[..p'];
    assert stack == rest + [cur] && cur == stack[p'];
    if cur.start >= cur.end {
      Drop(s, stack, rest, cur);
    } else {
      var left, right, mid := Partition(a, cur);
      var low, high := Range(cur.start, right), Range(left, cur.end);
      Advance(s, a[..], stack, rest, cur, low, high, mid);
      p' := Push(r, p', low, high);
    }
  }

  /** quick_sort. The array of slots for ranges is the source's own, so that every
      push fits it is part of the proof; deepest is the greatest height reached. */
  method Sort(a: array<int>) returns (ghost deepest: nat)
    modifies a
    ensures Ascending(a[..]) && Permutation(old(a[..]), a[..])
    ensures deepest <= if a.Length == 1 then 1 else a.Length / 2
  {
    deepest := 0;
    if a.Length <= 0 {
      return;
    }
    var r := new Range[a.Length](_ => Range(0, 0));
    r[0] := Range(0, a.Length - 1);
    var p := 1;
    deepest := 1;
    FirstRange(a[..], r[..p]);
    while p != 0
      invariant 0 <= p <= r.Length && Pending(a[..], r[..p])
      invariant Permutation(old(a[..]), a[..])
      invariant deepest <= if a.Length == 1 then 1 else a.Length / 2
      decreases Weight(r[..p])
    {
      p := Round(a, r, p);
      deepest := if deepest < p then p else deepest;
    }
    SettledIsAscending(a[..]);
  }
}
