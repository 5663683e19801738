/** sort_algo/quick_sort.c: quicksort without recursion, first-element pivot. */
module QuickSort {
  import opened SortSpec
  import opened RangeStack

  /** The two scans and the swap, until left meets right: below the meeting
      point everything is less than the pivot, above it nothing is. */
  method Scan(a: array<int>, r: Range) returns (left: nat)
    requires 0 <= r.start < r.end < a.Length
    modifies a
    ensures r.start < left <= r.end && a[r.start] == old(a[r.start])
    ensures forall p :: r.start < p < left ==> a[p] < a[r.start]
    ensures forall p :: left < p <= r.end ==> a[p] >= a[r.start]
    ensures Permutation(old(a[..]), a[..]) && SameOutside(old(a[..]), a[..], r)
  {
    var key := r.start;
    left := r.start + 1;
    var right := r.end;
    while left < right
      invariant r.start < left <= right <= r.end && a[key] == old(a[key])
      invariant forall p :: r.start < p < left ==> a[p] < a[key]
      invariant forall p :: right < p <= r.end ==> a[p] >= a[key]
      invariant Permutation(old(a[..]), a[..]) && SameOutside(old(a[..]), a[..], r)
      decreases right - left, if a[left] >= a[key] then 1 else 0
    {
      while a[left] < a[key] && left < right
        invariant r.start < left <= right
        invariant forall p :: r.start < p < left ==> a[p] < a[key]
        decreases right - left
      {
        left := left + 1;
      }
      while a[right] >= a[key] && left < right
        invariant left <= right <= r.end
        invariant forall p :: right < p <= r.end ==> a[p] >= a[key]
        decreases right - left
      {
        right := right - 1;
      }
      if left < right {
        SwapWithin(a, r, left, right, old(a[..]));
      }
    }
  }

  /** The body of the stack loop for a range of two or more elements: the
      pivot ends at mid, smaller elements below it, the others above. */
  method Partition(a: array<int>, r: Range) returns (mid: int)
    requires 0 <= r.start < r.end < a.Length
    modifies a
    ensures r.start <= mid <= r.end && a[mid] == old(a[r.start])
    ensures forall p :: r.start <= p < mid ==> a[p] < a[mid]
    ensures forall p :: mid < p <= r.end ==> a[p] >= a[mid]
    ensures Split(a[..], r, Range(r.start, mid - 1), Range(mid + 1, r.end), a[mid])
    ensures Permutation(old(a[..]), a[..]) && SameOutside(old(a[..]), a[..], r)
  {
    mid := Scan(a, r);
    if a[mid] >= a[r.start] {
      mid := mid - 1;
    }
    SwapWithin(a, r, mid, r.start, old(a[..]));
  }

  /** One round of the stack loop: pop, then drop or partition and push. */
  method Round(a: array<int>, range: array<Range>, stackTop: nat) returns (stackTop': nat)
    requires 0 < stackTop <= range.Length == a.Length && Pending(a[..], range[..stackTop])
    modifies a, range
    ensures stackTop' <= range.Length && Pending(a[..], range[..stackTop'])
    ensures Permutation(old(a[..]), a[..])
    ensures 0 <= Weight(range[..stackTop']) < old(Weight(range[..stackTop]))
  {
    ghost var s, stack := a[..], range[..stackTop];
    stackTop' := stackTop - 1;
    var cur := range[stackTop'];
    ghost var rest := range[..stackTop'];
    assert stack == rest + [cur] && cur == stack[stackTop'];
    if cur.start >= cur.end {
      Drop(s, stack, rest, cur);
    } else {
      var left := Partition(a, cur);
      var low, high := Range(cur.start, left - 1), Range(left + 1, cur.end);
      Advance(s, a[..], stack, rest, cur, low, high, a[left]);
      stackTop' := Push(range, stackTop', low, high);
    }
  }

  /** lc_quick_sort. The array of slots for ranges is the source's own, so that every
      push fits it is part of the proof; deepest is the greatest height reached. */
  method Sort(a: array<int>) returns (ghost deepest: nat)
    requires a.Length >= 1
    modifies a
    ensures Ascending(a[..]) && Permutation(old(a[..]), a[..])
    ensures deepest <= if a.Length == 1 then 1 else a.Length / 2
  {
    var range := new Range[a.Length](_ => Range(0, 0));
    range[0] := Range(0, a.Length - 1);
    var stackTop := 1;
    deepest := 1;
    FirstRange(a[..], range[..stackTop]);
    while stackTop != 0
      invariant 0 <= stackTop <= range.Length && Pending(a[..], range[..stackTop])
      invariant Permutation(old(a[..]), a[..])
      invariant deepest <= if a.Length == 1 then 1 else a.Length / 2
      decreases Weight(range[..stackTop])
    {
      stackTop := Round(a, range, stackTop);
      deepest := if deepest < stackTop then stackTop else deepest;
    }
    SettledIsAscending(a[..]);
  }
}
