/** The hand-made stack of pending ranges that both quicksorts of sort_algo/
    (quick_sort.c and test.c) drive their partitioning with. */
module RangeStack {
  import opened SortSpec

  datatype Range = Range(start: int, end: int) {
    function Length(): int { end - start + 1 }
  }

  /** Positions p and q lie inside one pending range. */
  ghost predicate InOne(stack: seq<Range>, p: int, q: int) {
    exists i :: 0 <= i < |stack| && stack[i].start <= p && q <= stack[i].end
  }

  /** Any two positions not inside one pending range are already in order. */
  ghost predicate Settled(s: seq<int>, stack: seq<Range>) {
    forall p, q {:trigger InOne(stack, p, q)} :: 0 <= p < q < |s| && !InOne(stack, p, q) ==> s[p] <= s[q]
  }

  /** Pending ranges lie in 0..cnt, pairwise disjoint, bottom to top from left
      to right; each has at least two positions, except the first of a run on
      one element. */
  ghost predicate WellFormed(stack: seq<Range>, cnt: nat) {
    (forall i :: 0 <= i < |stack| ==>
       2 * i <= stack[i].start && stack[i].end < cnt &&
       (stack[i].Length() >= 2 || (cnt == 1 && stack[i] == Range(0, 0)))) &&
    (forall i, j :: 0 <= i < j < |stack| ==> stack[i].end < stack[j].start)
  }

  /** The stack never holds more than cnt / 2 ranges (one, for one element). */
  lemma CapacityBound(stack: seq<Range>, cnt: nat)
    requires WellFormed(stack, cnt)
    ensures |stack| <= if cnt == 1 then 1 else cnt / 2
  {
    if stack != [] {
      var top := stack[|stack| - 1];
      assert 2 * (|stack| - 1) <= top.start <= top.end < cnt;
    }
  }

  /** What the stack loops use up: twice the pending positions, less one per range. */
  ghost function Weight(stack: seq<Range>): int {
    if stack == [] then 0
    else Weight(stack[..|stack| - 1]) + 2 * stack[|stack| - 1].Length() - 1
  }

  lemma {:induction false} WeightNonNegative(stack: seq<Range>, cnt: nat)
    requires WellFormed(stack, cnt)
    ensures 0 <= Weight(stack)
  {
    if stack != [] {
      WeightNonNegative(stack[..|stack| - 1], cnt);
    }
  }

  /** What the two conditional pushes leave on the stack above rest. */
  function Pushed(low: Range, high: Range): (p: seq<Range>)
    ensures |p| <= 2
  {
    (if low.start < low.end then [low] else []) + (if high.start < high.end then [high] else [])
  }

  lemma PushedInOne(low: Range, high: Range, p: int, q: int)
    requires p < q
    ensures InOne(Pushed(low, high), p, q) <==> (low.start <= p && q <= low.end) || (high.start <= p && q <= high.end)
  {
    var s := Pushed(low, high);
    if low.start < low.end {
      assert s[0] == low;
    }
    if high.start < high.end {
      assert s[|s| - 1] == high;
    }
  }

  lemma PushedWellFormed(rest: seq<Range>, r: Range, low: Range, high: Range, cnt: nat)
    requires WellFormed(rest + [r], cnt) && r.start < r.end
    requires low.start == r.start && high.end == r.end
    requires low.end < high.start && r.start <= high.start && low.end <= r.end
    ensures WellFormed(rest + Pushed(low, high), cnt)
  {
    var s, t, n := rest + [r], rest + Pushed(low, high), |rest|;
    assert s[n] == r;
    forall i | 0 <= i < |t|
      ensures 2 * i <= t[i].start && t[i].end < cnt && t[i].Length() >= 2
    {
      if i < n {
        assert t[i] == s[i] && s[i].end < s[n].start;
      } else if i > n {
        assert t[i] == high && t[n] == low;
      } else {
        assert t[n] == low || t[n] == high;
      }
    }
    forall i, j | 0 <= i < j < |t| ensures t[i].end < t[j].start {
      if i < n {
        assert t[i] == s[i] && s[i].end < s[n].start;
        assert j < n ==> t[j] == s[j];
      } else {
        assert t[i] == low && t[j] == high;
      }
    }
  }

  lemma PushedWeight(rest: seq<Range>, low: Range, high: Range)
    ensures Weight(rest + Pushed(low, high)) == Weight(rest)
      + (if low.start < low.end then 2 * low.Length() - 1 else 0)
      + (if high.start < high.end then 2 * high.Length() - 1 else 0)
  {
    var t := if low.start < low.end then rest + [low] else rest;
    assert t[..|rest|] == rest;
    if high.start < high.end {
      assert rest + Pushed(low, high) == t + [high];
      assert (t + [high])[..|t|] == t;
    } else {
      assert rest + Pushed(low, high) == t;
    }
  }

  lemma PopWeight(rest: seq<Range>, r: Range)
    ensures Weight(rest + [r]) == Weight(rest) + 2 * r.Length() - 1
  {
    assert (rest + [r])[..|rest|] == rest;
  }

  ghost predicate SameOutside(s: seq<int>, t: seq<int>, r: Range) {
    |s| == |t| && forall p :: 0 <= p < |s| && !(r.start <= p <= r.end) ==> s[p] == t[p]
  }

  /** Swap two elements of r, in an array that started as s. */
  method SwapWithin(a: array<int>, r: Range, x: nat, y: nat, ghost s: seq<int>)
    requires 0 <= r.start <= x <= r.end < a.Length && r.start <= y <= r.end
    requires Permutation(s, a[..]) && SameOutside(s, a[..], r)
    modifies a
    ensures a[x] == old(a[y]) && a[y] == old(a[x])
    ensures forall p :: 0 <= p < a.Length && p != x && p != y ==> a[p] == old(a[p])
    ensures Permutation(s, a[..]) && SameOutside(s, a[..], r)
  {
    Swap(a, x, y);
  }

  /** An element of a rearranged range stood somewhere in it before. */
  lemma CameFromRange(s: seq<int>, t: seq<int>, r: Range, p: int) returns (p': int)
    requires Permutation(s, t) && SameOutside(s, t, r) && 0 <= r.start <= p <= r.end < |s|
    ensures r.start <= p' <= r.end && s[p'] == t[p]
  {
    var lo, hi := r.start, r.end + 1;
    assert s[..lo] == t[..lo] && s[hi..] == t[hi..];
    SlicePermutation(s, t, lo, hi);
    assert t[lo..hi][p - lo] in multiset(t[lo..hi]);
    assert t[p] in multiset(s[lo..hi]);
    var k :| 0 <= k < |s[lo..hi]| && s[lo..hi][k] == t[p];
    p' := lo + k;
  }

  /** A pair with exactly one end in the popped range is not in one range. */
  lemma StraddlesNone(rest: seq<Range>, r: Range, cnt: nat, p: int, q: int)
    requires WellFormed(rest + [r], cnt) && p < q
    requires (r.start <= p <= r.end) != (r.start <= q <= r.end)
    ensures !InOne(rest + [r], p, q)
  {
    var s := rest + [r];
    assert s[|rest|] == r;
    forall i | 0 <= i < |s| ensures !(s[i].start <= p && q <= s[i].end) {
      assert i < |rest| ==> s[i].end < s[|rest|].start;
    }
  }

  lemma SettledAt(s: seq<int>, t: seq<int>, rest: seq<Range>, r: Range, pushed: seq<Range>, p: int, q: int)
    requires WellFormed(rest + [r], |s|) && Settled(s, rest + [r])
    requires Permutation(s, t) && SameOutside(s, t, r) && 0 <= r.start && r.end < |t|
    requires forall i, j :: r.start <= i < j <= r.end && !InOne(pushed, i, j) ==> t[i] <= t[j]
    requires 0 <= p < q < |t| && !InOne(rest + pushed, p, q)
    ensures t[p] <= t[q]
  {
    var before, after := rest + [r], rest + pushed;
    assert before[|rest|] == r;
    var pIn, qIn := r.start <= p <= r.end, r.start <= q <= r.end;
    if pIn && qIn {
      assert forall i :: 0 <= i < |pushed| ==> after[|rest| + i] == pushed[i];
      assert !InOne(pushed, p, q);
    } else if pIn {
      var p' := CameFromRange(s, t, r, p);
      StraddlesNone(rest, r, |s|, p', q);
    } else if qIn {
      var q' := CameFromRange(s, t, r, q);
      StraddlesNone(rest, r, |s|, p, q');
    } else {
      forall i | 0 <= i < |before| ensures !(before[i].start <= p && q <= before[i].end) {
        assert i < |rest| ==> after[i] == before[i];
      }
      assert !InOne(before, p, q);
    }
  }

  /** Rearranging a popped range and pushing what is not yet in order keeps
      every pair outside the pending ranges settled. */
  lemma SettledAfterPartition(s: seq<int>, t: seq<int>, rest: seq<Range>, r: Range, pushed: seq<Range>)
    requires WellFormed(rest + [r], |s|) && Settled(s, rest + [r])
    requires Permutation(s, t) && SameOutside(s, t, r) && 0 <= r.start && r.end < |t|
    requires forall i, j :: r.start <= i < j <= r.end && !InOne(pushed, i, j) ==> t[i] <= t[j]
    ensures Settled(t, rest + pushed)
  {
    forall p, q | 0 <= p < q < |t| && !InOne(rest + pushed, p, q) ensures t[p] <= t[q] {
      SettledAt(s, t, rest, r, pushed, p, q);
    }
  }

  /** What must hold of a partitioned range r before low and high are pushed. */
  ghost predicate Split(t: seq<int>, r: Range, low: Range, high: Range, pivot: int) {
    0 <= r.start < r.end < |t| &&
    low.start == r.start && high.end == r.end && low.end < high.start &&
    low.end < r.end && r.start < high.start <= r.end + 1 && r.start - 1 <= low.end &&
    (forall p :: r.start <= p < high.start ==> t[p] <= pivot) &&
    (forall p :: low.end < p <= r.end ==> t[p] >= pivot)
  }

  lemma SettledAfterSplit(s: seq<int>, t: seq<int>, rest: seq<Range>, r: Range, low: Range, high: Range, pivot: int)
    requires WellFormed(rest + [r], |s|) && Settled(s, rest + [r])
    requires Permutation(s, t) && SameOutside(s, t, r) && Split(t, r, low, high, pivot)
    ensures Settled(t, rest + Pushed(low, high))
  {
    forall p, q | r.start <= p < q <= r.end && !InOne(Pushed(low, high), p, q) ensures t[p] <= t[q] {
      PushedInOne(low, high, p, q);
    }
    SettledAfterPartition(s, t, rest, r, Pushed(low, high));
  }

  /** What holds of array and stack whenever the stack loop tests its guard. */
  ghost predicate Pending(s: seq<int>, stack: seq<Range>) {
    WellFormed(stack, |s|) && Settled(s, stack) && |stack| <= if |s| == 1 then 1 else |s| / 2
  }

  /** One round of the stack loop on a range worth partitioning. */
  lemma Advance(s: seq<int>, t: seq<int>, stack: seq<Range>, rest: seq<Range>, r: Range, low: Range, high: Range,
                pivot: int)
    requires stack == rest + [r] && Pending(s, stack)
    requires Permutation(s, t) && SameOutside(s, t, r) && Split(t, r, low, high, pivot)
    ensures var next := rest + Pushed(low, high);
            Pending(t, next) && 0 <= Weight(next) < Weight(stack)
  {
    var next := rest + Pushed(low, high);
    SettledAfterSplit(s, t, rest, r, low, high, pivot);
    PushedWellFormed(rest, r, low, high, |s|);
    PushedWeight(rest, low, high);
    PopWeight(rest, r);
    WeightNonNegative(next, |s|);
    CapacityBound(next, |s|);
  }

  /** One round on a range that is popped and dropped. */
  lemma Drop(s: seq<int>, stack: seq<Range>, rest: seq<Range>, r: Range)
    requires stack == rest + [r] && Pending(s, stack) && r.start >= r.end
    ensures Pending(s, rest) && 0 <= Weight(rest) < Weight(stack)
  {
    assert stack[|rest|] == r;
    CapacityBound(stack, |s|);
    PopWeight(rest, r);
  }

  lemma FirstRange(s: seq<int>, stack: seq<Range>)
    requires |s| >= 1 && stack == [Range(0, |s| - 1)]
    ensures Pending(s, stack)
  {
    assert stack[0] == Range(0, |s| - 1);
    assert forall p, q :: 0 <= p < q < |s| ==> InOne(stack, p, q);
  }

  /** The two guarded pushes that end a round, on the array of slots. */
  method Push(range: array<Range>, top: nat, low: Range, high: Range) returns (top': nat)
    requires top + |Pushed(low, high)| <= range.Length
    modifies range
    ensures top' <= range.Length && range[..top'] == old(range[..top]) + Pushed(low, high)
  {
    top' := top;
    if low.start < low.end {
      range[top'] := low;
      top' := top' + 1;
    }
    if high.start < high.end {
      range[top'] := high;
      top' := top' + 1;
    }
  }

  lemma SettledIsAscending(s: seq<int>)
    requires Pending(s, [])
    ensures Ascending(s)
  {
    forall p, q | 0 <= p < q < |s| ensures s[p] <= s[q] {
      assert !InOne([], p, q);
    }
  }
}
