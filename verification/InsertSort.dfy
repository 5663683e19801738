/** sort_algo/insert_sort.c: straight insertion, descending. Beside the result,
    the work done is pinned down: one shift per out-of-order pair of the input. */
module InsertSort {
  import opened SortSpec

  /** The pairs of positions that are out of order for a descending sort. */
  ghost function OutOfOrder(s: seq<int>): set<(int, int)> {
    set p, q | 0 <= p < q < |s| && s[p] < s[q] :: (p, q)
  }

  ghost function SmallerBefore(s: seq<int>, v: int, n: int): set<(int, int)> {
    set p | 0 <= p < |s| && s[p] < v :: (p, n)
  }

  lemma {:induction false} CountSmaller(s: seq<int>, v: int, n: int)
    ensures |SmallerBefore(s, v, n)| == |s| - CountGE(s, v)
  {
    if s == [] {
      assert SmallerBefore(s, v, n) == {};
    } else {
      var k := |s| - 1;
      CountSmaller(s[..k], v, n);
      var rest := SmallerBefore(s[..k], v, n);
      assert (k, n) !in rest;
      assert SmallerBefore(s, v, n) == if s[k] < v then rest + {(k, n)} else rest;
    }
  }

  lemma OutOfOrderStep(s: seq<int>, v: int)
    ensures |OutOfOrder(s + [v])| == |OutOfOrder(s)| + |s| - CountGE(s, v)
  {
    var t := s + [v];
    var before, added := OutOfOrder(s), SmallerBefore(s, v, |s|);
    assert OutOfOrder(t) == before + added by {
      forall x | x in OutOfOrder(t) ensures x in before + added {
        var (p, q) := x;
        assert t[p] < t[q] && t[p] == s[p];
      }
      forall x | x in before + added ensures x in OutOfOrder(t) {
        assert t[x.0] < t[x.1];
      }
    }
    assert before !! added;
    CountSmaller(s, v, |s|);
  }

  /** s with the element at i taken out and put back at j. */
  ghost function Inserted(s: seq<int>, i: nat, j: nat): seq<int>
    requires j <= i < |s|
  {
    s[..j] + [s[i]] + s[j..i] + s[i + 1..]
  }

  lemma InsertedPermutes(s: seq<int>, i: nat, j: nat)
    requires j <= i < |s|
    ensures var t := Inserted(s, i, j);
            Permutation(s[..i + 1], t[..i + 1]) && t[i + 1..] == s[i + 1..]
  {
    var t := Inserted(s, i, j);
    assert t[..i + 1] == s[..j] + [s[i]] + s[j..i];
    assert s[..i + 1] == s[..j] + s[j..i] + [s[i]];
  }

  lemma InsertedInOrder(s: seq<int>, i: nat, j: nat)
    requires j <= i < |s| && Descending(s[..i])
    requires j == 0 || s[j - 1] >= s[i]
    requires forall p :: j <= p < i ==> s[p] < s[i]
    ensures Descending(Inserted(s, i, j)[..i + 1])
    ensures CountGE(s[..i], s[i]) == j
  {
    var t, u := Inserted(s, i, j)[..i + 1], s[..i];
    assert forall p :: 0 <= p < j ==> u[p] >= u[j - 1] >= s[i];
    assert forall p :: j <= p < i ==> u[p] == s[p];
    CountGEOfPrefix(u, j, s[i]);
    assert forall p :: 0 <= p < j ==> t[p] == u[p];
    assert forall p :: j < p <= i ==> t[p] == u[p - 1];
  }

  /** The inner loop; shifts counts its assignments. */
  method Shift(a: array<int>, i: nat, tmp: int) returns (j: nat, ghost shifts: nat)
    requires i < a.Length
    modifies a
    ensures j <= i && shifts == i - j
    ensures forall p :: 0 <= p <= j ==> a[p] == old(a[p])
    ensures forall p :: j < p <= i ==> a[p] == old(a[p - 1]) < tmp
    ensures forall p :: i < p < a.Length ==> a[p] == old(a[p])
    ensures j == 0 || a[j - 1] >= tmp
  {
    j := i;
    shifts := 0;
    while j > 0 && tmp > a[j - 1]
      invariant j <= i && shifts == i - j
      invariant forall p :: 0 <= p <= j ==> a[p] == old(a[p])
      invariant forall p :: j < p <= i ==> a[p] == old(a[p - 1]) < tmp
      invariant forall p :: i < p < a.Length ==> a[p] == old(a[p])
    {
      a[j] := a[j - 1];
      shifts := shifts + 1;
      j := j - 1;
    }
  }

  lemma InsertedBy(s: seq<int>, t: seq<int>, i: nat, j: nat)
    requires j <= i < |s| == |t|
    requires forall p :: 0 <= p < j ==> t[p] == s[p]
    requires t[j] == s[i]
    requires forall p :: j < p <= i ==> t[p] == s[p - 1]
    requires forall p :: i < p < |s| ==> t[p] == s[p]
    ensures t == Inserted(s, i, j)
  {
  }

  /** The body of the outer loop. */
  method Insert(a: array<int>, i: nat) returns (ghost shifts: nat)
    requires i < a.Length && Descending(a[..i])
    modifies a
    ensures Descending(a[..i + 1])
    ensures Permutation(old(a[..i + 1]), a[..i + 1]) && a[i + 1..] == old(a[i + 1..])
    ensures shifts == i - CountGE(old(a[..i]), old(a[i]))
  {
    ghost var s := a[..];
    var tmp := a[i];
    var j;
    j, shifts := Shift(a, i, tmp);
    forall p | j <= p < i ensures s[p] < tmp { assert a[p + 1] == s[p + 1 - 1]; }
    a[j] := tmp;
    InsertedBy(s, a[..], i, j);
    InsertedPermutes(s, i, j);
    InsertedInOrder(s, i, j);
  }

  /** lc_insert_sort. */
  method Sort(a: array<int>) returns (ghost shifts: nat)
    modifies a
    ensures Descending(a[..]) && Permutation(old(a[..]), a[..])
    ensures shifts == |OutOfOrder(old(a[..]))|
  {
    ghost var s := a[..];
    shifts := 0;
    var i := 1;
    assert OutOfOrder(s[..if |s| == 0 then 0 else 1]) == {};
    while i < a.Length
      invariant 1 <= i && (i <= a.Length || a.Length == 0)
      invariant a.Length > 0 ==> Descending(a[..i]) && Permutation(s[..i], a[..i]) && a[i..] == s[i..]
      invariant a.Length > 0 ==> shifts == |OutOfOrder(s[..i])|
      invariant a.Length == 0 ==> shifts == 0
    {
      ghost var b := a[..];
      ghost var k := Insert(a, i);
      assert b[i] == s[i] by { assert a.Length > 0 && b[i..][0] == s[i..][0]; }
      CountGEPermutation(s[..i], b[..i], s[i]);
      OutOfOrderStep(s[..i], s[i]);
      assert s[..i + 1] == s[..i] + [s[i]] && b[..i + 1] == b[..i] + [b[i]];
      assert a[i + 1..] == s[i + 1..] by { assert b[i..][1..] == s[i..][1..]; }
      shifts := shifts + k;
      i := i + 1;
    }
    assert a.Length > 0 ==> a[..i] == a[..] && s[..i] == s;
  }
}
