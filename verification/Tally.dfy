/** Totals over a sequence, and what changing one element does to them. */
module Tally {

  ghost function Total<T>(s: seq<T>, f: T -> nat): nat {
    if s == [] then 0 else Total(s[..|s| - 1], f) + f(s[|s| - 1])
  }

  /** How often x occurs in s. */
  ghost function Occurs<T>(s: seq<T>, x: T): nat {
    Total(s, Is(x))
  }

  ghost function Is<T>(x: T): T -> nat {
    y => if x == y then 1 else 0
  }

  lemma {:induction false} TotalUpdate<T>(s: seq<T>, i: nat, x: T, f: T -> nat)
    requires i < |s|
    ensures Total(s[i := x], f) + f(s[i]) == Total(s, f) + f(x)
  {
    var n := |s| - 1;
    if i == n {
      assert s[i := x][..n] == s[..n];
    } else {
      assert s[i := x][..n] == s[..n][i := x];
      TotalUpdate(s[..n], i, x, f);
    }
  }

  lemma TotalAppend<T>(s: seq<T>, x: T, f: T -> nat)
    ensures Total(s + [x], f) == Total(s, f) + f(x)
  {
    assert (s + [x])[..|s|] == s;
  }

  lemma {:induction false} TotalZero<T>(s: seq<T>, f: T -> nat)
    requires forall i :: 0 <= i < |s| ==> f(s[i]) == 0
    ensures Total(s, f) == 0
  {
    if s != [] {
      TotalZero(s[..|s| - 1], f);
    }
  }

  lemma {:induction false} TotalSame<T>(s: seq<T>, t: seq<T>, f: T -> nat)
    requires |s| == |t| && forall i :: 0 <= i < |s| ==> f(s[i]) == f(t[i])
    ensures Total(s, f) == Total(t, f)
  {
    if s != [] {
      TotalSame(s[..|s| - 1], t[..|t| - 1], f);
    }
  }

  lemma {:induction false} TotalPositive<T>(s: seq<T>, f: T -> nat)
    requires Total(s, f) > 0
    ensures exists i :: 0 <= i < |s| && f(s[i]) > 0
  {
    var n := |s| - 1;
    if f(s[n]) == 0 {
      TotalPositive(s[..n], f);
      var i :| 0 <= i < n && f(s[..n][i]) > 0;
      assert f(s[i]) > 0;
    }
  }

  lemma {:induction false} TotalAtLeast<T>(s: seq<T>, i: nat, f: T -> nat)
    requires i < |s|
    ensures f(s[i]) <= Total(s, f)
  {
    if i < |s| - 1 {
      TotalAtLeast(s[..|s| - 1], i, f);
    }
  }

  lemma {:induction false} TotalConcat<T>(s: seq<T>, t: seq<T>, f: T -> nat)
    ensures Total(s + t, f) == Total(s, f) + Total(t, f)
  {
    if t == [] {
      assert s + t == s;
    } else {
      var n := |t| - 1;
      TotalConcat(s, t[..n], f);
      assert s + t == (s + t[..n]) + [t[n]];
      TotalAppend(s + t[..n], t[n], f);
    }
  }

  lemma {:induction false} TotalTwo<T>(s: seq<T>, j: nat, k: nat, f: T -> nat)
    requires j < k < |s|
    ensures Total(s, f) >= f(s[j]) + f(s[k])
  {
    var n := |s| - 1;
    if k < n {
      TotalTwo(s[..n], j, k, f);
    } else {
      TotalAtLeast(s[..n], j, f);
    }
  }
}
