/** The four sorts of sort_algo/ side by side on one input. */
module SortsAgree {
  import opened SortSpec
  import ShellSort
  import InsertSort
  import QuickSort
  import HoareSort

  method Copy(s: seq<int>) returns (a: array<int>)
    ensures fresh(a) && a[..] == s
  {
    a := new int[|s|](i requires 0 <= i < |s| => s[i]);
  }

  lemma Agree(input: seq<int>, quick: seq<int>, hoare: seq<int>, shell: seq<int>, insertion: seq<int>)
    requires Ascending(quick) && Permutation(input, quick) && Ascending(hoare) && Permutation(input, hoare)
    requires Descending(shell) && Permutation(input, shell) && Descending(insertion) && Permutation(input, insertion)
    ensures hoare == quick && shell == insertion == Reversed(quick)
  {
    AscendingMirrorsDescending(input, quick, shell);
    AscendingMirrorsDescending(input, quick, insertion);
    AscendingMirrorsDescending(input, hoare, shell);
    assert forall k :: 0 <= k < |hoare| ==> hoare[k] == shell[|shell| - 1 - k] == quick[k];
  }

  /** Both quicksorts give one array; Shell and insertion sort give its mirror. */
  method SortFourWays(input: seq<int>)
    returns (quick: seq<int>, hoare: seq<int>, shell: seq<int>, insertion: seq<int>)
    requires |input| >= 1
    ensures Ascending(quick) && Permutation(input, quick)
    ensures hoare == quick && shell == insertion == Reversed(quick)
  {
    var a := Copy(input);
    ghost var h := QuickSort.Sort(a);
    quick := a[..];
    a := Copy(input);
    h := HoareSort.Sort(a);
    hoare := a[..];
    a := Copy(input);
    ghost var g, p := ShellSort.Sort(a);
    shell := a[..];
    a := Copy(input);
    h := InsertSort.Sort(a);
    insertion := a[..];
    Agree(input, quick, hoare, shell, insertion);
  }
}
