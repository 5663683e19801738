/** Small notions that several modules share. */
module Common {

  datatype Option<T> = None | Some(value: T)

  ghost predicate Differ<T>(s: seq<T>, i: nat, j: nat)
    requires i < |s| && j < |s|
  {
    s[i] != s[j]
  }

  ghost predicate Distinct<T>(s: seq<T>) {
    forall i: nat, j: nat {:trigger Differ(s, i, j)} :: i < |s| && j < |s| && i != j ==> Differ(s, i, j)
  }

  lemma DistinctAppend<T>(s: seq<T>, x: T)
    requires Distinct(s) && x !in s
    ensures Distinct(s + [x])
  {
    var t := s + [x];
    forall i: nat, j: nat | i < |t| && j < |t| && i != j ensures Differ(t, i, j) {
      if i < |s| && j < |s| {
        assert Differ(s, i, j);
      } else {
        assert i < |s| ==> t[i] in s;
        assert j < |s| ==> t[j] in s;
      }
    }
  }

  lemma DistinctRest<T>(s: seq<T>)
    requires Distinct(s) && s != []
    ensures Distinct(s[1..]) && s[0] !in s[1..]
  {
    var t := s[1..];
    forall i: nat, j: nat | i < |t| && j < |t| && i != j ensures Differ(t, i, j) {
      assert Differ(s, i + 1, j + 1);
    }
    forall i | 0 <= i < |t| ensures t[i] != s[0] {
      assert Differ(s, i + 1, 0);
    }
  }
}
