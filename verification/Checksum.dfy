/** socket_udp/common/lcmsg/lcmsg.c, SetCheckSum and CheckCheckSum: the last
    byte of a message is the sum of all the others, modulo 256. */
module Checksum {
  import opened Bytes

  ghost function Sum(s: seq<byte>): int {
    if s == [] then 0 else Sum(s[..|s| - 1]) + s[|s| - 1] as int
  }

  /** The sum of the differences, byte by byte. */
  ghost function Difference(a: seq<byte>, b: seq<byte>): int
    requires |a| == |b|
  {
    if a == [] then 0
    else Difference(a[..|a| - 1], b[..|b| - 1]) + b[|b| - 1] as int - a[|a| - 1] as int
  }

  lemma {:induction false} DifferenceOfSums(a: seq<byte>, b: seq<byte>)
    requires |a| == |b|
    ensures Sum(b) == Sum(a) + Difference(a, b)
  {
    if a != [] {
      DifferenceOfSums(a[..|a| - 1], b[..|b| - 1]);
    }
  }

  function Zeros(n: nat): seq<byte> {
    seq(n, i => 0)
  }

  lemma {:induction false} SumOfZeros(n: nat)
    ensures Sum(Zeros(n)) == 0
  {
    if n > 0 {
      assert Zeros(n)[..n - 1] == Zeros(n - 1);
      SumOfZeros(n - 1);
    }
  }

  /** The message with this many bytes in front of the checksum adds up. */
  ghost predicate Consistent(msg: seq<byte>)
    requires |msg| >= 1
  {
    msg[|msg| - 1] as int == Sum(msg[..|msg| - 1]) % 256
  }

  /** The loop both functions start with. */
  method SumBytes(tmp: array<byte>, n: nat) returns (sum: byte)
    requires n <= tmp.Length
    ensures sum as int == Sum(tmp[..n]) % 256 == Difference(Zeros(n), tmp[..n]) % 256
  {
    sum := 0;
    for i := 0 to n
      invariant sum as int == Sum(tmp[..i]) % 256
    {
      assert tmp[..i + 1][..i] == tmp[..i];
      sum := ((sum as int + tmp[i] as int) % 256) as byte;
    }
    SumOfZeros(n);
    DifferenceOfSums(Zeros(n), tmp[..n]);
  }

  method SetCheckSum(tmp: array<byte>)
    requires tmp.Length >= 1
    modifies tmp
    ensures Consistent(tmp[..])
    ensures tmp[..tmp.Length - 1] == old(tmp[..tmp.Length - 1])
    ensures var n := tmp.Length - 1; tmp[n] as int == Difference(Zeros(n), tmp[..n]) % 256
  {
    var n := tmp.Length - 1;
    var sum := SumBytes(tmp, n);
    tmp[n] := sum;
    assert tmp[..][..n] == tmp[..n];
  }

  method CheckCheckSum(tmp: array<byte>) returns (r: int)
    requires tmp.Length >= 1
    ensures r == if Consistent(tmp[..]) then 1 else 0
    ensures var n := tmp.Length - 1; r == if tmp[n] as int == Difference(Zeros(n), tmp[..n]) % 256 then 1 else 0
  {
    var n := tmp.Length - 1;
    var sum := SumBytes(tmp, n);
    assert tmp[..][..n] == tmp[..n];
    if sum == tmp[n] {
      return 1;
    } else {
      return 0;
    }
  }

  lemma SameRemainder(x: int, y: int, d: int)
    requires y == x + d
    ensures y % 256 == x % 256 <==> d % 256 == 0
  {
    var q, r, k, e := x / 256, x % 256, d / 256, d % 256;
    assert x == 256 * q + r && d == 256 * k + e;
    if r + e < 256 {
      assert y == 256 * (q + k) + (r + e);
    } else {
      assert y == 256 * (q + k + 1) + (r + e - 256);
    }
  }

  lemma ConsistentWith(a: seq<byte>, c: byte)
    ensures Consistent(a + [c]) <==> c as int == Sum(a) % 256
  {
    assert (a + [c])[..|a|] == a;
  }

  /** A body of zeros has the checksum zero and no other. */
  lemma ZerosHaveChecksumZero(n: nat, c: byte)
    ensures Consistent(Zeros(n) + [c]) <==> c == 0
  {
    ConsistentWith(Zeros(n), c);
    SumOfZeros(n);
  }

  /** A message is consistent if and only if its checksum is what the body is
      away from zeros, modulo 256. */
  lemma ConsistentByDistance(a: seq<byte>, c: byte)
    ensures Consistent(a + [c]) <==> c as int == Difference(Zeros(|a|), a) % 256
  {
    assert Sum(a) == Difference(Zeros(|a|), a) by {
      SumOfZeros(|a|);
      DifferenceOfSums(Zeros(|a|), a);
    }
    ConsistentWith(a, c);
  }

  /** A body altered under a checksum that was right still passes if and only
      if the differences of its bytes add up to 0 modulo 256. */
  lemma AlteredBodyPasses(a: seq<byte>, b: seq<byte>, c: byte)
    requires |a| == |b| && Consistent(a + [c])
    ensures Consistent(b + [c]) <==> Difference(a, b) % 256 == 0
  {
    ConsistentWith(a, c);
    ConsistentWith(b, c);
    DifferenceOfSums(a, b);
    SameRemainder(Sum(a), Sum(b), Difference(a, b));
  }

  lemma {:induction false} DifferenceOfOne(a: seq<byte>, i: nat, x: byte)
    requires i < |a|
    ensures Difference(a, a[i := x]) == x as int - a[i] as int
  {
    var n := |a| - 1;
    var b := a[i := x];
    if i == n {
      assert b[..n] == a[..n];
      NoDifference(a[..n]);
    } else {
      assert b[..n] == a[..n][i := x];
      DifferenceOfOne(a[..n], i, x);
    }
  }

  lemma {:induction false} NoDifference(a: seq<byte>)
    ensures Difference(a, a) == 0
  {
    if a != [] {
      NoDifference(a[..|a| - 1]);
    }
  }

  /** Every change of one byte is caught, be it in the body or the checksum. */
  lemma OneByteIsCaught(msg: seq<byte>, i: nat, x: byte)
    requires |msg| >= 1 && Consistent(msg) && i < |msg| && x != msg[i]
    ensures !Consistent(msg[i := x])
  {
    var n := |msg| - 1;
    var a, c := msg[..n], msg[n];
    assert msg == a + [c];
    if i < n {
      assert msg[i := x] == a[i := x] + [c];
      AlteredBodyPasses(a, a[i := x], c);
      DifferenceOfOne(a, i, x);
    } else {
      assert msg[i := x][..n] == a;
    }
  }

  /** Set, alter the body, check: the verdict as the receiver gets it. */
  method SetAlterCheck(tmp: array<byte>, body: seq<byte>) returns (r: int)
    requires tmp.Length == |body| + 1
    modifies tmp
    ensures r == if Difference(old(tmp[..|body|]), body) % 256 == 0 then 1 else 0
  {
    ghost var a := tmp[..|body|];
    SetCheckSum(tmp);
    ghost var c := tmp[|body|];
    assert tmp[..] == a + [c];
    Memcpy(tmp, 0, body);
    assert tmp[..] == body + [c];
    r := CheckCheckSum(tmp);
    AlteredBodyPasses(a, body, c);
  }
}
