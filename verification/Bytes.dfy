/** Bytes and the copying of them. */
module Bytes {

  newtype byte = x: int | 0 <= x < 256

  /** The bytes from off on replaced by v. */
  ghost function Written(bytes: seq<byte>, off: nat, v: seq<byte>): seq<byte>
    requires off + |v| <= |bytes|
  {
    bytes[..off] + v + bytes[off + |v|..]
  }

  lemma WrittenElsewhere(bytes: seq<byte>, off: nat, v: seq<byte>, p: nat, q: nat)
    requires off + |v| <= |bytes| && p <= q <= |bytes| && (q <= off || off + |v| <= p)
    ensures Written(bytes, off, v)[p..q] == bytes[p..q]
  {
    var w := Written(bytes, off, v);
    assert forall i :: p <= i < q ==> w[i] == bytes[i];
  }

  /** memcpy of v to offset off. */
  method Memcpy(dst: array<byte>, off: nat, v: seq<byte>)
    requires off + |v| <= dst.Length
    modifies dst
    ensures dst[..] == Written(old(dst[..]), off, v)
  {
    for i := 0 to |v|
      invariant forall p :: 0 <= p < dst.Length ==> dst[p] == if off <= p < off + i then v[p - off] else old(dst[p])
    {
      dst[off + i] := v[i];
    }
  }

  /** memcpy of v to the start of a caller's buffer. */
  method CopyOut(dst: array<byte>, v: seq<byte>)
    requires |v| <= dst.Length
    modifies dst
    ensures dst[..|v|] == v && dst[|v|..] == old(dst[|v|..])
  {
    Memcpy(dst, 0, v);
    assert dst[|v|..] == old(dst[..])[|v|..];
  }
}
