/** XOR of byte strings. */
module ByteXor {
  import opened Basics

  function Xored(a: Bytes, k: Bytes): (r: Bytes)
    requires |a| <= |k|
    ensures |r| == |a| && forall j :: 0 <= j < |a| ==> r[j] == a[j] ^ k[j]
  {
    seq(|a|, j requires 0 <= j < |a| => a[j] ^ k[j])
  }

  lemma XorCancels(x: bv8, y: bv8, a: bv8)
    ensures x ^ a == y ^ a <==> x == y
    ensures x ^ x == 0
    ensures x ^ y == 0 <==> x == y
  {
  }

  lemma XoredTwice(d: Bytes, a: Bytes, b: Bytes)
    requires |d| == |a| == |b|
    ensures Xored(Xored(d, a), b) == d <==> a == b
  {
  }

  lemma XoredBack(d: Bytes, k: Bytes)
    requires |d| <= |k|
    ensures Xored(Xored(d, k), k) == d
  {
  }

  lemma XoredParts(d: Bytes, l: nat, k: Bytes, rest: Bytes)
    requires l <= |d| && l <= |k| && |d| == l + |rest|
    ensures Xored(d[..l], k) + Xored(d[l..], rest) == Xored(d, k[..l] + rest)
  {
  }
}
