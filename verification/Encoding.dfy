/** Integers as bytes. */
module Encoding {
  import opened Basics

  /** The k low bytes of n, lowest first: PutUint64 writes eight, PutUint32 four. */
  function LittleEndian(n: nat, k: nat): (r: Bytes)
    ensures |r| == k
  {
    if k == 0 then [] else [(n % 256) as bv8] + LittleEndian(n / 256, k - 1)
  }

  /** The sum of b[i] * 256^i. */
  function FromLittleEndian(b: Bytes): nat {
    if b == [] then 0 else b[0] as nat + 256 * FromLittleEndian(b[1..])
  }

  /** Different bytes of one length are different numbers. */
  lemma {:induction false} ReadApart(a: Bytes, b: Bytes)
    requires |a| == |b| && FromLittleEndian(a) == FromLittleEndian(b)
    ensures a == b
    decreases |a|
  {
    if a != [] {
      LowByte(a[0], b[0], FromLittleEndian(a[1..]), FromLittleEndian(b[1..]));
      ReadApart(a[1..], b[1..]);
      assert a == [a[0]] + a[1..] && b == [b[0]] + b[1..];
    }
  }

  lemma LowByte(x: bv8, y: bv8, p: nat, q: nat)
    requires x as nat + 256 * p == y as nat + 256 * q
    ensures x == y && p == q
  {
    ByteRange(x);
    ByteRange(y);
  }

  lemma ByteRange(x: bv8)
    ensures (x as nat) < 256 && (x as nat) as bv8 == x
  {
  }

  lemma NextByte(b: bv8)
    requires b != 255
    ensures (b + 1) as nat == b as nat + 1
  {
  }

  lemma {:induction false} ByteBack(x: nat)
    requires x < 256
    ensures (x as bv8) as nat == x
  {
    if x > 0 {
      ByteBack(x - 1);
      var b := (x - 1) as bv8;
      NextByte(b);
      ByteRange(b + 1);
    }
  }

  /** The remainder by 256 p, from the low byte and the remainder of the rest by p. */
  lemma RemainderSplits(n: nat, p: nat)
    requires p > 0
    ensures n % (256 * p) == n % 256 + 256 * (n / 256 % p)
  {
    var q, r := n / 256 / p, n / 256 % p;
    assert n / 256 == p * q + r;
    var low := n % 256 + 256 * r;
    assert low < 256 * p by { MulMono(r + 1, p, 256); }
    assert n == 256 * p * q + low by { assert 256 * (p * q) == 256 * p * q; }
    RemainderIs(n, 256 * p, q, low);
  }

  lemma RemainderIs(n: nat, d: nat, q: nat, r: nat)
    requires r < d && n == d * q + r
    ensures n % d == r
  {
    var q', r' := n / d, n % d;
    assert n == d * q' + r';
    if q' > q { MulMono(q + 1, q', d); }
    if q' < q { MulMono(q' + 1, q, d); }
  }

  /** Reading back what was written gives the number, cut at k bytes. */
  lemma {:induction false} WrittenAndRead(n: nat, k: nat)
    ensures FromLittleEndian(LittleEndian(n, k)) == n % Pow2(8 * k)
    decreases k
  {
    if k > 0 {
      var b := LittleEndian(n, k);
      assert b[1..] == LittleEndian(n / 256, k - 1);
      WrittenAndRead(n / 256, k - 1);
      ByteBack(n % 256);
      RemainderSplits(n, Pow2(8 * (k - 1)));
      assert Pow2(8 * k) == 256 * Pow2(8 * (k - 1)) by { Pow2Add(8, 8 * (k - 1)); assert Pow2(8) == 256; }
    }
  }

  /** A number that fits is read back. */
  lemma ReadBack(n: nat, k: nat)
    requires n < Pow2(8 * k)
    ensures FromLittleEndian(LittleEndian(n, k)) == n
  {
    WrittenAndRead(n, k);
    RemainderIs(n, Pow2(8 * k), 0, n);
  }
}
