/** The XOR metric on addresses: the byte-wise comparison and the bounded prefix scan,
    against the distance as a big-endian integer. */
module Metric {
  import opened Basics
  import opened ByteXor

  datatype Result<T> = Ok(value: T) | LengthMismatch

  /** The integer big.Int.SetBytes makes of a byte string. */
  function Value(b: Bytes): nat {
    if b == [] then 0 else (b[0] as int) * Pow2(8 * (|b| - 1)) + Value(b[1..])
  }

  function Dist(x: Bytes, y: Bytes): nat
    requires |x| == |y|
  {
    Value(Xored(x, y))
  }

  // ---------------------------------------------------------------- the code

  method DistanceRaw(x: Bytes, y: Bytes) returns (r: Result<Bytes>)
    ensures r == if |x| == |y| then Ok(Xored(x, y)) else LengthMismatch
  {
    if |x| != |y| { return LengthMismatch; }
    var c := new bv8[|x|];
    for i := 0 to |x|
      invariant forall j :: 0 <= j < i ==> c[j] == x[j] ^ y[j]
    {
      c[i] := x[i] ^ y[i];
    }
    assert c[..] == Xored(x, y);
    return Ok(c[..]);
  }

  method Distance(x: Bytes, y: Bytes) returns (r: Result<nat>)
    ensures r == if |x| == |y| then Ok(Dist(x, y)) else LengthMismatch
  {
    var raw := DistanceRaw(x, y);
    r := match raw case Ok(b) => Ok(Value(b)) case LengthMismatch => LengthMismatch;
  }

  /** 1, 0 or -1 as x is nearer to a than y, the same, or farther. */
  method DistanceCmp(a: Bytes, x: Bytes, y: Bytes) returns (r: Result<int>)
    ensures r.LengthMismatch? <==> !(|a| == |x| == |y|)
    ensures r.Ok? ==>
      && (r.value == 1 <==> Dist(x, a) < Dist(y, a))
      && (r.value == -1 <==> Dist(x, a) > Dist(y, a))
      && (r.value == 0 <==> Dist(x, a) == Dist(y, a))
      && (r.value == 0 <==> x == y)
      && -1 <= r.value <= 1
  {
    if |a| != |x| || |a| != |y| { return LengthMismatch; }
    for i := 0 to |a|
      invariant x[..i] == y[..i]
    {
      var dx := x[i] ^ a[i];
      var dy := y[i] ^ a[i];
      FirstByteDecides(Xored(x, a), Xored(y, a), i);
      XorCancels(x[i], y[i], a[i]);
      if dx == dy {
        continue;
      } else if dx < dy {
        return Ok(1);
      }
      return Ok(-1);
    }
    assert x == y;
    return Ok(0);
  }

  const MAX_PO: nat := 31

  /** Bytes scanned by Proximity: the lengths go through uint8. */
  function Scanned(x: Bytes, y: Bytes): nat {
    Min(MAX_PO / 8 + 1, Min(|x| % 256, |y| % 256))
  }

  function ScanResult(x: Bytes, y: Bytes): nat {
    if CommonBits(x, y) < 8 * Scanned(x, y) then CommonBits(x, y) else MAX_PO
  }

  method Proximity(one: Bytes, other: Bytes) returns (r: nat)
    ensures r == ScanResult(one, other)
    ensures r == Po(one, other)
       <==> Scanned(one, other) == 4 || CommonBits(one, other) < 8 * Scanned(one, other)
            || CommonBits(one, other) >= MAX_PO
  {
    var b := MAX_PO / 8 + 1;
    if b > |one| % 256 { b := |one| % 256; }
    if b > |other| % 256 { b := |other| % 256; }
    assert b == Scanned(one, other);
    for i := 0 to b
      invariant one[..i] == other[..i]
    {
      var oxo := one[i] ^ other[i];
      assert one[..i + 1] == one[..i] + [one[i]] && other[..i + 1] == other[..i] + [other[i]];
      var j := FirstBit(oxo);
      CommonBitsAt(one, other, i);
      LeadOfEqual(one[i], other[i]);
      if j < 8 { return i * 8 + j; }
    }
    CommonBitsAtLeast(one, other, b);
    return MAX_PO;
  }

  /** Addresses of 256 bytes are not scanned at all: the farthest look like the nearest. */
  lemma FarLooksNear(x: Bytes, y: Bytes)
    requires |x| == |y| == 256 && x[0] ^ y[0] >= 128
    ensures Po(x, y) == 0 && ScanResult(x, y) == MAX_PO
  {
    LeadIs(x[0] ^ y[0]);
    XorCancels(x[0], y[0], y[0]);
  }

  /** The inner loop: the position of the highest set bit. */
  method FirstBit(oxo: bv8) returns (j: nat)
    ensures j == Lead(oxo)
  {
    LeadIs(oxo);
    j := 0;
    while j < 8
      invariant j <= 8 && Lead(oxo) >= j
    {
      BitIsLead(oxo, j);
      if (oxo >> (7 - j)) & 1 != 0 { return; }
      j := j + 1;
    }
  }

  // ---------------------------------------------------------------- bytes

  /** Leading zero bits of a byte. */
  function Lead(v: bv8): nat {
    LeadFrom(v, 128)
  }

  function LeadFrom(v: bv8, t: bv8): nat
    decreases t
  {
    if t == 0 || v >= t then 0 else 1 + LeadFrom(v, t >> 1)
  }

  /** The same by comparison with the powers of two. */
  function LeadTable(v: bv8): nat {
    if v >= 128 then 0 else if v >= 64 then 1 else if v >= 32 then 2 else if v >= 16 then 3
    else if v >= 8 then 4 else if v >= 4 then 5 else if v >= 2 then 6 else if v >= 1 then 7 else 8
  }

  lemma LeadIs(v: bv8)
    ensures Lead(v) == LeadTable(v)
  {
    assert LeadFrom(v, 1) == if v >= 1 then 0 else 1;
    assert LeadFrom(v, 2) == if v >= 2 then 0 else 1 + LeadFrom(v, 1);
    assert LeadFrom(v, 4) == if v >= 4 then 0 else 1 + LeadFrom(v, 2);
    assert LeadFrom(v, 8) == if v >= 8 then 0 else 1 + LeadFrom(v, 4);
    assert LeadFrom(v, 16) == if v >= 16 then 0 else 1 + LeadFrom(v, 8);
    assert LeadFrom(v, 32) == if v >= 32 then 0 else 1 + LeadFrom(v, 16);
    assert LeadFrom(v, 64) == if v >= 64 then 0 else 1 + LeadFrom(v, 32);
  }

  lemma BitIsLead(v: bv8, j: nat)
    requires j < 8 && Lead(v) >= j
    ensures (v >> (7 - j)) & 1 != 0 <==> Lead(v) == j
  {
    LeadIs(v);
    match j
    case 0 => case 1 => case 2 => case 3 => case 4 => case 5 => case 6 => case _ =>
  }

  lemma LeadOfEqual(x: bv8, y: bv8)
    ensures Lead(x ^ y) <= 8 && (Lead(x ^ y) == 8 <==> x == y)
  {
    XorCancels(x, y, y);
    LeadIs(x ^ y);
  }

  lemma ByteOrder(a: bv8, b: bv8)
    ensures a < b <==> (a as int) < (b as int)
    ensures (a as int) < 256
  {
  }

  /** What the first bytes make of the common bits of the rest. */
  function Head(a: bv8, b: bv8, rest: nat): nat {
    if a == b then 8 + rest else Lead(a ^ b)
  }

  /** Bits in which x and y agree before the first difference. */
  function CommonBits(x: Bytes, y: Bytes): nat {
    if x == [] || y == [] then 0
    else Head(x[0], y[0], CommonBits(x[1..], y[1..]))
  }

  lemma {:induction false} CommonBitsAt(x: Bytes, y: Bytes, i: nat)
    requires i < |x| && i < |y| && x[..i] == y[..i]
    ensures x[i] != y[i] ==> CommonBits(x, y) == 8 * i + Lead(x[i] ^ y[i])
    decreases i
  {
    if i > 0 {
      assert x[0] == x[..i][0] && y[0] == y[..i][0];
      assert x[1..][..i - 1] == x[..i][1..] && y[1..][..i - 1] == y[..i][1..];
      CommonBitsAt(x[1..], y[1..], i - 1);
    }
  }

  lemma {:induction false} CommonBitsAtLeast(x: Bytes, y: Bytes, i: nat)
    requires i <= |x| && i <= |y| && x[..i] == y[..i]
    ensures CommonBits(x, y) >= 8 * i
    decreases i
  {
    if i > 0 {
      assert x[0] == x[..i][0] && y[0] == y[..i][0];
      assert x[1..][..i - 1] == x[..i][1..] && y[1..][..i - 1] == y[..i][1..];
      CommonBitsAtLeast(x[1..], y[1..], i - 1);
    }
  }

  // ---------------------------------------------------------------- order

  lemma {:induction false} ValueBound(b: Bytes)
    ensures Value(b) < Pow2(8 * |b|)
  {
    if b != [] {
      ValueBound(b[1..]);
      ByteOrder(b[0], 0);
      Pow2Byte(|b| - 1);
      MulMono((b[0] as int) + 1, 256, Pow2(8 * (|b| - 1)));
    }
  }

  lemma Pow2Byte(n: nat)
    ensures Pow2(8 * (n + 1)) == 256 * Pow2(8 * n)
  {
    Pow2Add(8 * n, 8);
    assert Pow2(8) == 256 by { assert Pow2(4) == 16; }
  }

  /** The first byte that differs decides which integer is larger. */
  lemma {:induction false} FirstByteDecides(u: Bytes, v: Bytes, i: nat)
    requires |u| == |v| && i < |u| && u[..i] == v[..i]
    ensures u[i] < v[i] ==> Value(u) < Value(v)
    ensures u[i] > v[i] ==> Value(u) > Value(v)
    decreases i
  {
    if i > 0 {
      assert u[0] == u[..i][0] && v[0] == v[..i][0];
      assert u[1..][..i - 1] == u[..i][1..] && v[1..][..i - 1] == v[..i][1..];
      FirstByteDecides(u[1..], v[1..], i - 1);
    } else {
      if u[0] < v[0] { HeadDecides(u, v); }
      if v[0] < u[0] { HeadDecides(v, u); }
    }
  }

  lemma HeadDecides(u: Bytes, v: Bytes)
    requires |u| == |v| > 0 && u[0] < v[0]
    ensures Value(u) < Value(v)
  {
    ByteOrder(u[0], v[0]);
    DigitsDecide(u, v, u[0] as int, v[0] as int);
  }

  lemma DigitsDecide(u: Bytes, v: Bytes, a: nat, b: nat)
    requires |u| == |v| > 0 && a == (u[0] as int) && b == (v[0] as int) && a < b
    ensures Value(u) < Value(v)
  {
    ValueBound(u[1..]);
    HigherDigitWins(a, b, Pow2(8 * (|u| - 1)), Value(u[1..]), Value(v[1..]));
  }

  lemma HigherDigitWins(a: nat, b: nat, p: nat, r: nat, q: nat)
    requires r < p
    ensures a < b ==> a * p + r < b * p + q
  {
    if a < b { MulMono(a + 1, b, p); }
  }

  // ---------------------------------------------------------------- proximity

  /** c is the reverse rank, among n bits, of the integer logarithm of d. */
  predicate IsLog(n: nat, c: nat, d: nat) {
    c < n && Pow2(n - 1 - c) <= d < Pow2(n - c)
  }

  lemma LogFromHead(n: nat, k: nat, h: nat, r: nat)
    requires k < 8 && Pow2(7 - k) <= h < Pow2(8 - k) && r < Pow2(8 * n)
    ensures IsLog(8 * n + 8, k, h * Pow2(8 * n) + r)
  {
    Pow2Add(8 * n, 7 - k);
    Pow2Add(8 * n, 8 - k);
    DigitBounds(Pow2(7 - k), h, Pow2(8 - k), Pow2(8 * n), r);
  }

  lemma DigitBounds(lo: nat, h: nat, hi: nat, p: nat, r: nat)
    requires lo <= h < hi && r < p
    ensures p * lo <= h * p + r < p * hi
  {
    MulMono(lo, h, p);
    MulMono(h + 1, hi, p);
  }

  lemma LeadBounds(v: bv8)
    requires v != 0
    ensures Lead(v) < 8 && Pow2(7 - Lead(v)) <= (v as int) < Pow2(8 - Lead(v))
  {
    LeadIs(v);
    ByteOrder(v, 0); ByteOrder(v, 1); ByteOrder(v, 2); ByteOrder(v, 4); ByteOrder(v, 8);
    ByteOrder(v, 16); ByteOrder(v, 32); ByteOrder(v, 64); ByteOrder(v, 128);
    assert Pow2(0) == 1 && Pow2(1) == 2 && Pow2(2) == 4 && Pow2(3) == 8 && Pow2(4) == 16;
    assert Pow2(5) == 32 && Pow2(6) == 64 && Pow2(7) == 128 && Pow2(8) == 256;
  }

  /** Leading zero bits of a byte string. */
  function LeadBits(b: Bytes): nat {
    if b == [] then 0 else if b[0] == 0 then 8 + LeadBits(b[1..]) else Lead(b[0])
  }

  lemma HeadOfXor(a: bv8, b: bv8, rest: nat)
    ensures Head(a, b, rest) == if a ^ b == 0 then 8 + rest else Lead(a ^ b)
  {
  }

  lemma {:induction false} CommonBitsAreLeadBits(x: Bytes, y: Bytes)
    requires |x| == |y|
    ensures CommonBits(x, y) == LeadBits(Xored(x, y))
  {
    if x != [] {
      var b := Xored(x, y);
      assert b[1..] == Xored(x[1..], y[1..]);
      CommonBitsAreLeadBits(x[1..], y[1..]);
      HeadOfXor(x[0], y[0], LeadBits(b[1..]));
    }
  }

  lemma ZeroHead(b: Bytes)
    requires b != [] && b[0] == 0
    ensures Value(b) == Value(b[1..]) && LeadBits(b) == 8 + LeadBits(b[1..])
  {
    assert (b[0] as int) == 0;
  }

  lemma {:induction false} LeadBitsIsLog(b: Bytes)
    requires Value(b) != 0
    ensures IsLog(8 * |b|, LeadBits(b), Value(b))
  {
    if b[0] == 0 {
      ZeroHead(b);
      LeadBitsIsLog(b[1..]);
    } else {
      LeadBounds(b[0]);
      ValueBound(b[1..]);
      LogFromHead(|b| - 1, LeadBits(b), b[0] as int, Value(b[1..]));
    }
  }

  lemma {:induction false} ValueZero(b: Bytes)
    ensures Value(b) == 0 <==> forall i :: 0 <= i < |b| ==> b[i] == 0
  {
    if b != [] {
      ByteOrder(0, b[0]);
      if b[0] != 0 { MulMono(1, b[0] as int, Pow2(8 * (|b| - 1))); }
      ValueZero(b[1..]);
      assert forall i :: 0 <= i < |b| - 1 ==> b[1..][i] == b[i + 1];
    }
  }

  /** No distance means the same address. */
  lemma DistZero(x: Bytes, y: Bytes)
    requires |x| == |y|
    ensures Dist(x, y) == 0 <==> x == y
  {
    var b := Xored(x, y);
    ValueZero(b);
    forall i | 0 <= i < |x| ensures b[i] == 0 <==> x[i] == y[i] { XorCancels(x[i], y[i], y[i]); }
  }

  /** Common bits are the reverse rank of the integer logarithm of the distance. */
  lemma CommonBitsIsLog(x: Bytes, y: Bytes)
    requires |x| == |y| && x != y
    ensures IsLog(8 * |x|, CommonBits(x, y), Dist(x, y))
  {
    var b := Xored(x, y);
    DistZero(x, y);
    CommonBitsAreLeadBits(x, y);
    LeadBitsIsLog(b);
  }

  /** Common leading bits, capped. */
  function Po(x: Bytes, y: Bytes): nat {
    Min(CommonBits(x, y), MAX_PO)
  }

  lemma LogOrders(bits: nat, p: nat, q: nat, u: nat, v: nat)
    requires IsLog(bits, p, u) && IsLog(bits, q, v) && p > q
    ensures u < v
  {
    Pow2Mono(bits - p, bits - 1 - q);
  }

  lemma MoreBitsAreCloser(a: Bytes, x: Bytes, y: Bytes)
    requires |a| == |x| == |y| && CommonBits(a, x) > CommonBits(a, y)
    ensures Dist(a, x) < Dist(a, y)
  {
    CommonBitsOfSelf(a);
    CommonBitsLimit(a, x);
    CommonBitsIsLog(a, y);
    if a == x {
      DistZero(a, x);
      DistZero(a, y);
    } else {
      CommonBitsIsLog(a, x);
      LogOrders(8 * |a|, CommonBits(a, x), CommonBits(a, y), Dist(a, x), Dist(a, y));
    }
  }

  /** A strictly larger proximity to `a`, as scanned or in full, means a strictly smaller
      distance to `a`. */
  lemma NearerIsCloser(a: Bytes, x: Bytes, y: Bytes)
    requires |a| == |x| == |y| && (ScanResult(a, x) > ScanResult(a, y) || Po(a, x) > Po(a, y))
    ensures Dist(a, x) < Dist(a, y)
  {
    MoreBitsAreCloser(a, x, y);
  }

  lemma {:induction false} CommonBitsOfSelf(a: Bytes)
    ensures CommonBits(a, a) == 8 * |a|
  {
    if a != [] { CommonBitsOfSelf(a[1..]); }
  }

  lemma {:induction false} CommonBitsLimit(x: Bytes, y: Bytes)
    ensures CommonBits(x, y) <= 8 * Min(|x|, |y|)
  {
    if x != [] && y != [] {
      LeadOfEqual(x[0], y[0]);
      CommonBitsLimit(x[1..], y[1..]);
    }
  }

  lemma LeadUltra(x: bv8, y: bv8, z: bv8)
    ensures Lead(x ^ z) >= Min(Lead(x ^ y), Lead(y ^ z))
  {
    assert x ^ z == (x ^ y) ^ (y ^ z);
    LeadXor(x ^ y, y ^ z);
  }

  lemma LeadXor(u: bv8, w: bv8)
    ensures Lead(u ^ w) >= Min(Lead(u), Lead(w))
  {
    LeadIs(u);
    LeadIs(w);
    LeadIs(u ^ w);
    TableXor(u, w);
  }

  lemma TableXor(u: bv8, w: bv8)
    ensures LeadTable(u ^ w) >= Min(LeadTable(u), LeadTable(w))
  {
  }

  /** Proximity is an ultrametric, as scanned and in full. */
  lemma Ultrametric(x: Bytes, y: Bytes, z: Bytes)
    requires |x| == |y| == |z|
    ensures ScanResult(x, z) >= Min(ScanResult(x, y), ScanResult(y, z)) && ScanResult(x, y) == ScanResult(y, x)
    ensures Po(x, z) >= Min(Po(x, y), Po(y, z)) && Po(x, y) == Po(y, x)
  {
    CommonBitsUltra(x, y, z);
    CommonBitsSym(x, y);
  }

  lemma HeadUltra(a: bv8, b: bv8, c: bv8, ab: nat, bc: nat, ac: nat)
    requires ac >= Min(ab, bc)
    ensures Head(a, c, ac) >= Min(Head(a, b, ab), Head(b, c, bc))
  {
    if a == c {
      LeadOfEqual(a, b);
      assert a ^ b == b ^ c;
    } else if a != b && b != c {
      LeadUltra(a, b, c);
    }
  }

  lemma {:induction false} CommonBitsUltra(x: Bytes, y: Bytes, z: Bytes)
    requires |x| == |y| == |z|
    ensures CommonBits(x, z) >= Min(CommonBits(x, y), CommonBits(y, z))
  {
    if x != [] {
      CommonBitsUltra(x[1..], y[1..], z[1..]);
      HeadUltra(x[0], y[0], z[0],
        CommonBits(x[1..], y[1..]), CommonBits(y[1..], z[1..]), CommonBits(x[1..], z[1..]));
    }
  }

  lemma {:induction false} CommonBitsSym(x: Bytes, y: Bytes)
    ensures CommonBits(x, y) == CommonBits(y, x)
  {
    if x != [] && y != [] {
      CommonBitsSym(x[1..], y[1..]);
      assert x[0] ^ y[0] == y[0] ^ x[0];
    }
  }
}
