/** The binary Merkle tree hash as a value: what the concurrent hasher must compute.
    The base hash is a parameter, so everything proved holds for any base hash. */
module BmtSpec {
  import opened Basics

  /** The configuration a pool is built with. A section is two segments; the tree
      has one leaf per section, `depth` levels, and `2^depth` segments. */
  datatype Conf = Conf(hash: Bytes -> Bytes, segmentSize: nat, depth: nat, maxSize: nat, zerohashes: seq<Bytes>)

  ghost predicate ValidConf(c: Conf) {
    && c.segmentSize > 0
    && c.depth > 0
    && c.maxSize == Pow2(c.depth) * c.segmentSize
    && |c.zerohashes| == c.depth + 1
    && forall k :: 0 <= k <= c.depth ==> c.zerohashes[k] == ZeroHash(c.hash, c.segmentSize, k)
  }

  function SectionSize(c: Conf): nat {
    2 * c.segmentSize
  }

  // ---------------------------------------------------------------- reference

  /** The Merkle root of `2^k` segments: hash the roots of the two halves. */
  function Root(hash: Bytes -> Bytes, k: nat, x: Bytes): Bytes {
    if k == 0 then x
    else hash(Root(hash, k - 1, x[..|x| / 2]) + Root(hash, k - 1, x[|x| / 2..]))
  }

  function Pad(c: Conf, data: Bytes): (r: Bytes)
    requires |data| <= c.maxSize
    ensures |r| == c.maxSize
  {
    data + Zeros(c.maxSize - |data|)
  }

  /** H(span | bmt-root): data shorter than the chunk is hashed as if zero padded. */
  function BmtHash(c: Conf, span: Bytes, data: Bytes): Bytes
    requires |data| <= c.maxSize
  {
    c.hash(span + Root(c.hash, c.depth, Pad(c, data)))
  }

  /** The chain the zero-hash table is filled from. */
  function ZeroHash(hash: Bytes -> Bytes, segmentSize: nat, k: nat): Bytes {
    if k == 0 then Zeros(segmentSize)
    else
      var z := ZeroHash(hash, segmentSize, k - 1);
      Twice(hash, z)
  }

  function Twice(hash: Bytes -> Bytes, z: Bytes): Bytes {
    hash(z + z)
  }

  /** zerohashes[k] is the root of `2^k` zero segments. */
  lemma {:induction false} ZeroHashIsRootOfZeros(hash: Bytes -> Bytes, segmentSize: nat, k: nat)
    ensures ZeroHash(hash, segmentSize, k) == Root(hash, k, Zeros(Pow2(k) * segmentSize))
  {
    if k > 0 {
      MulAssoc(2, Pow2(k - 1), segmentSize);
      HalvesOfZeros(Pow2(k - 1) * segmentSize);
      ZeroHashIsRootOfZeros(hash, segmentSize, k - 1);
    }
  }

  lemma HalvesOfZeros(n: nat)
    ensures var x := Zeros(2 * n); x[..|x| / 2] == Zeros(n) && x[|x| / 2..] == Zeros(n)
  {
  }

  // ---------------------------------------------------------------- the tree by position

  /** Number of nodes on a level; level 0 holds the leaves, one per section. */
  function Width(c: Conf, level: nat): nat
    requires level < c.depth
  {
    Pow2(c.depth - 1 - level)
  }

  predicate InTree(c: Conf, level: nat, idx: nat) {
    level < c.depth && idx < Width(c, level)
  }

  lemma Family(c: Conf, level: nat, idx: nat)
    requires InTree(c, level, idx)
    ensures level > 0 ==> InTree(c, level - 1, 2 * idx) && InTree(c, level - 1, 2 * idx + 1)
    ensures level + 1 < c.depth ==> InTree(c, level + 1, idx / 2)
    ensures level + 1 == c.depth ==> idx == 0
  {
  }

  lemma SectionInBounds(c: Conf, i: nat)
    requires ValidConf(c) && InTree(c, 0, i)
    ensures (i + 1) * SectionSize(c) == i * SectionSize(c) + SectionSize(c) <= c.maxSize
    ensures c.maxSize == Width(c, 0) * SectionSize(c)
  {
    MulMono(i + 1, Width(c, 0), SectionSize(c));
    assert Pow2(c.depth) == 2 * Pow2(c.depth - 1);
    assert Width(c, 0) * SectionSize(c) == Pow2(c.depth - 1) * (2 * c.segmentSize) == c.maxSize;
  }

  function Section(c: Conf, x: Bytes, i: nat): (r: Bytes)
    requires ValidConf(c) && InTree(c, 0, i) && |x| == c.maxSize
    ensures |r| == SectionSize(c)
  {
    SectionInBounds(c, i);
    x[i * SectionSize(c)..(i + 1) * SectionSize(c)]
  }

  /** The hash that belongs at a tree position for input `x`. */
  function Val(c: Conf, x: Bytes, level: nat, idx: nat): Bytes
    requires ValidConf(c) && InTree(c, level, idx) && |x| == c.maxSize
  {
    if level == 0 then c.hash(Section(c, x, idx))
    else
      Family(c, level, idx);
      c.hash(Val(c, x, level - 1, 2 * idx) + Val(c, x, level - 1, 2 * idx + 1))
  }

  /** The ancestor of leaf `i` on a level, one parent link at a time. */
  function Anc(i: nat, level: nat): nat {
    if level == 0 then i else Anc(i, level - 1) / 2
  }

  lemma {:induction false} AncIsDivision(i: nat, level: nat)
    ensures Anc(i, level) == i / Pow2(level)
  {
    if level > 0 {
      AncIsDivision(i, level - 1);
      DivDiv(i, Pow2(level - 1));
    }
  }

  /** p (2q + e) = (2p) q + p e */
  lemma TwiceProduct(p: nat, q: nat, e: nat)
    requires e < 2
    ensures p * (2 * q + e) == 2 * p * q + (if e == 0 then 0 else p)
  {
  }

  lemma QuotientIs(i: nat, p: nat) returns (x: nat, m: nat)
    requires p > 0
    ensures x == i / p && m < p && i == p * x + m
  {
    x, m := i / p, i % p;
  }

  lemma DivDiv(i: nat, p: nat)
    requires p > 0
    ensures i / p / 2 == i / (2 * p)
  {
    var x, m := QuotientIs(i, p);
    var q, e := x / 2, x % 2;
    TwiceProduct(p, q, e);
    DivUnique(i, 2 * p, q, (if e == 0 then 0 else p) + m);
  }

  lemma DivUnique(x: nat, d: nat, q: nat, r: nat)
    requires 0 <= r < d && x == d * q + r
    ensures x / d == q
  {
    if x / d > q {
      MulMono(q + 1, x / d, d);
    } else if x / d < q {
      MulMono(x / d + 1, q, d);
    }
  }

  lemma {:induction false} AncMono(i: nat, j: nat, level: nat)
    requires i <= j
    ensures Anc(i, level) <= Anc(j, level)
  {
    if level > 0 { AncMono(i, j, level - 1); }
  }

  lemma {:induction false} AncInTree(c: Conf, i: nat, level: nat)
    requires InTree(c, 0, i) && level < c.depth
    ensures InTree(c, level, Anc(i, level))
  {
    if level > 0 { AncInTree(c, i, level - 1); }
  }

  /** The last section below a position. */
  function LastSec(level: nat, idx: nat): nat {
    if level == 0 then idx else LastSec(level - 1, 2 * idx + 1)
  }

  lemma {:induction false} LastSecLeft(level: nat, idx: nat)
    ensures LastSec(level, 2 * idx) < LastSec(level, 2 * idx + 1)
  {
    LastSecClosed(level, 2 * idx);
    LastSecClosed(level, 2 * idx + 1);
  }

  lemma {:induction false} LastSecClosed(level: nat, idx: nat)
    ensures LastSec(level, idx) + 1 == (idx + 1) * Pow2(level)
  {
    if level > 0 { LastSecClosed(level - 1, 2 * idx + 1); }
  }

  // ---------------------------------------------------------------- Val is Root

  lemma SplitMul(j: nat, w: nat)
    ensures (2 * j + 1) * w == j * (2 * w) + w && (2 * j + 2) * w == (j + 1) * (2 * w)
    ensures 2 * j * w == j * (2 * w)
  {
  }

  function SpanSize(c: Conf, level: nat): nat {
    Pow2(level) * SectionSize(c)
  }

  lemma PosInBounds(c: Conf, level: nat, idx: nat)
    requires ValidConf(c) && InTree(c, level, idx)
    ensures idx * SpanSize(c, level) <= (idx + 1) * SpanSize(c, level) <= c.maxSize
  {
    MulMono(idx, idx + 1, SpanSize(c, level));
    MulMono(idx + 1, Width(c, level), SpanSize(c, level));
    Pow2Add(c.depth - 1 - level, level);
    SectionInBounds(c, 0);
    MulAssoc(Width(c, level), Pow2(level), SectionSize(c));
  }

  lemma MulAssoc(a: nat, b: nat, k: nat)
    ensures a * (b * k) == a * b * k
  {
  }

  lemma SliceHalves(x: Bytes, lo: nat, v: nat, hi: nat)
    requires lo + 2 * v == hi <= |x|
    ensures x[lo..hi][..v] == x[lo..lo + v] && x[lo..hi][v..] == x[lo + v..hi]
  {
  }

  /** The bytes below a position. */
  function Under(c: Conf, x: Bytes, level: nat, idx: nat): (r: Bytes)
    requires ValidConf(c) && InTree(c, level, idx) && |x| == c.maxSize
  {
    PosInBounds(c, level, idx);
    x[idx * SpanSize(c, level)..(idx + 1) * SpanSize(c, level)]
  }

  lemma UnderHalves(c: Conf, x: Bytes, level: nat, idx: nat)
    requires ValidConf(c) && InTree(c, level, idx) && |x| == c.maxSize && level > 0
    ensures InTree(c, level - 1, 2 * idx) && InTree(c, level - 1, 2 * idx + 1)
    ensures var y := Under(c, x, level, idx);
            y[..|y| / 2] == Under(c, x, level - 1, 2 * idx) && y[|y| / 2..] == Under(c, x, level - 1, 2 * idx + 1)
  {
    Family(c, level, idx);
    PosInBounds(c, level, idx);
    MulAssoc(2, Pow2(level - 1), SectionSize(c));
    SpanHalves(x, idx, SpanSize(c, level - 1));
  }

  /** A span of 2v bytes and its halves. */
  lemma SpanHalves(x: Bytes, idx: nat, v: nat)
    requires idx * (2 * v) <= (idx + 1) * (2 * v) <= |x|
    ensures (2 * idx) * v <= (2 * idx + 1) * v <= (2 * idx + 2) * v <= |x|
    ensures var y := x[idx * (2 * v)..(idx + 1) * (2 * v)];
            && |y| / 2 == v && y[..v] == x[(2 * idx) * v..(2 * idx + 1) * v]
            && y[v..] == x[(2 * idx + 1) * v..(2 * idx + 2) * v]
  {
    SplitMul(idx, v);
    SliceHalves(x, idx * (2 * v), v, (idx + 1) * (2 * v));
  }

  lemma SectionIsRoot(c: Conf, x: Bytes, idx: nat)
    requires ValidConf(c) && InTree(c, 0, idx) && |x| == c.maxSize
    ensures c.hash(Section(c, x, idx)) == Root(c.hash, 1, Under(c, x, 0, idx))
  {
    var s := Section(c, x, idx);
    assert Under(c, x, 0, idx) == s;
    assert s[..|s| / 2] + s[|s| / 2..] == s;
    assert Root(c.hash, 0, s[..|s| / 2]) == s[..|s| / 2] && Root(c.hash, 0, s[|s| / 2..]) == s[|s| / 2..];
  }

  /** The value at a position is the reference root of the bytes below it. */
  lemma {:induction false} ValIsRoot(c: Conf, x: Bytes, level: nat, idx: nat)
    requires ValidConf(c) && InTree(c, level, idx) && |x| == c.maxSize
    ensures Val(c, x, level, idx) == Root(c.hash, level + 1, Under(c, x, level, idx))
  {
    if level == 0 {
      SectionIsRoot(c, x, idx);
    } else {
      UnderHalves(c, x, level, idx);
      ValIsRoot(c, x, level - 1, 2 * idx);
      ValIsRoot(c, x, level - 1, 2 * idx + 1);
    }
  }

  lemma TopValIsRoot(c: Conf, x: Bytes)
    requires ValidConf(c) && |x| == c.maxSize
    ensures InTree(c, c.depth - 1, 0)
    ensures Val(c, x, c.depth - 1, 0) == Root(c.hash, c.depth, x)
  {
    ValIsRoot(c, x, c.depth - 1, 0);
    UnderTop(c, x);
  }

  /** Below the top lies everything. */
  lemma UnderTop(c: Conf, x: Bytes)
    requires ValidConf(c) && |x| == c.maxSize
    ensures InTree(c, c.depth - 1, 0) && Under(c, x, c.depth - 1, 0) == x
  {
    SectionInBounds(c, 0);
    assert SpanSize(c, c.depth - 1) == |x|;
  }

  /** Positions right of the one holding section `f` have the zero hash of their
      level when every later section is zero. */
  lemma {:induction false} ValBeyond(c: Conf, x: Bytes, f: nat, level: nat, idx: nat)
    requires ValidConf(c) && InTree(c, level, idx) && |x| == c.maxSize
    requires forall i {:trigger Section(c, x, i)} :: f < i && InTree(c, 0, i) ==>
        Section(c, x, i) == Zeros(SectionSize(c))
    requires idx > Anc(f, level)
    ensures Val(c, x, level, idx) == c.zerohashes[level + 1]
  {
    if level == 0 {
      assert Zeros(c.segmentSize) + Zeros(c.segmentSize) == Zeros(SectionSize(c));
      assert ZeroHash(c.hash, c.segmentSize, 0) == Zeros(c.segmentSize);
    } else {
      Family(c, level, idx);
      ValBeyond(c, x, f, level - 1, 2 * idx);
      ValBeyond(c, x, f, level - 1, 2 * idx + 1);
    }
  }

  /** A value depends only on the sections below its position. */
  lemma {:induction false} ValFrame(c: Conf, x: Bytes, y: Bytes, m: nat, level: nat, idx: nat)
    requires ValidConf(c) && InTree(c, level, idx) && |x| == |y| == c.maxSize
    requires forall i: nat {:trigger Section(c, x, i)} :: i < m && InTree(c, 0, i) ==>
        Section(c, x, i) == Section(c, y, i)
    requires LastSec(level, idx) < m
    ensures Val(c, x, level, idx) == Val(c, y, level, idx)
  {
    if level > 0 {
      Family(c, level, idx);
      LastSecLeft(level - 1, idx);
      ValFrame(c, x, y, m, level - 1, 2 * idx);
      ValFrame(c, x, y, m, level - 1, 2 * idx + 1);
    }
  }
}
