/** The counter-mode segment cipher: segment i is XORed with a key derived from the base key
    and the counter initCtr + i, so both directions are the same transformation. */
module Cipher {
  import opened Basics
  import opened ByteXor
  import opened Encoding

  const UINT32: nat := 0x1_0000_0000

  datatype Result<T> = Ok(value: T) | TooLong | WrongLength

  /** What a keystream depends on: the base hash with its digest length, the base key and the
      initial counter. */
  datatype Suite = Suite(sum: Bytes -> Bytes, size: nat, key: Bytes, initCtr: nat)

  ghost predicate ValidSuite(s: Suite) {
    (forall b :: |s.sum(b)| == s.size) && s.initCtr < UINT32
  }

  /** n bytes can be masked: the key is not empty and no segment is longer than a digest. */
  predicate Masks(s: Suite, n: nat) {
    n == 0 || (0 < |s.key| && Min(|s.key|, n) <= s.size)
  }

  /** uint32(i) + initCtr, which wraps around. */
  function Counter(i: int, initCtr: nat): (c: nat)
    ensures c < UINT32
  {
    (i % UINT32 + initCtr) % UINT32
  }

  /** n rounds of the hash over the key and the counter. */
  function Rounds(s: Suite, i: int, n: nat): (k: Bytes)
    requires ValidSuite(s)
    ensures n > 0 ==> |k| == s.size
  {
    if n == 0 then s.key + LittleEndian(Counter(i, s.initCtr), 4) else s.sum(Rounds(s, i, n - 1))
  }

  function SegmentKey(s: Suite, i: int): (k: Bytes)
    requires ValidSuite(s)
    ensures |k| == s.size
  {
    Rounds(s, i, 2)
  }

  /** The key of segment i is hashed twice from the base key and four bytes, lowest first, that
      are i + initCtr modulo 2^32. */
  lemma SegmentKeyIs(s: Suite, i: int) returns (ctr: Bytes)
    requires ValidSuite(s)
    ensures |ctr| == 4 && FromLittleEndian(ctr) == (i + s.initCtr) % UINT32
    ensures SegmentKey(s, i) == s.sum(s.sum(s.key + ctr))
  {
    var n := Counter(i, s.initCtr);
    ctr := FourBytes(n);
    TwoRounds(s, i, s.key + ctr);
    assert n == (i + s.initCtr) % UINT32;
  }

  lemma TwoRounds(s: Suite, i: int, b: Bytes)
    requires ValidSuite(s) && b == Rounds(s, i, 0)
    ensures SegmentKey(s, i) == s.sum(s.sum(b))
  {
    assert Rounds(s, i, 1) == s.sum(b);
  }

  lemma FourBytes(n: nat) returns (b: Bytes)
    requires n < UINT32
    ensures b == LittleEndian(n, 4) && |b| == 4 && FromLittleEndian(b) == n
  {
    b := LittleEndian(n, 4);
    PowerOf32();
    ReadBack(n, 4);
  }

  lemma PowerOf32()
    ensures Pow2(8 * 4) == UINT32
  {
    Pow2Add(16, 16);
    Pow2Add(8, 8);
    assert Pow2(8) == 256;
  }

  /** Segments less than 2^32 apart hash different bytes. */
  lemma SegmentsHashApart(s: Suite, i: int, j: int) returns (a: Bytes, b: Bytes)
    requires ValidSuite(s) && i < j < i + UINT32
    ensures SegmentKey(s, i) == s.sum(s.sum(a)) && SegmentKey(s, j) == s.sum(s.sum(b))
    ensures a != b && |a| == |b| == |s.key| + 4 && a[..|s.key|] == b[..|s.key|] == s.key
    ensures FromLittleEndian(a[|s.key|..]) == (i + s.initCtr) % UINT32
    ensures FromLittleEndian(b[|s.key|..]) == (j + s.initCtr) % UINT32
  {
    var x := SegmentKeyIs(s, i);
    var y := SegmentKeyIs(s, j);
    a, b := s.key + x, s.key + y;
    assert a[|s.key|..] == x && b[|s.key|..] == y;
    assert (i + s.initCtr) % UINT32 != (j + s.initCtr) % UINT32;
  }

  /** Data cut into segments of the key's length, each under its own segment key. */
  function Masked(s: Suite, start: nat, data: Bytes): (r: Bytes)
    requires ValidSuite(s) && Masks(s, |data|)
    ensures |r| == |data|
    decreases |data|
  {
    if data == [] then []
    else
      var l := Min(|s.key|, |data|);
      Xored(data[..l], SegmentKey(s, start)) + Masked(s, start + 1, data[l..])
  }

  /** The number of segments of n bytes. */
  function Segments(n: nat, keyLen: nat): nat
    requires n == 0 || keyLen > 0
  {
    if n == 0 then 0 else 1 + Segments(n - Min(keyLen, n), keyLen)
  }

  /** What is still to come of the masked input: `rest`, the counter ending at `last`. */
  ghost predicate Left(s: Suite, index: nat, input: Bytes, rest: Bytes, last: nat)
    requires ValidSuite(s)
  {
    && Masks(s, |input|) && rest == Masked(s, index, input)
    && last == index + Segments(|input|, |s.key|)
  }

  /** One segment less to go, in bytes and in counter values. */
  lemma LeftAt(s: Suite, index: nat, input: Bytes, i: nat, end: nat, rest: Bytes, last: nat)
    returns (masked: Bytes, next: Bytes)
    requires ValidSuite(s) && i < |input| && end == i + Min(|s.key|, |input| - i)
    requires Left(s, index, input[i..], rest, last)
    ensures end - i <= s.size && masked == Xored(input[i..end], SegmentKey(s, index))
    ensures Left(s, index + 1, input[end..], next, last) && rest == masked + next
  {
    assert input[i..][..end - i] == input[i..end] && input[i..][end - i..] == input[end..];
    masked, next := Xored(input[i..end], SegmentKey(s, index)), Masked(s, index + 1, input[end..]);
  }

  /** What has gone out, one segment later. */
  lemma LeftAfter(s: Suite, index: nat, input: Bytes, i: nat, end: nat, sent: Bytes, rest: Bytes, last: nat)
    returns (done: Bytes, next: Bytes)
    requires ValidSuite(s) && i < |input| && end == i + Min(|s.key|, |input| - i)
    requires Left(s, index, input[i..], rest, last)
    ensures end - i <= s.size && done == sent + Xored(input[i..end], SegmentKey(s, index))
    ensures Left(s, index + 1, input[end..], next, last) && done + next == sent + rest
  {
    var masked;
    masked, next := LeftAt(s, index, input, i, end, rest, last);
    done := sent + masked;
    assert sent + (masked + next) == sent + masked + next;
  }

  class Encryption {
    const suite: Suite
    const padding: int
    var index: nat

    constructor (suite: Suite, padding: int)
      ensures this.suite == suite && this.padding == padding && index == 0
    {
      this.suite, this.padding, index := suite, padding, 0;
    }

    method Reset()
      modifies this
      ensures index == 0
    {
      index := 0;
    }

    /** Masks `input` into out[lo..hi] and fills what is left there with random bytes. */
    method Transcrypt(i: int, input: Bytes, out: array<bv8>, lo: nat, hi: nat, random: nat -> bv8)
      requires ValidSuite(suite) && |input| <= suite.size && lo + |input| <= hi <= out.Length
      modifies out
      ensures out[..lo + |input|] == old(out[..lo]) + Xored(input, SegmentKey(suite, i))
      ensures forall j :: lo + |input| <= j < hi ==> out[j] == random(j)
      ensures out[hi..] == old(out[hi..])
    {
      var segmentKey := SegmentKey(suite, i);
      for j := 0 to |input|
        invariant forall k :: 0 <= k < j ==> out[lo + k] == input[k] ^ segmentKey[k]
        invariant forall k :: 0 <= k < lo || lo + j <= k < out.Length ==> out[k] == old(out[k])
      {
        out[lo + j] := input[j] ^ segmentKey[j];
      }
      assert out[..lo + |input|] == old(out[..lo]) + Xored(input, segmentKey);
      PadRest(out, lo + |input|, hi, random);
    }

    static method PadRest(out: array<bv8>, lo: nat, hi: nat, random: nat -> bv8)
      requires lo <= hi <= out.Length
      modifies out
      ensures forall j :: lo <= j < hi ==> out[j] == random(j)
      ensures forall j :: 0 <= j < lo || hi <= j < out.Length ==> out[j] == old(out[j])
    {
      forall j | lo <= j < hi { out[j] := random(j); }
    }

    /** One turn of the loop: the segment at i, under the next counter value. `rest` is what
        was still to come before it, `next` after it. */
    method MaskSegment(input: Bytes, i: nat, out: array<bv8>, random: nat -> bv8,
        ghost rest: Bytes, ghost last: nat)
      returns (end: nat, ghost next: Bytes)
      requires ValidSuite(suite) && i < |input| <= out.Length && Left(suite, index, input[i..], rest, last)
      modifies out
      ensures end == Min(i + |suite.key|, |input|)
      ensures Left(suite, index + 1, input[end..], next, last) && out[..end] + next == old(out[..i]) + rest
    {
      end := i + Min(|suite.key|, |input| - i);
      ghost var done;
      done, next := LeftAfter(suite, index, input, i, end, out[..i], rest, last);
      Transcrypt(index, input[i..end], out, i, end, random);
      assert out[..end] == done;
    }

    method MaskAll(input: Bytes, out: array<bv8>, random: nat -> bv8)
      requires ValidSuite(suite) && Masks(suite, |input|) && |input| <= out.Length
      modifies this`index, out
      ensures out[..|input|] == Masked(suite, old(index), input)
      ensures index == old(index) + Segments(|input|, |suite.key|)
    {
      ghost var whole, last := Masked(suite, index, input), index + Segments(|input|, |suite.key|);
      var i, end := 0, 0;
      ghost var rest := whole;
      assert input[0..] == input;
      while i < |input|
        invariant end == Min(i, |input|)
        invariant Left(suite, index, input[end..], rest, last) && out[..end] + rest == whole
      {
        end, rest := MaskSegment(input, i, out, random, rest, last);
        index := index + 1;
        i := i + |suite.key|;
      }
      assert rest == [];
    }

    /** Masks the whole input and pads the rest. */
    method Transform(input: Bytes, out: array<bv8>, random: nat -> bv8)
      requires ValidSuite(suite) && Masks(suite, |input|) && |input| <= out.Length
      modifies this`index, out
      ensures out[..|input|] == Masked(suite, old(index), input)
      ensures forall j :: |input| <= j < out.Length ==> out[j] == random(j)
      ensures index == old(index) + Segments(|input|, |suite.key|)
    {
      MaskAll(input, out, random);
      ghost var sent := out[..|input|];
      PadRest(out, |input|, out.Length, random);
      assert out[..|input|] == sent;
    }

    /** Padded to the fixed length where one is set; longer data is refused. */
    method Encrypt(data: Bytes, random: nat -> bv8) returns (r: Result<Bytes>)
      requires ValidSuite(suite) && ((padding > 0 && |data| > padding) || Masks(suite, |data|))
      modifies this`index
      ensures r == TooLong <==> padding > 0 && |data| > padding
      ensures !r.Ok? ==> r == TooLong && index == old(index)
      ensures r.Ok? ==>
        && |r.value| == (if padding > 0 then padding else |data|)
        && r.value[..|data|] == Masked(suite, old(index), data)
        && (forall j :: |data| <= j < |r.value| ==> r.value[j] == random(j))
        && index == old(index) + Segments(|data|, |suite.key|)
    {
      var outLength := |data|;
      if padding > 0 {
        if |data| > padding { return TooLong; }
        outLength := padding;
      }
      var out := new bv8[outLength];
      Transform(data, out, random);
      assert out[..][..|data|] == out[..|data|];
      return Ok(out[..]);
    }

    /** The same transformation; with padding, only of full length. */
    method Decrypt(data: Bytes) returns (r: Result<Bytes>)
      requires ValidSuite(suite) && ((padding > 0 && |data| != padding) || Masks(suite, |data|))
      modifies this`index
      ensures r == WrongLength <==> padding > 0 && |data| != padding
      ensures !r.Ok? ==> r == WrongLength && index == old(index)
      ensures r.Ok? ==>
        && r.value == Masked(suite, old(index), data)
        && index == old(index) + Segments(|data|, |suite.key|)
    {
      if padding > 0 && |data| != padding { return WrongLength; }
      var out := new bv8[|data|];
      Transform(data, out, _ => 0);
      assert out[..|data|] == out[..];
      return Ok(out[..]);
    }
  }

  // ---------------------------------------------------------------- laws

  /** The first n keystream bytes from counter index `start`. */
  function Stream(s: Suite, start: nat, n: nat): (r: Bytes)
    requires ValidSuite(s) && Masks(s, n)
    ensures |r| == n
    decreases n
  {
    if n == 0 then []
    else
      var l := Min(|s.key|, n);
      SegmentKey(s, start)[..l] + Stream(s, start + 1, n - l)
  }

  /** Segment by segment is the same as all at once. */
  lemma {:induction false} MaskedIsXor(s: Suite, start: nat, data: Bytes)
    requires ValidSuite(s) && Masks(s, |data|)
    ensures Masked(s, start, data) == Xored(data, Stream(s, start, |data|))
    decreases |data|
  {
    if data != [] {
      var l := Min(|s.key|, |data|);
      MaskedIsXor(s, start + 1, data[l..]);
      XoredParts(data, l, SegmentKey(s, start), Stream(s, start + 1, |data| - l));
    }
  }

  lemma {:induction false} StreamPrefix(s: Suite, start: nat, n: nat, m: nat)
    requires ValidSuite(s) && Masks(s, m) && n <= m
    ensures Stream(s, start, n) == Stream(s, start, m)[..n]
    decreases n
  {
    if n > |s.key| { StreamPrefix(s, start + 1, n - |s.key|, m - |s.key|); }
  }

  /** Decrypting from index `back` what was encrypted from index `start` and padded with any
      bytes gives the data first, exactly when the two keystreams agree on its length. */
  lemma RoundTrip(s: Suite, start: nat, back: nat, data: Bytes, pad: Bytes)
    requires ValidSuite(s) && Masks(s, |data| + |pad|)
    ensures data <= Masked(s, back, Masked(s, start, data) + pad)
       <==> Stream(s, start, |data|) == Stream(s, back, |data|)
  {
    var n := |data|;
    var sent := Masked(s, start, data) + pad;
    var got := Masked(s, back, sent);
    MaskedIsXor(s, start, data);
    MaskedIsXor(s, back, sent);
    StreamPrefix(s, back, n, |sent|);
    assert got[..n] == Xored(Xored(data, Stream(s, start, n)), Stream(s, back, n));
    XoredTwice(data, Stream(s, start, n), Stream(s, back, n));
    assert data <= got <==> got[..n] == data;
  }

  /** The keystream depends on the start index only through the 32-bit counter. */
  lemma {:induction false} StreamWraps(s: Suite, start: nat, back: nat, n: nat)
    requires ValidSuite(s) && Masks(s, n) && start % UINT32 == back % UINT32
    ensures Stream(s, start, n) == Stream(s, back, n)
    decreases n
  {
    if n > 0 {
      RoundsWrap(s, start, back, 2);
      StreamWraps(s, start + 1, back + 1, n - Min(|s.key|, n));
    }
  }

  lemma {:induction false} RoundsWrap(s: Suite, i: nat, j: nat, n: nat)
    requires ValidSuite(s) && i % UINT32 == j % UINT32
    ensures Rounds(s, i, n) == Rounds(s, j, n)
    decreases n
  {
    if n > 0 { RoundsWrap(s, i, j, n - 1); }
  }

  /** Segment k of a byte string. */
  function Segment(b: Bytes, k: nat, keyLen: nat): Bytes {
    var l := Min(keyLen, |b|);
    if k == 0 then b[..l] else Segment(b[l..], k - 1, keyLen)
  }

  /** Transcrypt at index start + k makes segment k of the data from segment k of the
      ciphertext and nothing else. */
  ghost predicate Recovers(s: Suite, start: nat, data: Bytes, k: nat)
    requires ValidSuite(s) && Masks(s, |data|)
  {
    var sent, segment := Segment(Masked(s, start, data), k, |s.key|), Segment(data, k, |s.key|);
    |sent| == |segment| <= s.size && Xored(sent, SegmentKey(s, start + k)) == segment
  }

  lemma RecoversFirst(s: Suite, start: nat, data: Bytes)
    requires ValidSuite(s) && Masks(s, |data|)
    ensures Recovers(s, start, data, 0)
  {
    var l := Min(|s.key|, |data|);
    FirstSegment(s, start, data, l);
    XoredBack(data[..l], SegmentKey(s, start));
  }

  lemma RecoversLater(s: Suite, start: nat, data: Bytes, k: nat, l: nat)
    requires ValidSuite(s) && Masks(s, |data|) && k > 0 && l == Min(|s.key|, |data|)
    ensures Masks(s, |data[l..]|) && (Recovers(s, start + 1, data[l..], k - 1) ==> Recovers(s, start, data, k))
  {
    FirstSegment(s, start, data, l);
  }

  lemma {:induction false} SegmentAlone(s: Suite, start: nat, data: Bytes, k: nat)
    requires ValidSuite(s) && Masks(s, |data|)
    ensures Recovers(s, start, data, k)
    decreases k
  {
    if k == 0 {
      RecoversFirst(s, start, data);
    } else {
      var l := Min(|s.key|, |data|);
      RecoversLater(s, start, data, k, l);
      SegmentAlone(s, start + 1, data[l..], k - 1);
    }
  }

  lemma FirstSegment(s: Suite, start: nat, data: Bytes, l: nat)
    requires ValidSuite(s) && Masks(s, |data|) && l == Min(|s.key|, |data|)
    ensures Masked(s, start, data)[..l] == Xored(data[..l], SegmentKey(s, start))
    ensures Masked(s, start, data)[l..] == Masked(s, start + 1, data[l..])
  {
  }

  /** Encrypt on a fresh object, reset, decrypt. */
  method EncryptResetDecrypt(e: Encryption, data: Bytes, random: nat -> bv8) returns (r: Result<Bytes>)
    requires ValidSuite(e.suite) && e.index == 0
    requires var n := if e.padding > 0 then e.padding else |data|; |data| > n || Masks(e.suite, n)
    modifies e
    ensures if e.padding > 0 && |data| > e.padding then r == TooLong else r.Ok? && data <= r.value
  {
    r := e.Encrypt(data, random);
    if r.Ok? {
      var sent := r.value;
      e.Reset();
      RoundTrip(e.suite, 0, 0, data, sent[|data|..]);
      assert sent == sent[..|data|] + sent[|data|..];
      r := e.Decrypt(sent);
    }
  }
}
