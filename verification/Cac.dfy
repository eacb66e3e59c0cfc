/** Content-addressed chunks over the concurrent hasher: each hash is computed by some
    schedule on some pooled tree, and the schedules need not be the same. */
module Cac {
  import opened Basics
  import opened Encoding
  import opened BmtSpec
  import opened BmtMachine
  import opened BmtRuns

  const SPAN_SIZE: nat := 8

  datatype Chunk = Chunk(address: Bytes, data: Bytes)
  datatype Error = TooShort | TooLarge
  datatype Result = Ok(chunk: Chunk) | Err(error: Error)

  ghost predicate ChunkConf(c: Conf) {
    ValidConf(c) && SectionSize(c) <= ZERO_SECTION && c.maxSize == CHUNK_SIZE
  }

  /** Some schedule on some pooled tree makes the hasher return `out`. */
  ghost predicate HasherGives(c: Conf, data: Bytes, span: Bytes, out: Bytes)
    requires ChunkConf(c)
  {
    exists s0: State, acts: seq<Action> :: Delivers(c, s0, acts, data, span, out)
  }

  ghost predicate Delivers(c: Conf, s0: State, acts: seq<Action>, data: Bytes, span: Bytes, out: Bytes)
    requires ChunkConf(c)
  {
    && Initial(c, s0) && ValidRun(c, s0, acts) && InputOf(acts) == data
    && Returned(c, Exec(c, s0, acts), span) == Some(out)
  }

  // ---------------------------------------------------------------- the hasher as a function

  function FreshNode(): Node {
    Node([], [], 0, 0, None, None, None)
  }

  ghost function FreshState(c: Conf): (s: State)
    requires ValidConf(c)
    ensures Initial(c, s)
  {
    var ps := set k, i | 0 < k < c.depth && 0 <= i < Width(c, k) :: Pos(k, i);
    State(map p | p in ps :: FreshNode(), Zeros(c.maxSize), 0, 0, [], false, [], [], [], 0)
  }

  lemma ExtendRun(c: Conf, s: State, acts: seq<Action>, a: Action)
    requires ValidRun(c, s, acts) && Enabled(c, Exec(c, s, acts), a)
    ensures ValidRun(c, s, acts + [a]) && Exec(c, s, acts + [a]) == Apply(c, Exec(c, s, acts), a)
    ensures InputOf(acts + [a]) == match a case Write(b) => InputOf(acts) + b case Recycle => [] case _ => InputOf(acts)
  {
  }

  /** From Hash on, running any goroutine that can run ends with the result. */
  lemma {:induction false} FinishRun(c: Conf, s0: State, acts: seq<Action>) returns (all: seq<Action>)
    requires ChunkConf(c) && Initial(c, s0) && ValidRun(c, s0, acts)
    requires Exec(c, s0, acts).final && Exec(c, s0, acts).size > 0
    ensures ValidRun(c, s0, all) && InputOf(all) == InputOf(acts)
    ensures var s := Exec(c, s0, all); s.final && s.size > 0 && s.results != []
    decreases WorkLeft(c, Exec(c, s0, acts))
  {
    var s := Exec(c, s0, acts);
    RunInv(c, s0, acts);
    if s.results != [] {
      all := acts;
    } else {
      NoDeadlock(c, s);
      var t: nat :| t < |s.threads| && Enabled(c, s, Run(t));
      ExtendRun(c, s0, acts, Run(t));
      StepsRunOut(c, s, Run(t));
      all := FinishRun(c, s0, acts + [Run(t)]);
    }
  }

  /** A first Write takes the data, and Hash may follow. */
  lemma FirstWrite(c: Conf, s0: State, data: Bytes)
    requires ChunkConf(c) && Initial(c, s0) && |data| <= c.maxSize
    ensures Enabled(c, s0, Write(data))
    ensures var s := Apply(c, s0, Write(data)); s.size == |data| && !s.final && |s.buffer| == c.maxSize
  {
  }

  /** One Write of the data, and Hash where there is any. */
  lemma StartRun(c: Conf, s0: State, data: Bytes) returns (acts: seq<Action>)
    requires ChunkConf(c) && Initial(c, s0) && |data| <= c.maxSize
    ensures ValidRun(c, s0, acts) && InputOf(acts) == data
    ensures var s := Exec(c, s0, acts); s.size == |data| && (data != [] ==> s.final)
  {
    FirstWrite(c, s0, data);
    ExtendRun(c, s0, [], Write(data));
    acts := [] + [Write(data)];
    if data != [] { acts := ThenHash(c, s0, acts, Apply(c, s0, Write(data))); }
  }

  lemma ThenHash(c: Conf, s0: State, acts: seq<Action>, s: State) returns (all: seq<Action>)
    requires ValidRun(c, s0, acts) && Exec(c, s0, acts) == s
    requires 0 < s.size <= c.maxSize == |s.buffer| && !s.final
    ensures ValidRun(c, s0, all) && InputOf(all) == InputOf(acts)
    ensures Exec(c, s0, all).size == s.size && Exec(c, s0, all).final
  {
    ExtendRun(c, s0, acts, StartHash);
    all := acts + [StartHash];
  }

  lemma SomeRunDelivers(c: Conf, data: Bytes, span: Bytes)
    requires ChunkConf(c) && |data| <= c.maxSize
    ensures HasherGives(c, data, span, BmtHash(c, span, data))
  {
    var s0 := FreshState(c);
    var all := StartRun(c, s0, data);
    if data != [] { all := FinishRun(c, s0, all); }
    HashRefinesReference(c, s0, all, span);
    assert Delivers(c, s0, all, data, span, BmtHash(c, span, data));
  }

  /** Seen from outside the concurrent hasher is the reference function. */
  lemma HasherIsReference(c: Conf, data: Bytes, span: Bytes, out: Bytes)
    requires ChunkConf(c) && |data| <= c.maxSize
    ensures HasherGives(c, data, span, out) <==> out == BmtHash(c, span, data)
  {
    if HasherGives(c, data, span, out) {
      var s0: State, acts: seq<Action> :| Delivers(c, s0, acts, data, span, out);
      HashRefinesReference(c, s0, acts, span);
    }
    SomeRunDelivers(c, data, span);
  }

  // ---------------------------------------------------------------- chunks

  ghost predicate NewWithSpanGives(c: Conf, data: Bytes, span: Bytes, r: Result)
    requires ChunkConf(c)
  {
    r.Ok? && HasherGives(c, data, span, r.chunk.address) && r.chunk.data == span + data
  }

  ghost predicate NewGives(c: Conf, data: Bytes, r: Result)
    requires ChunkConf(c)
  {
    if |data| > CHUNK_SIZE then r == Err(TooLarge)
    else if |data| == 0 then r == Err(TooShort)
    else NewWithSpanGives(c, data, LittleEndian(|data|, SPAN_SIZE), r)
  }

  /** New refuses exactly data that is empty or too large, and otherwise builds the length of
      the data in eight bytes, lowest first, and the data, under their hash. */
  lemma NewIsExact(c: Conf, data: Bytes, r: Result)
    requires ChunkConf(c) && NewGives(c, data, r)
    ensures r == Err(TooLarge) <==> |data| > CHUNK_SIZE
    ensures r == Err(TooShort) <==> data == []
    ensures r.Ok? ==>
      var d := r.chunk.data;
      && |d| == SPAN_SIZE + |data| && d[SPAN_SIZE..] == data && FromLittleEndian(d[..SPAN_SIZE]) == |data|
      && r.chunk.address == BmtHash(c, d[..SPAN_SIZE], data)
  {
    if r.Ok? {
      var span := SpanOf(c, data, r);
      HasherIsReference(c, data, span, r.chunk.address);
      Joined(span, data, r.chunk.data);
    }
  }

  lemma SpanOf(c: Conf, data: Bytes, r: Result) returns (span: Bytes)
    requires ChunkConf(c) && NewGives(c, data, r) && r.Ok?
    ensures |span| == SPAN_SIZE && NewWithSpanGives(c, data, span, r) && FromLittleEndian(span) == |data|
  {
    span := LittleEndian(|data|, SPAN_SIZE);
    SpanHoldsTheLength();
    ReadBack(|data|, SPAN_SIZE);
  }

  lemma Joined(span: Bytes, data: Bytes, d: Bytes)
    requires d == span + data
    ensures d[..|span|] == span && d[|span|..] == data
  {
  }

  lemma SpanHoldsTheLength()
    ensures CHUNK_SIZE < Pow2(8 * SPAN_SIZE)
  {
    Pow2Mono(19, 8 * SPAN_SIZE);
    assert Pow2(19) == 524288 by { Pow2Add(10, 9); assert Pow2(10) == 1024 && Pow2(9) == 512; }
  }

  ghost predicate NewWithDataSpanGives(c: Conf, data: Bytes, r: Result)
    requires ChunkConf(c)
  {
    if |data| > CHUNK_SIZE + SPAN_SIZE then r == Err(TooLarge)
    else if |data| < SPAN_SIZE then r == Err(TooShort)
    else NewWithSpanGives(c, data[SPAN_SIZE..], data[..SPAN_SIZE], r)
  }

  /** NewWithDataSpan refuses exactly data without room for a span, or too large, and otherwise
      keeps the data under the hash of its two parts. */
  lemma NewWithDataSpanIsExact(c: Conf, data: Bytes, r: Result)
    requires ChunkConf(c) && NewWithDataSpanGives(c, data, r)
    ensures r == Err(TooLarge) <==> |data| > CHUNK_SIZE + SPAN_SIZE
    ensures r == Err(TooShort) <==> |data| < SPAN_SIZE
    ensures r.Ok? ==> r.chunk == Chunk(BmtHash(c, data[..SPAN_SIZE], data[SPAN_SIZE..]), data)
  {
    if r.Ok? {
      HasherIsReference(c, data[SPAN_SIZE..], data[..SPAN_SIZE], r.chunk.address);
      assert data[..SPAN_SIZE] + data[SPAN_SIZE..] == data;
    }
  }

  ghost predicate ValidGives(c: Conf, ch: Chunk, ok: bool)
    requires ChunkConf(c)
  {
    if |ch.data| < SPAN_SIZE || |ch.data| > CHUNK_SIZE + SPAN_SIZE then !ok
    else exists h :: HasherGives(c, ch.data[SPAN_SIZE..], ch.data[..SPAN_SIZE], h) && (ok <==> h == ch.address)
  }

  /** Valid is deterministic: it accepts exactly the right address for the data. */
  lemma ValidIsExact(c: Conf, ch: Chunk, ok: bool)
    requires ChunkConf(c)
    ensures ValidGives(c, ch, ok) <==>
      (ok <==>
        && SPAN_SIZE <= |ch.data| <= CHUNK_SIZE + SPAN_SIZE
        && ch.address == BmtHash(c, ch.data[..SPAN_SIZE], ch.data[SPAN_SIZE..]))
  {
    if SPAN_SIZE <= |ch.data| <= CHUNK_SIZE + SPAN_SIZE {
      var data, span := ch.data[SPAN_SIZE..], ch.data[..SPAN_SIZE];
      HasherIsReference(c, data, span, BmtHash(c, span, data));
      if ValidGives(c, ch, ok) {
        var h :| HasherGives(c, data, span, h) && (ok <==> h == ch.address);
        HasherIsReference(c, data, span, h);
      }
    }
  }

  /** Whatever New or NewWithDataSpan builds, Valid accepts. */
  lemma BuiltChunksAreValid(c: Conf, data: Bytes, r: Result, ok: bool)
    requires ChunkConf(c) && (NewGives(c, data, r) || NewWithDataSpanGives(c, data, r))
    requires r.Ok? && ValidGives(c, r.chunk, ok)
    ensures ok
  {
    ValidIsExact(c, r.chunk, ok);
    var span := r.chunk.data[..SPAN_SIZE];
    var payload := r.chunk.data[SPAN_SIZE..];
    if |data| > 0 && NewGives(c, data, r) {
      assert payload == data && span == LittleEndian(|data|, SPAN_SIZE);
      HasherIsReference(c, payload, span, r.chunk.address);
    } else {
      assert r.chunk.data == data;
      HasherIsReference(c, payload, span, r.chunk.address);
    }
  }

  /** A valid chunk is rebuilt from its data alone, and only valid chunks are. */
  lemma ValidIffRebuilt(c: Conf, ch: Chunk, r: Result)
    requires ChunkConf(c) && NewWithDataSpanGives(c, ch.data, r)
    ensures ValidGives(c, ch, true) <==> r == Ok(ch)
  {
    ValidIsExact(c, ch, true);
    if SPAN_SIZE <= |ch.data| <= CHUNK_SIZE + SPAN_SIZE {
      var data, span := ch.data[SPAN_SIZE..], ch.data[..SPAN_SIZE];
      HasherIsReference(c, data, span, r.chunk.address);
      assert span + data == ch.data;
    }
  }
}
