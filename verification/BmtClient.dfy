/** Write, Hash and the recycling of a tree keep the invariant. */
module BmtClient {
  import opened Basics
  import opened BmtSpec
  import opened BmtMachine
  import opened BmtInvariant
  import opened BmtSteps

  // ---------------------------------------------------------------- before the final goroutine

  lemma TopLast(c: Conf)
    requires ValidConf(c)
    ensures LastSec(c.depth - 1, 0) + 1 == Width(c, 0)
  {
    LastSecClosed(c.depth - 1, 0);
  }

  /** No value is sent before Hash is called. */
  lemma NothingSentEarly(c: Conf, s: State)
    requires Inv(c, s) && !s.final
    ensures !SentTop(c, s) && s.results == [] && Win(s, c.depth - 1, 0).None?
  {
    TopLast(c);
    if c.depth > 1 { assert NodeHist(s, Pos(c.depth - 1, 0)); }
  }

  /** A carried position is full. */
  lemma CarriedIsFull(c: Conf, s: State, level: nat, idx: nat)
    requires TreeInv(c, s) && !s.final && Win(s, level, idx).Some?
    ensures LastSec(level, idx) < |s.threads|
  {
    if level > 0 { assert NodeHist(s, Pos(level, idx)); }
  }

  /** `s'` has the nodes and goroutines of `s` and more section goroutines. */
  ghost predicate MoreThreads(s: State, s': State) {
    && s'.nodes == s.nodes && !s.final && s'.results == s.results
    && |s.threads| <= |s'.threads| && s'.threads[..|s.threads|] == s.threads
    && (forall i: nat :: |s.threads| <= i < |s'.threads| ==> s'.threads[i] == SectionThread(i))
    && (s'.final ==> |s'.threads| == |s.threads| + 1)
  }

  lemma MoreKeepsNode(s: State, s': State, p: Pos)
    requires MoreThreads(s, s') && p in s.nodes && p.level > 0 && NodeHist(s, p)
    ensures NodeHist(s', p)
  {
    assert forall i: nat :: i < |s.threads| ==> s'.threads[i] == s.threads[i];
    forall u: nat | u < |s'.threads| ensures Trace(s', p, u) {
      if u < |s.threads| { assert Trace(s, p, u); }
    }
  }

  lemma MoreKeepsThread(c: Conf, s: State, s': State, t: nat)
    requires TreeInv(c, s) && WF(c, s') && MoreThreads(s, s') && t < |s'.threads|
    ensures ThreadHist(c, s', t)
  {
    if t < |s.threads| {
      assert ThreadHist(c, s, t);
      assert s'.threads[t] == s.threads[t];
    } else {
      Family(c, 0, t);
      var p := ParentPos(s'.threads[t]);
      if p in s.nodes { assert NodeHist(s, p); }
    }
  }

  /** The two inputs agree on every section that has a goroutine. */
  ghost predicate SameSections(c: Conf, s: State, s': State)
    requires WF(c, s) && WF(c, s')
  {
    forall i: nat {:trigger Section(c, Input(c, s), i)} ::
      i < |s.threads| && InTree(c, 0, i) ==> Section(c, Input(c, s), i) == Section(c, Input(c, s'), i)
  }

  lemma CarriedValue(c: Conf, s: State, s': State, level: nat, idx: nat)
    requires TreeInv(c, s) && WF(c, s') && !s.final && SameSections(c, s, s')
    requires Win(s, level, idx).Some? && InTree(c, level, idx)
    ensures Val(c, Input(c, s'), level, idx) == Val(c, Input(c, s), level, idx)
  {
    CarriedIsFull(c, s, level, idx);
    ValFrame(c, Input(c, s), Input(c, s'), |s.threads|, level, idx);
  }

  lemma MoreKeepsNodeVals(c: Conf, s: State, s': State, p: Pos)
    requires TreeInv(c, s) && WF(c, s') && MoreThreads(s, s') && SameSections(c, s, s') && p in s.nodes
    ensures NodeVals(c, s', p)
  {
    assert NodeHist(s, p) && NodeVals(c, s, p);
    if s.nodes[p].la.Some? { ArrivedValue(c, s, s', p, 2 * p.idx); }
    if s.nodes[p].ra.Some? { ArrivedValue(c, s, s', p, 2 * p.idx + 1); }
  }

  lemma ArrivedValue(c: Conf, s: State, s': State, p: Pos, child: nat)
    requires TreeInv(c, s) && WF(c, s') && !s.final && SameSections(c, s, s') && p in s.nodes && p.level > 0
    requires (child == 2 * p.idx && s.nodes[p].la.Some?) || (child == 2 * p.idx + 1 && s.nodes[p].ra.Some?)
    ensures InTree(c, p.level - 1, child)
    ensures Val(c, Input(c, s'), p.level - 1, child) == Val(c, Input(c, s), p.level - 1, child)
  {
    assert NodeHist(s, p);
    Family(c, p.level, p.idx);
    CarriedValue(c, s, s', p.level - 1, child);
  }

  lemma MoreKeepsThreadVals(c: Conf, s: State, s': State, t: nat)
    requires TreeInv(c, s) && WF(c, s') && MoreThreads(s, s') && SameSections(c, s, s') && t < |s'.threads|
    requires ThreadHist(c, s', t)
    ensures ThreadVals(c, s', t)
  {
    if t < |s.threads| {
      assert ThreadHist(c, s, t) && ThreadVals(c, s, t);
      var th := s.threads[t];
      assert s'.threads[t] == th;
      if th.pc != HashSection { CarriedValue(c, s, s', th.level, th.idx); }
      if !AtTop(c, th) && th.pc == Combine { MoreKeepsCombined(c, s, s', t); }
    }
  }

  lemma MoreKeepsCombined(c: Conf, s: State, s': State, t: nat)
    requires TreeInv(c, s) && WF(c, s') && MoreThreads(s, s') && SameSections(c, s, s') && t < |s.threads|
    requires s.threads[t].pc == Combine && !AtTop(c, s.threads[t])
    ensures var p := ParentPos(s.threads[t]);
            && p in s.nodes && p in s'.nodes
            && LeftVal(c, s', p) == LeftVal(c, s, p) && RightVal(c, s', p) == RightVal(c, s, p)
  {
    assert ThreadHist(c, s, t);
    var p := ParentPos(s.threads[t]);
    assert NodeHist(s, p);
    Family(c, p.level, p.idx);
    CarriedValue(c, s, s', p.level - 1, 2 * p.idx);
    CarriedValue(c, s, s', p.level - 1, 2 * p.idx + 1);
  }

  lemma MoreSendsNothing(c: Conf, s: State, s': State)
    requires ValidConf(c) && MoreThreads(s, s') && Win(s, c.depth - 1, 0).None?
    ensures !SentTop(c, s')
  {
  }

  lemma MoreKeepsTree(c: Conf, s: State, s': State)
    requires Inv(c, s) && WF(c, s') && MoreThreads(s, s') && SameSections(c, s, s')
    ensures TreeInv(c, s')
  {
    NothingSentEarly(c, s);
    MoreSendsNothing(c, s, s');
    forall p | p in s'.nodes ensures NodeHist(s', p) && NodeVals(c, s', p) {
      assert NodeHist(s, p);
      MoreKeepsNode(s, s', p);
      MoreKeepsNodeVals(c, s, s', p);
    }
    forall t: nat | t < |s'.threads| ensures ThreadHist(c, s', t) && ThreadVals(c, s', t) {
      MoreKeepsThread(c, s, s', t);
      MoreKeepsThreadVals(c, s, s', t);
    }
  }

  // ---------------------------------------------------------------- Write

  lemma WriteClient(c: Conf, s: State, b: Bytes)
    requires WF(c, s) && ClientInv(c, s) && !s.final
    ensures Enabled(c, s, Write(b))
    ensures var s' := WriteStep(c, s, b);
            && |s'.threads| == s'.pos && s'.pos < Width(c, 0)
            && s'.buffer[..s'.size] == s'.data && s'.size == |s'.data| <= c.maxSize && |s'.buffer| == c.maxSize
            && (if s'.size == c.maxSize then s'.pos + 1 == Width(c, 0) else s'.pos == s'.size / SectionSize(c))
            && (forall i: nat :: |s.threads| <= i < |s'.threads| ==> s'.threads[i] == SectionThread(i))
            && |s.threads| <= |s'.threads| && s'.threads[..|s.threads|] == s.threads
  {
    var l := Accepted(c, s.size, b);
    NextPosIs(c, s.size, l);
    var s' := WriteStep(c, s, b);
    assert s'.buffer[..s'.size] == s.buffer[..s.size] + b[..l];
  }

  lemma WriteSections(c: Conf, s: State, b: Bytes)
    requires WF(c, s) && ClientInv(c, s) && Enabled(c, s, Write(b)) && WF(c, WriteStep(c, s, b))
    ensures SameSections(c, s, WriteStep(c, s, b))
  {
    var s' := WriteStep(c, s, b);
    assert Input(c, s)[..s.size] == s.data == Input(c, s')[..s.size];
    SizeInOpenSection(c, s);
    forall i: nat | i < |s.threads| && InTree(c, 0, i)
      ensures Section(c, Input(c, s), i) == Section(c, Input(c, s'), i)
    {
      SectionsBefore(c, Input(c, s), Input(c, s'), s.size, s.pos, i);
    }
  }

  /** A section before the open one lies in what is common to both inputs. */
  lemma SectionsBefore(c: Conf, x: Bytes, y: Bytes, size: nat, pos: nat, i: nat)
    requires ValidConf(c) && |x| == |y| == c.maxSize && size <= c.maxSize && x[..size] == y[..size]
    requires i < pos && pos * SectionSize(c) <= size && InTree(c, 0, i)
    ensures Section(c, x, i) == Section(c, y, i)
  {
    SectionInBounds(c, i);
    MulMono(i + 1, pos, SectionSize(c));
    SliceOfPrefix(x, y, size, i * SectionSize(c), (i + 1) * SectionSize(c));
  }

  lemma WriteKeeps(c: Conf, s: State, b: Bytes)
    requires Inv(c, s) && !s.final
    ensures Enabled(c, s, Write(b)) && Inv(c, Apply(c, s, Write(b)))
  {
    WriteClient(c, s, b);
    var s' := WriteStep(c, s, b);
    assert WF(c, s');
    WriteSections(c, s, b);
    MoreKeepsTree(c, s, s');
  }

  // ---------------------------------------------------------------- Hash

  /** The final section holds the rest of the input, then zeros, whatever bytes an
      earlier fill left in the buffer. */
  lemma FinalSection(c: Conf, buffer: Bytes, data: Bytes, pos: nat)
    requires ValidConf(c) && InTree(c, 0, pos) && |buffer| == c.maxSize && |data| <= c.maxSize
    requires buffer[..|data|] == data
    requires pos * SectionSize(c) <= |data| <= (pos + 1) * SectionSize(c)
    requires (pos + 1) * SectionSize(c) <= |data| + ZERO_SECTION
    ensures Section(c, ZeroTail(c, buffer, |data|), pos) == Section(c, Pad(c, data), pos)
  {
    SectionInBounds(c, pos);
    var z := Min(ZERO_SECTION, c.maxSize - |data|);
    var n := |data| + z;
    assert ZeroTail(c, buffer, |data|)[..n] == data + Zeros(z) == Pad(c, data)[..n];
    SliceOfPrefix(ZeroTail(c, buffer, |data|), Pad(c, data), n, pos * SectionSize(c), (pos + 1) * SectionSize(c));
  }

  /** Bytes an earlier fill may have left behind the input. */
  function StaleBuffer(c: Conf, data: Bytes): (r: Bytes)
    requires |data| <= c.maxSize
    ensures |r| == c.maxSize && r[..|data|] == data && forall i :: |data| <= i < |r| ==> r[i] == 1
  {
    data + seq(c.maxSize - |data|, _ => 1)
  }

  lemma StaleByteSurvives(c: Conf, data: Bytes, pos: nat)
    requires ValidConf(c) && InTree(c, 0, pos) && |data| <= c.maxSize
    requires pos * SectionSize(c) <= |data| && |data| + ZERO_SECTION < (pos + 1) * SectionSize(c)
    ensures Section(c, ZeroTail(c, StaleBuffer(c, data), |data|), pos) != Section(c, Pad(c, data), pos)
  {
    SectionInBounds(c, pos);
    var lo, hi := pos * SectionSize(c), (pos + 1) * SectionSize(c);
    var k := |data| + ZERO_SECTION;
    var x, y := ZeroTail(c, StaleBuffer(c, data), |data|), Pad(c, data);
    assert x[k] == 1 && y[k] == 0;
    assert x[lo..hi][k - lo] == x[k] && y[lo..hi][k - lo] == y[k];
  }

  /** The final section comes out right for every stale buffer. */
  ghost predicate AnyStaleBuffer(c: Conf, data: Bytes, pos: nat)
    requires ValidConf(c) && InTree(c, 0, pos) && |data| <= c.maxSize
  {
    forall buffer: Bytes {:trigger ZeroTail(c, buffer, |data|)} :: |buffer| == c.maxSize && buffer[..|data|] == data ==>
      Section(c, ZeroTail(c, buffer, |data|), pos) == Section(c, Pad(c, data), pos)
  }

  /** Zeroing 64 bytes is enough for every stale buffer exactly when the open section
      ends within 64 bytes of the input; a section of at most 64 bytes always does. */
  lemma ZeroTailExact(c: Conf, data: Bytes, pos: nat)
    requires ValidConf(c) && InTree(c, 0, pos) && |data| <= c.maxSize
    requires pos * SectionSize(c) <= |data| <= (pos + 1) * SectionSize(c)
    ensures AnyStaleBuffer(c, data, pos) <==> (pos + 1) * SectionSize(c) <= |data| + ZERO_SECTION
  {
    if (pos + 1) * SectionSize(c) <= |data| + ZERO_SECTION {
      forall buffer: Bytes | |buffer| == c.maxSize && buffer[..|data|] == data
        ensures Section(c, ZeroTail(c, buffer, |data|), pos) == Section(c, Pad(c, data), pos)
      {
        FinalSection(c, buffer, data, pos);
      }
    } else {
      StaleByteSurvives(c, data, pos);
    }
  }

  lemma StartHashKeeps(c: Conf, s: State)
    requires Inv(c, s) && Enabled(c, s, StartHash)
    ensures Inv(c, Apply(c, s, StartHash))
  {
    var s' := StartHashStep(c, s);
    SizeInOpenSection(c, s);
    SectionInBounds(c, s.pos);
    FinalSection(c, s.buffer, s.data, s.pos);
    assert s'.buffer[..s'.size] == s.buffer[..s.size];
    assert WF(c, s');
    MoreKeepsTree(c, s, s');
  }
}
