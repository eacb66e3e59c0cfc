/** What every step of the concurrent hasher keeps. */
module BmtInvariant {
  import opened Basics
  import opened BmtSpec
  import opened BmtMachine

  /** The input so far, padded to a whole chunk. */
  function Input(c: Conf, s: State): (r: Bytes)
    requires |s.data| <= c.maxSize
    ensures |r| == c.maxSize
  {
    Pad(c, s.data)
  }

  /** The goroutine that carries the hash of a position upward, if one does yet. */
  function Win(s: State, level: nat, idx: nat): Option<nat> {
    if level == 0 then
      if idx < |s.threads| then Some(idx) else None
    else if Pos(level, idx) in s.nodes then s.nodes[Pos(level, idx)].win
    else None
  }

  /** Goroutine `t` is through with the parent of its level-`level` ancestor. */
  predicate Passed(s: State, t: nat, level: nat)
    requires t < |s.threads|
  {
    var th := s.threads[t];
    th.level > level || (th.level == level && (th.pc == Combine || th.pc == Done))
  }

  function Bit(o: Option<nat>): nat {
    if o.Some? then 1 else 0
  }

  function Toggled(base: int, k: nat): int {
    if base + k > INT32_MAX then INT32_MIN + (base + k - INT32_MAX - 1) else base + k
  }

  /** The final goroutine reaches this node from its left child. */
  predicate FinalFromLeft(s: State, t: nat, p: Pos)
    requires p.level > 0
  {
    IsFinal(s, t) && Anc(t, p.level - 1) == 2 * p.idx
  }

  ghost predicate WF(c: Conf, s: State) {
    && ValidConf(c)
    && |s.buffer| == c.maxSize && s.size == |s.data| <= c.maxSize
    && (forall p :: p in s.nodes <==> p.level > 0 && InTree(c, p.level, p.idx))
    && (forall t: nat :: t < |s.threads| ==> InTree(c, 0, t))
  }

  /** History of one node: who toggled and who went on. */
  ghost predicate NodeHist(s: State, p: Pos)
    requires p in s.nodes && p.level > 0
  {
    var n := s.nodes[p];
    && 0 <= n.base < INT32_MAX && n.base % 2 == 0
    && n.state == Toggled(n.base, Bit(n.la) + Bit(n.ra))
    && LeftArrival(s, p) && RightArrival(s, p) && Winner(s, p) && Traces(s, p)
  }

  /** A left arrival carried the left child's hash. */
  ghost predicate LeftArrival(s: State, p: Pos)
    requires p in s.nodes && p.level > 0
  {
    s.nodes[p].la.Some? ==>
      var t := s.nodes[p].la.value;
      && t < |s.threads| && !IsFinal(s, t)
      && Win(s, p.level - 1, 2 * p.idx) == Some(t) && Passed(s, t, p.level - 1)
  }

  /** A right arrival carried the right child's hash, or was the final goroutine
      filling in zeros for a right child that has no goroutine. */
  ghost predicate RightArrival(s: State, p: Pos)
    requires p in s.nodes && p.level > 0
  {
    s.nodes[p].ra.Some? ==>
      var t := s.nodes[p].ra.value;
      && t < |s.threads| && Passed(s, t, p.level - 1)
      && (|| Win(s, p.level - 1, 2 * p.idx + 1) == Some(t)
          || (FinalFromLeft(s, t, p) && Win(s, p.level - 1, 2 * p.idx) != Some(t)))
  }

  /** Whoever goes on arrived second, or was the final goroutine arriving alone. */
  ghost predicate Winner(s: State, p: Pos)
    requires p in s.nodes && p.level > 0
  {
    var n := s.nodes[p];
    && (n.la.Some? && n.ra.Some? ==> n.win.Some?)
    && (n.win.Some? ==>
      var t := n.win.value;
      && t < |s.threads| && Passed(s, t, p.level - 1) && Anc(t, p.level) == p.idx
      && (if n.la.Some? || n.ra.Some? then n.la.Some? && n.ra.Some? && (n.la == Some(t) || n.ra == Some(t))
          else FinalFromLeft(s, t, p) && Win(s, p.level - 1, 2 * p.idx) == Some(t)))
    && (n.win.Some? && !s.final ==> LastSec(p.level, p.idx) < |s.threads|)
  }

  /** A goroutine that passed left its trace. */
  ghost predicate Trace(s: State, p: Pos, t: nat)
    requires p in s.nodes && p.level > 0 && t < |s.threads|
  {
    var n := s.nodes[p];
    var k := p.level - 1;
    Passed(s, t, k) ==>
      && (Win(s, k, 2 * p.idx) == Some(t) ==> if IsFinal(s, t) then n.win == Some(t) else n.la == Some(t))
      && (Win(s, k, 2 * p.idx + 1) == Some(t) ==> n.ra == Some(t))
      && (FinalFromLeft(s, t, p) && Win(s, k, 2 * p.idx) != Some(t) ==> n.ra == Some(t))
  }

  ghost predicate Traces(s: State, p: Pos)
    requires p in s.nodes && p.level > 0
  {
    forall t: nat {:trigger Trace(s, p, t)} :: t < |s.threads| ==> Trace(s, p, t)
  }

  /** What belongs in the left and right field of a node. */
  ghost function LeftVal(c: Conf, s: State, p: Pos): Bytes
    requires WF(c, s) && p in s.nodes
  {
    Family(c, p.level, p.idx);
    Val(c, Input(c, s), p.level - 1, 2 * p.idx)
  }

  ghost function RightVal(c: Conf, s: State, p: Pos): Bytes
    requires WF(c, s) && p in s.nodes
  {
    Family(c, p.level, p.idx);
    Val(c, Input(c, s), p.level - 1, 2 * p.idx + 1)
  }

  ghost predicate NodeVals(c: Conf, s: State, p: Pos)
    requires WF(c, s) && p in s.nodes
  {
    && (s.nodes[p].la.Some? ==> s.nodes[p].left == LeftVal(c, s, p))
    && (s.nodes[p].ra.Some? ==> s.nodes[p].right == RightVal(c, s, p))
  }

  /** Where one goroutine is. */
  ghost predicate ThreadHist(c: Conf, s: State, t: nat)
    requires t < |s.threads|
  {
    var th := s.threads[t];
    var fin := IsFinal(s, t);
    && th.idx == Anc(t, th.level) && InTree(c, th.level, th.idx)
    && (th.pc == HashSection ==> th.level == 0)
    && (th.pc != HashSection ==>
      if th.s.Some? then Win(s, th.level, th.idx) == Some(t)
      else fin && th.level > 0 && Win(s, th.level, th.idx) != Some(t))
    && (if AtTop(c, th) then th.pc != FillLeft && th.pc != Toggle && th.pc != Combine
        else ParentPos(th) in s.nodes && AtNode(s, t))
  }

  ghost predicate AtNode(s: State, t: nat)
    requires t < |s.threads| && ParentPos(s.threads[t]) in s.nodes
  {
    var th := s.threads[t];
    var fin := IsFinal(s, t);
    var n := s.nodes[ParentPos(th)];
    && (!Passed(s, t, th.level) ==> n.la != Some(t) && n.ra != Some(t) && n.win != Some(t))
    && (th.pc == FillLeft ==> fin && th.idx % 2 == 0 && th.s.Some?)
    && (th.pc == Toggle ==> (th.idx % 2 == 0 && fin) == th.s.None?)
    && (th.pc == Combine ==> n.win == Some(t))
    && (th.pc == Done ==> !fin && n.win != Some(t) && (if th.idx % 2 == 0 then n.la else n.ra) == Some(t))
  }

  /** What one goroutine carries, and what it has stored. */
  ghost predicate ThreadVals(c: Conf, s: State, t: nat)
    requires WF(c, s) && t < |s.threads| && ThreadHist(c, s, t)
  {
    var th := s.threads[t];
    && (th.pc != HashSection && th.s.Some? ==> th.s.value == Val(c, Input(c, s), th.level, th.idx))
    && (!AtTop(c, th) ==>
      var p := ParentPos(th);
      var left := th.idx % 2 == 0 && !IsFinal(s, t);
      && (th.pc == Combine || (th.pc == Toggle && left) ==> s.nodes[p].left == LeftVal(c, s, p))
      && (th.pc == Combine || th.pc == FillLeft || (th.pc == Toggle && !left)
          ==> s.nodes[p].right == RightVal(c, s, p)))
  }

  ghost predicate SentTop(c: Conf, s: State)
    requires c.depth > 0
  {
    var w := Win(s, c.depth - 1, 0);
    && w.Some? && w.value < |s.threads|
    && AtTop(c, s.threads[w.value]) && s.threads[w.value].pc == Done
  }

  /** The tree part of the invariant: all that goroutine steps touch. */
  ghost predicate TreeInv(c: Conf, s: State) {
    && WF(c, s)
    && (forall p {:trigger NodeHist(s, p)} {:trigger NodeVals(c, s, p)} :: p in s.nodes ==>
        NodeHist(s, p) && NodeVals(c, s, p))
    && (forall t: nat {:trigger ThreadHist(c, s, t)} {:trigger ThreadVals(c, s, t)} ::
          t < |s.threads| ==> ThreadHist(c, s, t) && ThreadVals(c, s, t))
    && ResultsOk(c, s)
  }

  /** Exactly the carrier of the root, once it is done, has sent a value: the root. */
  ghost predicate ResultsOk(c: Conf, s: State)
    requires ValidConf(c) && |s.data| <= c.maxSize
  {
    && InTree(c, c.depth - 1, 0)
    && s.results == if SentTop(c, s) then [Val(c, Input(c, s), c.depth - 1, 0)] else []
  }

  /** The client part: what Write and Hash keep. */
  ghost predicate ClientInv(c: Conf, s: State)
    requires WF(c, s)
  {
    && SectionSize(c) <= ZERO_SECTION
    && |s.threads| == s.pos + (if s.final then 1 else 0)
    && InTree(c, 0, s.pos)
    && (if s.size == c.maxSize then s.pos + 1 == Width(c, 0) else s.pos == s.size / SectionSize(c))
    && s.buffer[..s.size] == s.data
    && (s.final ==> s.size > 0 && Section(c, s.buffer, s.pos) == Section(c, Input(c, s), s.pos))
  }

  /** A goroutine left over from an earlier fill: it only climbs, as a right child
      without a hash, to the top. */
  predicate Harmless(c: Conf, level: nat, idx: nat)
    decreases c.depth - level
  {
    level + 1 >= c.depth || (idx % 2 == 1 && Harmless(c, level + 1, idx / 2))
  }

  ghost predicate LingerInv(c: Conf, s: State)
    requires WF(c, s)
  {
    forall k :: 0 <= k < |s.lingering| ==>
      var th := s.lingering[k];
      && th.s.None? && (th.pc == Arrive || th.pc == Done)
      && InTree(c, th.level, th.idx) && Harmless(c, th.level, th.idx)
  }

  ghost predicate FillInv(s: State) {
    s.fills < MAX_FILLS && forall p :: p in s.nodes ==> s.nodes[p].base <= 2 * s.fills
  }

  ghost predicate Inv(c: Conf, s: State) {
    TreeInv(c, s) && ClientInv(c, s) && LingerInv(c, s) && FillInv(s)
  }
}
