/** Every goroutine step keeps the tree invariant. */
module BmtSteps {
  import opened Basics
  import opened BmtSpec
  import opened BmtMachine
  import opened BmtInvariant

  ghost predicate CanRun(c: Conf, s: State, t: nat) {
    Inv(c, s) && t < |s.threads| && s.threads[t].pc != Done
  }

  // ---------------------------------------------------------------- frames

  predicate GrowsBy(o: Option<nat>, o': Option<nat>, t: nat) {
    o' == o || (o == None && o' == Some(t))
  }

  /** A step of goroutine `t` only adds `t` to a node's history. */
  predicate Grows(n: Node, n': Node, t: nat) {
    GrowsBy(n.la, n'.la, t) && GrowsBy(n.ra, n'.ra, t) && GrowsBy(n.win, n'.win, t)
  }

  /** It only stores the hashes that belong there. */
  ghost predicate Stores(c: Conf, s: State, s': State, p: Pos)
    requires WF(c, s) && p in s.nodes && p in s'.nodes
  {
    && (s'.nodes[p].left == s.nodes[p].left || s'.nodes[p].left == LeftVal(c, s, p))
    && (s'.nodes[p].right == s.nodes[p].right || s'.nodes[p].right == RightVal(c, s, p))
  }

  /** `s'` is `s` after a step of goroutine `t` that worked on node `at`. */
  ghost predicate Moved(s: State, s': State, t: nat, at: Pos) {
    && s'.nodes.Keys == s.nodes.Keys
    && s'.data == s.data && s'.final == s.final && |s'.threads| == |s.threads| && t < |s.threads|
    && (forall u: nat :: u < |s.threads| && u != t ==> s'.threads[u] == s.threads[u])
    && (forall p :: p in s.nodes && p != at ==> s'.nodes[p] == s.nodes[p])
    && (at in s.nodes ==>
        Grows(s.nodes[at], s'.nodes[at], t) && (s'.nodes[at].win != s.nodes[at].win ==> s'.threads[t].level < at.level))
    && Advances(s.threads[t], s'.threads[t], at)
  }

  predicate Advances(th: Thread, th': Thread, at: Pos) {
    || (th'.level == th.level && (th.pc == Combine <==> th'.pc == Combine) && (th.pc == Done <==> th'.pc == Done))
    || (th'.level == th.level && th.pc != Combine && th.pc != Done && at == ParentPos(th))
    || (th'.level == th.level + 1 && th'.pc == Arrive && (th.pc == Combine || at == ParentPos(th)))
  }

  lemma WinGrows(s: State, s': State, t: nat, at: Pos, level: nat, idx: nat)
    requires Moved(s, s', t, at)
    ensures GrowsBy(Win(s, level, idx), Win(s', level, idx), t)
    ensures Win(s', level, idx) != Win(s, level, idx) ==> !Passed(s', t, level)
  {
  }

  predicate WinBelow(s: State, level: nat, idx: nat) {
    Win(s, level, idx).Some? ==> Anc(Win(s, level, idx).value, level) == idx
  }

  /** The step of `t` on node `at` says nothing new about the passage of another node. */
  ghost predicate OtherNode(s: State, s': State, t: nat, at: Pos, p: Pos) {
    && Moved(s, s', t, at) && s.threads[t].idx == Anc(t, s.threads[t].level)
    && p in s.nodes && p.level > 0 && p != at && NodeHist(s, p)
    && WinBelow(s, p.level - 1, 2 * p.idx) && WinBelow(s, p.level - 1, 2 * p.idx + 1)
  }

  lemma NotNewlyPassed(s: State, s': State, t: nat, at: Pos, p: Pos)
    requires OtherNode(s, s', t, at, p)
    requires Passed(s', t, p.level - 1) && !Passed(s, t, p.level - 1)
    ensures Anc(t, p.level - 1) != 2 * p.idx && Anc(t, p.level - 1) != 2 * p.idx + 1
    ensures Win(s, p.level - 1, 2 * p.idx) != Some(t) && Win(s, p.level - 1, 2 * p.idx + 1) != Some(t)
  {
  }

  lemma OtherArrivals(s: State, s': State, t: nat, at: Pos, p: Pos)
    requires OtherNode(s, s', t, at, p)
    ensures LeftArrival(s', p) && RightArrival(s', p)
  {
  }

  lemma OtherWinner(s: State, s': State, t: nat, at: Pos, p: Pos)
    requires OtherNode(s, s', t, at, p)
    ensures Winner(s', p)
  {
  }

  lemma TraceFrame(s: State, s': State, t: nat, p: Pos, u: nat, k: nat)
    requires p in s.nodes && p in s'.nodes && s'.nodes[p] == s.nodes[p] && p.level == k + 1
    requires s'.final == s.final && |s'.threads| == |s.threads| && u < |s.threads| && t < |s.threads|
    requires Trace(s, p, u)
    requires GrowsBy(Win(s, k, 2 * p.idx), Win(s', k, 2 * p.idx), t)
    requires GrowsBy(Win(s, k, 2 * p.idx + 1), Win(s', k, 2 * p.idx + 1), t)
    requires Win(s', k, 2 * p.idx) != Win(s, k, 2 * p.idx) ==> !Passed(s', t, k)
    requires Win(s', k, 2 * p.idx + 1) != Win(s, k, 2 * p.idx + 1) ==> !Passed(s', t, k)
    requires Passed(s', u, k) && !Passed(s, u, k) ==>
      Anc(u, k) != 2 * p.idx && Win(s, k, 2 * p.idx) != Some(u) && Win(s, k, 2 * p.idx + 1) != Some(u)
    ensures Trace(s', p, u)
  {
  }

  lemma OtherTrace(s: State, s': State, t: nat, at: Pos, p: Pos, u: nat)
    requires OtherNode(s, s', t, at, p) && u < |s.threads|
    ensures Trace(s', p, u)
  {
    var k := p.level - 1;
    WinGrows(s, s', t, at, k, 2 * p.idx);
    WinGrows(s, s', t, at, k, 2 * p.idx + 1);
    if Passed(s', u, k) && !Passed(s, u, k) {
      assert u == t;
      NotNewlyPassed(s, s', t, at, p);
    }
    TraceFrame(s, s', t, p, u, k);
  }

  lemma OtherNodeKept(s: State, s': State, t: nat, at: Pos, p: Pos)
    requires OtherNode(s, s', t, at, p)
    ensures NodeHist(s', p)
  {
    OtherArrivals(s, s', t, at, p);
    OtherWinner(s, s', t, at, p);
    forall u: nat | u < |s'.threads| ensures Trace(s', p, u) {
      OtherTrace(s, s', t, at, p, u);
    }
  }

  lemma OtherThreadKept(c: Conf, s: State, s': State, t: nat, at: Pos, u: nat)
    requires Moved(s, s', t, at) && u < |s.threads| && u != t && ThreadHist(c, s, u)
    ensures ThreadHist(c, s', u)
  {
  }

  lemma ValsKept(c: Conf, s: State, s': State, t: nat, at: Pos)
    requires TreeInv(c, s) && WF(c, s') && Moved(s, s', t, at)
    requires at in s.nodes ==> Stores(c, s, s', at) && NodeVals(c, s', at)
    ensures forall p :: p in s'.nodes ==> NodeVals(c, s', p)
    ensures forall u: nat :: u < |s'.threads| && u != t && ThreadHist(c, s', u) ==> ThreadVals(c, s', u)
  {
    forall p | p in s'.nodes ensures NodeVals(c, s', p) {
      assert NodeVals(c, s, p);
    }
    forall u: nat | u < |s'.threads| && u != t && ThreadHist(c, s', u) ensures ThreadVals(c, s', u) {
      assert ThreadVals(c, s, u);
    }
  }

  lemma WinIsBelow(c: Conf, s: State, level: nat, idx: nat)
    requires TreeInv(c, s)
    ensures WinBelow(s, level, idx)
  {
    if level > 0 && Pos(level, idx) in s.nodes {
      assert NodeHist(s, Pos(level, idx));
    }
  }

  /** The step is right for its own goroutine, its own node and the result channel. */
  ghost predicate LocallyRight(c: Conf, s: State, s': State, t: nat, at: Pos)
    requires WF(c, s)
  {
    && WF(c, s') && Moved(s, s', t, at)
    && ThreadHist(c, s', t) && ThreadVals(c, s', t)
    && (at in s.nodes ==> Stores(c, s, s', at) && NodeHist(s', at) && NodeVals(c, s', at))
    && ResultsOk(c, s')
  }

  lemma NodeKept(c: Conf, s: State, s': State, t: nat, at: Pos, p: Pos)
    requires TreeInv(c, s) && Moved(s, s', t, at) && p in s.nodes && p != at
    ensures p.level > 0 && NodeHist(s', p)
  {
    assert ThreadHist(c, s, t) && NodeHist(s, p);
    WinIsBelow(c, s, p.level - 1, 2 * p.idx);
    WinIsBelow(c, s, p.level - 1, 2 * p.idx + 1);
    OtherNodeKept(s, s', t, at, p);
  }

  lemma NodesKept(c: Conf, s: State, s': State, t: nat, at: Pos)
    requires TreeInv(c, s) && WF(c, s') && Moved(s, s', t, at)
    ensures forall p :: p in s'.nodes && p != at ==> NodeHist(s', p)
  {
    forall p | p in s'.nodes && p != at ensures NodeHist(s', p) { NodeKept(c, s, s', t, at, p); }
  }

  lemma ThreadsKept(c: Conf, s: State, s': State, t: nat, at: Pos)
    requires TreeInv(c, s) && Moved(s, s', t, at)
    ensures forall u: nat :: u < |s'.threads| && u != t ==> ThreadHist(c, s', u)
  {
    forall u: nat | u < |s'.threads| && u != t ensures ThreadHist(c, s', u) {
      OtherThreadKept(c, s, s', t, at, u);
    }
  }

  /** Then it keeps the tree invariant. */
  lemma RunKeeps(c: Conf, s: State, s': State, t: nat, at: Pos)
    requires TreeInv(c, s) && LocallyRight(c, s, s', t, at)
    ensures TreeInv(c, s')
  {
    NodesKept(c, s, s', t, at);
    ThreadsKept(c, s, s', t, at);
    ValsKept(c, s, s', t, at);
  }

  lemma SentFrame(c: Conf, s: State, s': State, t: nat, at: Pos)
    requires ValidConf(c) && |s.data| <= c.maxSize && ResultsOk(c, s) && Moved(s, s', t, at)
    requires s'.results == s.results && s.threads[t].pc != Done
    requires AtTop(c, s'.threads[t]) && s'.threads[t].pc == Done ==> Win(s', c.depth - 1, 0) != Some(t)
    ensures ResultsOk(c, s')
  {
  }

  /** All a goroutine step may rely on. */
  ghost predicate Local(c: Conf, s: State, t: nat) {
    && WF(c, s) && ResultsOk(c, s) && t < |s.threads| && ThreadHist(c, s, t) && ThreadVals(c, s, t)
    && s.threads[t].pc != Done
    && (ParentPos(s.threads[t]) in s.nodes
        ==> NodeHist(s, ParentPos(s.threads[t])) && NodeVals(c, s, ParentPos(s.threads[t])))
  }

  // ---------------------------------------------------------------- steps that touch no node

  lemma QuotientBounds(x: nat, d: nat, q: nat)
    requires d > 0 && q == x / d
    ensures q * d <= x <= (q + 1) * d
  {
    DivBounds(x, d);
  }

  /** The open section is the one the next byte goes to. */
  lemma SizeInOpenSection(c: Conf, s: State)
    requires WF(c, s) && ClientInv(c, s)
    ensures s.pos * SectionSize(c) <= s.size <= (s.pos + 1) * SectionSize(c)
  {
    SectionInBounds(c, s.pos);
    if s.size != c.maxSize { QuotientBounds(s.size, SectionSize(c), s.pos); }
  }

  lemma PadIsZeroAfter(c: Conf, data: Bytes, i: nat)
    requires ValidConf(c) && InTree(c, 0, i) && |data| <= c.maxSize && |data| <= i * SectionSize(c)
    ensures Section(c, Pad(c, data), i) == Zeros(SectionSize(c))
  {
    SectionInBounds(c, i);
    SliceOfZeros(data, c.maxSize - |data|, i * SectionSize(c), (i + 1) * SectionSize(c));
  }

  lemma SliceOfZeros(data: Bytes, n: nat, lo: nat, hi: nat)
    requires |data| <= lo <= hi <= |data| + n
    ensures (data + Zeros(n))[lo..hi] == Zeros(hi - lo)
  {
  }

  lemma SectionIsInput(c: Conf, s: State, t: nat)
    requires WF(c, s) && ClientInv(c, s) && t < |s.threads|
    ensures Section(c, s.buffer, t) == Section(c, Input(c, s), t)
  {
    if t < s.pos {
      SectionInBounds(c, t);
      SizeInOpenSection(c, s);
      MulMono(t + 1, s.pos, SectionSize(c));
      SliceOfPrefix(s.buffer, Input(c, s), s.size, t * SectionSize(c), (t + 1) * SectionSize(c));
    }
  }

  lemma SliceOfPrefix(x: Bytes, y: Bytes, n: nat, lo: nat, hi: nat)
    requires lo <= hi <= n <= |x| && n <= |y| && x[..n] == y[..n]
    ensures x[lo..hi] == y[lo..hi]
  {
  }

  const NOWHERE := Pos(0, 0)

  lemma HashSectionRight(c: Conf, s: State, t: nat)
    requires Local(c, s, t) && s.threads[t].pc == HashSection
    requires Section(c, s.buffer, t) == Section(c, Input(c, s), t)
    ensures Enabled(c, s, Run(t)) && LocallyRight(c, s, Apply(c, s, Run(t)), t, NOWHERE)
  {
    SentFrame(c, s, Apply(c, s, Run(t)), t, NOWHERE);
  }

  /** The history of the node a goroutine climbs to. */
  ghost predicate GrandParentHist(s: State, t: nat)
    requires t < |s.threads|
  {
    var q := ParentPos(Climb(s.threads[t], None));
    q in s.nodes ==> LeftArrival(s, q) && RightArrival(s, q) && Winner(s, q)
  }

  /** The state after goroutine `t` climbs one level with `v`. */
  function Lift(s: State, t: nat, v: Option<Bytes>): State
    requires t < |s.threads|
  {
    s.(threads := s.threads[t := Climb(s.threads[t], v)])
  }

  /** Hashing the two fields gives the hash of the node. */
  lemma CombineValue(c: Conf, s: State, t: nat)
    requires WF(c, s) && t < |s.threads| && ThreadHist(c, s, t) && ThreadVals(c, s, t) && s.threads[t].pc == Combine
    ensures var p := ParentPos(s.threads[t]);
            && InTree(c, p.level, p.idx)
            && c.hash(s.nodes[p].left + s.nodes[p].right) == Val(c, Input(c, s), p.level, p.idx)
  {
  }

  lemma CombineClimbs(c: Conf, s: State, t: nat)
    requires Local(c, s, t) && s.threads[t].pc == Combine
    requires GrandParentHist(s, t)
    ensures forall v :: ThreadHist(c, Lift(s, t, Some(v)), t)
  {
    var p := ParentPos(s.threads[t]);
    Family(c, p.level, p.idx);
  }

  lemma CombineRight(c: Conf, s: State, t: nat)
    requires Local(c, s, t) && s.threads[t].pc == Combine
    requires GrandParentHist(s, t)
    ensures var n := s.nodes[ParentPos(s.threads[t])];
            LocallyRight(c, s, Lift(s, t, Some(c.hash(n.left + n.right))), t, NOWHERE)
  {
    CombineValue(c, s, t);
    CombineClimbs(c, s, t);
    var n := s.nodes[ParentPos(s.threads[t])];
    var s' := Lift(s, t, Some(c.hash(n.left + n.right)));
    assert Moved(s, s', t, NOWHERE);
    SentFrame(c, s, s', t, NOWHERE);
  }

  lemma ArriveTopRight(c: Conf, s: State, t: nat)
    requires Local(c, s, t) && s.threads[t].pc == Arrive && AtTop(c, s.threads[t])
    ensures Enabled(c, s, Run(t)) && LocallyRight(c, s, Apply(c, s, Run(t)), t, ParentPos(s.threads[t]))
  {
    Family(c, s.threads[t].level, s.threads[t].idx);
    var s' := Apply(c, s, Run(t));
    assert ParentPos(s.threads[t]) !in s.nodes;
    if s.threads[t].s.None? { SentFrame(c, s, s', t, ParentPos(s.threads[t])); }
  }

  // ---------------------------------------------------------------- storing a child hash

  /** The state after goroutine `t` moves to `th` and leaves its node as `n`. */
  function Put(s: State, t: nat, th: Thread, p: Pos, n: Node): State
    requires t < |s.threads|
  {
    s.(nodes := s.nodes[p := n], threads := s.threads[t := th])
  }

  predicate SameHistory(n: Node, n': Node) {
    n' == n.(left := n'.left, right := n'.right)
  }

  /** A store changes no history. */
  lemma StoreKeepsHist(s: State, t: nat, th': Thread, p: Pos, n': Node)
    requires t < |s.threads| && p in s.nodes && p.level > 0 && NodeHist(s, p) && SameHistory(s.nodes[p], n')
    requires var th := s.threads[t];
        th'.level == th.level && th.pc != Combine && th.pc != Done && th'.pc != Combine && th'.pc != Done
    ensures NodeHist(Put(s, t, th', p, n'), p)
  {
    var s' := Put(s, t, th', p, n');
    forall u: nat | u < |s'.threads| ensures Trace(s', p, u) {
      assert Trace(s, p, u);
    }
  }

  lemma StoreMoves(s: State, t: nat, th': Thread, p: Pos, n': Node)
    requires t < |s.threads| && p in s.nodes && p == ParentPos(s.threads[t]) && SameHistory(s.nodes[p], n')
    requires var th := s.threads[t];
        th'.level == th.level && th.pc != Combine && th.pc != Done && th'.pc != Combine && th'.pc != Done
    ensures Moved(s, Put(s, t, th', p, n'), t, p)
  {
  }

  lemma StoreRight(c: Conf, s: State, t: nat, th': Thread, n': Node)
    requires Local(c, s, t) && !AtTop(c, s.threads[t])
    requires var th := s.threads[t]; th.pc == Arrive && th' == th.(pc := th'.pc)
    requires th'.pc == Toggle || th'.pc == FillLeft
    requires SameHistory(s.nodes[ParentPos(th')], n')
    requires var s' := Put(s, t, th', ParentPos(th'), n');
      && ThreadHist(c, s', t) && WF(c, s') && ThreadVals(c, s', t)
      && Stores(c, s, s', ParentPos(th'))
    ensures LocallyRight(c, s, Put(s, t, th', ParentPos(th'), n'), t, ParentPos(th'))
  {
    var p := ParentPos(th');
    var s' := Put(s, t, th', p, n');
    StoreMoves(s, t, th', p, n');
    StoreKeepsHist(s, t, th', p, n');
    SentFrame(c, s, s', t, p);
  }

  function StoredNode(s: State, t: nat): Node
    requires t < |s.threads| && ParentPos(s.threads[t]) in s.nodes && s.threads[t].s.Some?
  {
    var th := s.threads[t];
    var n := s.nodes[ParentPos(th)];
    if th.idx % 2 == 0 then n.(left := th.s.value) else n.(right := th.s.value)
  }

  /** A goroutine with a hash stores it on its side. */
  lemma ArriveStores(c: Conf, s: State, t: nat)
    requires Local(c, s, t) && s.threads[t].pc == Arrive && !AtTop(c, s.threads[t])
    requires s.threads[t].s.Some? && !(IsFinal(s, t) && s.threads[t].idx % 2 == 0)
    ensures var th := s.threads[t];
            LocallyRight(c, s, Put(s, t, th.(pc := Toggle), ParentPos(th), StoredNode(s, t)), t, ParentPos(th))
  {
    var th := s.threads[t];
    var p := ParentPos(th);
    assert th.s.value == if th.idx % 2 == 0 then LeftVal(c, s, p) else RightVal(c, s, p);
    StoreRight(c, s, t, th.(pc := Toggle), StoredNode(s, t));
  }

  /** What lies right of the final goroutine's path is zero. */
  lemma ZeroOnRight(c: Conf, s: State, t: nat)
    requires WF(c, s) && ClientInv(c, s) && IsFinal(s, t) && ThreadHist(c, s, t)
    requires !AtTop(c, s.threads[t]) && s.threads[t].idx % 2 == 0
    ensures RightVal(c, s, ParentPos(s.threads[t])) == c.zerohashes[s.threads[t].level + 1]
  {
    var th := s.threads[t];
    Family(c, ParentPos(th).level, ParentPos(th).idx);
    SizeInOpenSection(c, s);
    forall i: nat | t < i && InTree(c, 0, i) ensures Section(c, Input(c, s), i) == Zeros(SectionSize(c)) {
      MulMono(t + 1, i, SectionSize(c));
      PadIsZeroAfter(c, s.data, i);
    }
    ValBeyond(c, Input(c, s), t, th.level, th.idx + 1);
  }

  /** The final goroutine on a left child fills in the right sister. */
  lemma ArriveFills(c: Conf, s: State, t: nat)
    requires Local(c, s, t) && ClientInv(c, s) && s.threads[t].pc == Arrive && !AtTop(c, s.threads[t])
    requires IsFinal(s, t) && s.threads[t].idx % 2 == 0
    ensures var th := s.threads[t];
            var th' := th.(pc := if th.s.Some? then FillLeft else Toggle);
            var n' := s.nodes[ParentPos(th)].(right := c.zerohashes[th.level + 1]);
            LocallyRight(c, s, Put(s, t, th', ParentPos(th), n'), t, ParentPos(th))
  {
    var th := s.threads[t];
    ZeroOnRight(c, s, t);
    var th' := th.(pc := if th.s.Some? then FillLeft else Toggle);
    StoreRight(c, s, t, th', s.nodes[ParentPos(th)].(right := c.zerohashes[th.level + 1]));
  }

  // ---------------------------------------------------------------- the final goroutine

  /** Without a hash on the right side there is nothing to do at this node. */
  lemma SkipKeepsHist(s: State, t: nat)
    requires t < |s.threads| && ParentPos(s.threads[t]) in s.nodes && NodeHist(s, ParentPos(s.threads[t]))
    requires var th := s.threads[t];
        th.pc == Arrive && th.idx % 2 == 1 && th.idx == Anc(t, th.level) && Win(s, th.level, th.idx) != Some(t)
    requires WinBelow(s, s.threads[t].level, s.threads[t].idx - 1)
    ensures NodeHist(Lift(s, t, None), ParentPos(s.threads[t]))
  {
    var th := s.threads[t];
    var p := ParentPos(th);
    var s' := Lift(s, t, None);
    assert 2 * p.idx == th.idx - 1;
    forall u: nat | u < |s'.threads| ensures Trace(s', p, u) {
      assert Trace(s, p, u);
    }
  }

  lemma ArriveSkips(c: Conf, s: State, t: nat)
    requires Local(c, s, t) && s.threads[t].pc == Arrive && !AtTop(c, s.threads[t])
    requires s.threads[t].s.None? && s.threads[t].idx % 2 == 1
    requires WinBelow(s, s.threads[t].level, s.threads[t].idx - 1) && GrandParentHist(s, t)
    ensures LocallyRight(c, s, Lift(s, t, None), t, ParentPos(s.threads[t]))
  {
    var th := s.threads[t];
    var p := ParentPos(th);
    Family(c, p.level, p.idx);
    var s' := Lift(s, t, None);
    assert Moved(s, s', t, p);
    SkipKeepsHist(s, t);
    SentFrame(c, s, s', t, p);
  }

  /** With a hash on the left side the final goroutine is alone at this node. */
  lemma AloneOnLeft(s: State, t: nat)
    requires t < |s.threads| && ParentPos(s.threads[t]) in s.nodes && NodeHist(s, ParentPos(s.threads[t]))
        && IsFinal(s, t)
    requires var th := s.threads[t];
        th.idx % 2 == 0 && th.idx == Anc(t, th.level) && Win(s, th.level, th.idx) == Some(t)
    requires AtNode(s, t) && !Passed(s, t, s.threads[t].level)
    requires WinBelow(s, s.threads[t].level, s.threads[t].idx + 1)
    ensures var n := s.nodes[ParentPos(s.threads[t])]; n.la.None? && n.ra.None? && n.win.None?
  {
    var th := s.threads[t];
    var n := s.nodes[ParentPos(th)];
    assert 2 * ParentPos(th).idx == th.idx;
    if n.ra.Some? {
      AncMono(n.ra.value, t, th.level);
    }
  }

  lemma FillKeepsHist(s: State, t: nat, v: Bytes)
    requires t < |s.threads| && ParentPos(s.threads[t]) in s.nodes && NodeHist(s, ParentPos(s.threads[t]))
        && IsFinal(s, t)
    requires var th := s.threads[t];
        th.pc == FillLeft && th.idx % 2 == 0 && th.idx == Anc(t, th.level) && Win(s, th.level, th.idx) == Some(t)
    requires var n := s.nodes[ParentPos(s.threads[t])]; n.la.None? && n.ra.None? && n.win.None?
    requires WinBelow(s, s.threads[t].level, s.threads[t].idx + 1)
    ensures var p := ParentPos(s.threads[t]);
            NodeHist(Put(s, t, s.threads[t].(pc := Combine), p, s.nodes[p].(left := v, win := Some(t))), p)
  {
    var th := s.threads[t];
    var p := ParentPos(th);
    assert 2 * p.idx == th.idx;
    var s' := Put(s, t, th.(pc := Combine), p, s.nodes[p].(left := v, win := Some(t)));
    assert Win(s', th.level, th.idx) == Win(s, th.level, th.idx);
    assert Win(s', th.level, th.idx + 1) == Win(s, th.level, th.idx + 1);
    assert Winner(s', p);
    forall u: nat | u < |s'.threads| ensures Trace(s', p, u) {
      assert Trace(s, p, u);
    }
  }

  lemma FillLeftRight(c: Conf, s: State, t: nat)
    requires Local(c, s, t) && s.threads[t].pc == FillLeft
    requires WinBelow(s, s.threads[t].level, s.threads[t].idx + 1)
    ensures var th := s.threads[t];
            var n' := s.nodes[ParentPos(th)].(left := th.s.value, win := Some(t));
            LocallyRight(c, s, Put(s, t, th.(pc := Combine), ParentPos(th), n'), t, ParentPos(th))
  {
    var th := s.threads[t];
    var p := ParentPos(th);
    AloneOnLeft(s, t);
    var s' := Put(s, t, th.(pc := Combine), p, s.nodes[p].(left := th.s.value, win := Some(t)));
    assert Moved(s, s', t, p);
    FillKeepsHist(s, t, th.s.value);
    assert Stores(c, s, s', p);
    SentFrame(c, s, s', t, p);
  }

  // ---------------------------------------------------------------- the toggle

  /** Counted from an even start, the toggle tells the first arrival from the second,
      even when the second one wraps the counter. */
  lemma ToggleCounts(base: int, k: nat)
    requires 0 <= base < INT32_MAX && base % 2 == 0 && k < 2
    ensures IsInt32(Toggled(base, k)) && AddInt32(Toggled(base, k)) == Toggled(base, k + 1)
    ensures Waiting(Toggled(base, k + 1)) <==> k == 0
  {
  }

  predicate OnLeft(s: State, t: nat)
    requires t < |s.threads|
  {
    s.threads[t].idx % 2 == 0 && !IsFinal(s, t)
  }

  /** A goroutine about to toggle at its node. */
  ghost predicate Toggling(s: State, t: nat) {
    && t < |s.threads| && ParentPos(s.threads[t]) in s.nodes && NodeHist(s, ParentPos(s.threads[t]))
    && var th := s.threads[t];
    && th.pc == Toggle && th.idx == Anc(t, th.level) && AtNode(s, t)
    && (th.s.Some? <==> Win(s, th.level, th.idx) == Some(t))
    && WinBelow(s, th.level, 2 * (th.idx / 2)) && WinBelow(s, th.level, 2 * (th.idx / 2) + 1)
  }

  lemma LeftSideFree(s: State, t: nat)
    requires Toggling(s, t) && OnLeft(s, t)
    ensures var n := s.nodes[ParentPos(s.threads[t])]; n.la.None? && n.win.None?
  {
  }

  lemma RightSideFree(s: State, t: nat)
    requires Toggling(s, t) && !OnLeft(s, t)
    ensures var n := s.nodes[ParentPos(s.threads[t])]; n.ra.None? && n.win.None?
  {
    var th := s.threads[t];
    var n := s.nodes[ParentPos(th)];
    if n.ra.Some? {
      if IsFinal(s, t) { AncMono(n.ra.value, t, th.level); }
      if s.final { AncMono(t, |s.threads| - 1, th.level); }
    }
    if n.win.Some? {
      if s.final { AncMono(t, |s.threads| - 1, th.level); }
    }
  }

  function ToggledNode(s: State, t: nat): Node
    requires t < |s.threads| && ParentPos(s.threads[t]) in s.nodes && IsInt32(s.nodes[ParentPos(s.threads[t])].state)
  {
    var n := s.nodes[ParentPos(s.threads[t])];
    var n' := if OnLeft(s, t) then n.(state := AddInt32(n.state), la := Some(t))
        else n.(state := AddInt32(n.state), ra := Some(t));
    if Waiting(AddInt32(n.state)) then n' else n'.(win := Some(t))
  }

  function ToggledThread(s: State, t: nat): Thread
    requires t < |s.threads| && ParentPos(s.threads[t]) in s.nodes && IsInt32(s.nodes[ParentPos(s.threads[t])].state)
  {
    var th := s.threads[t];
    if Waiting(AddInt32(s.nodes[ParentPos(th)].state)) then
      if IsFinal(s, t) then Climb(th, None) else th.(pc := Done)
    else th.(pc := Combine)
  }

  /** The toggle is right about who came first. */
  lemma ToggleIsRight(s: State, t: nat)
    requires Toggling(s, t)
    ensures var n := s.nodes[ParentPos(s.threads[t])];
            && n.win.None? && (if OnLeft(s, t) then n.la else n.ra).None?
            && IsInt32(n.state) && AddInt32(n.state) == Toggled(n.base, Bit(n.la) + Bit(n.ra) + 1)
            && (Waiting(AddInt32(n.state)) <==> (if OnLeft(s, t) then n.ra else n.la).None?)
  {
    var n := s.nodes[ParentPos(s.threads[t])];
    if OnLeft(s, t) { LeftSideFree(s, t); } else { RightSideFree(s, t); }
    ToggleCounts(n.base, Bit(n.la) + Bit(n.ra));
  }

  /** Without a final goroutine both children of a node that is hashed are full. */
  lemma SecondIsFull(s: State, t: nat, child: Pos)
    requires Toggling(s, t) && !s.final
    requires var p := ParentPos(s.threads[t]); child == Pos(p.level - 1, 2 * p.idx + 1)
    requires child.level > 0 ==> child in s.nodes ==> Winner(s, child)
    requires !OnLeft(s, t) || s.nodes[ParentPos(s.threads[t])].ra.Some?
    ensures LastSec(ParentPos(s.threads[t]).level, ParentPos(s.threads[t]).idx) < |s.threads|
  {
  }

  /** The children's winners are who they were. */
  lemma ToggleBelow(s: State, t: nat)
    requires Toggling(s, t) && IsInt32(s.nodes[ParentPos(s.threads[t])].state)
    ensures var p := ParentPos(s.threads[t]);
            var s' := Put(s, t, ToggledThread(s, t), p, ToggledNode(s, t));
            && Win(s', p.level - 1, 2 * p.idx) == Win(s, p.level - 1, 2 * p.idx)
            && Win(s', p.level - 1, 2 * p.idx + 1) == Win(s, p.level - 1, 2 * p.idx + 1)
  {
  }

  lemma ToggleLeftArrival(s: State, t: nat)
    requires Toggling(s, t) && IsInt32(s.nodes[ParentPos(s.threads[t])].state)
    ensures var p := ParentPos(s.threads[t]);
            LeftArrival(Put(s, t, ToggledThread(s, t), p, ToggledNode(s, t)), p)
  {
    ToggleBelow(s, t);
  }

  lemma ToggleRightArrival(s: State, t: nat)
    requires Toggling(s, t) && IsInt32(s.nodes[ParentPos(s.threads[t])].state)
    ensures var p := ParentPos(s.threads[t]);
            RightArrival(Put(s, t, ToggledThread(s, t), p, ToggledNode(s, t)), p)
  {
    ToggleBelow(s, t);
  }

  lemma ToggleTraces(s: State, t: nat, u: nat)
    requires Toggling(s, t) && IsInt32(s.nodes[ParentPos(s.threads[t])].state) && u < |s.threads|
    ensures var p := ParentPos(s.threads[t]);
            Trace(Put(s, t, ToggledThread(s, t), p, ToggledNode(s, t)), p, u)
  {
    var p := ParentPos(s.threads[t]);
    var s' := Put(s, t, ToggledThread(s, t), p, ToggledNode(s, t));
    assert Win(s', p.level - 1, 2 * p.idx) == Win(s, p.level - 1, 2 * p.idx);
    assert Win(s', p.level - 1, 2 * p.idx + 1) == Win(s, p.level - 1, 2 * p.idx + 1);
    assert Trace(s, p, u);
    ToggleIsRight(s, t);
  }

  lemma ToggleWinner(s: State, t: nat, child: Pos)
    requires Toggling(s, t) && IsInt32(s.nodes[ParentPos(s.threads[t])].state)
    requires var p := ParentPos(s.threads[t]); child == Pos(p.level - 1, 2 * p.idx + 1)
    requires child.level > 0 ==> child in s.nodes ==> Winner(s, child)
    ensures var p := ParentPos(s.threads[t]);
            Winner(Put(s, t, ToggledThread(s, t), p, ToggledNode(s, t)), p)
  {
    var p := ParentPos(s.threads[t]);
    ToggleIsRight(s, t);
    if !s.final && ToggledNode(s, t).win.Some? { SecondIsFull(s, t, child); }
  }

  lemma ToggleHist(s: State, t: nat, child: Pos)
    requires Toggling(s, t) && IsInt32(s.nodes[ParentPos(s.threads[t])].state)
    requires var p := ParentPos(s.threads[t]); child == Pos(p.level - 1, 2 * p.idx + 1)
    requires child.level > 0 ==> child in s.nodes ==> Winner(s, child)
    ensures var p := ParentPos(s.threads[t]);
            NodeHist(Put(s, t, ToggledThread(s, t), p, ToggledNode(s, t)), p)
  {
    var p := ParentPos(s.threads[t]);
    var s' := Put(s, t, ToggledThread(s, t), p, ToggledNode(s, t));
    ToggleIsRight(s, t);
    ToggleLeftArrival(s, t);
    ToggleRightArrival(s, t);
    ToggleWinner(s, t, child);
    forall u: nat | u < |s'.threads| ensures Trace(s', p, u) {
      ToggleTraces(s, t, u);
    }
  }

  lemma ToggleMoves(s: State, t: nat)
    requires Toggling(s, t) && IsInt32(s.nodes[ParentPos(s.threads[t])].state)
    ensures Moved(s, Put(s, t, ToggledThread(s, t), ParentPos(s.threads[t]), ToggledNode(s, t)), t,
        ParentPos(s.threads[t]))
  {
    ToggleIsRight(s, t);
  }

  lemma ToggleClimbs(c: Conf, s: State, t: nat)
    requires WF(c, s) && Toggling(s, t) && ThreadHist(c, s, t) && GrandParentHist(s, t)
    requires var n := s.nodes[ParentPos(s.threads[t])]; IsInt32(n.state) && Waiting(AddInt32(n.state)) && IsFinal(s, t)
    ensures ThreadHist(c, Put(s, t, ToggledThread(s, t), ParentPos(s.threads[t]), ToggledNode(s, t)), t)
  {
    var p := ParentPos(s.threads[t]);
    ToggleIsRight(s, t);
    Family(c, p.level, p.idx);
    var s' := Put(s, t, ToggledThread(s, t), p, ToggledNode(s, t));
    assert Win(s', p.level, p.idx) == s.nodes[p].win;
  }

  lemma ToggleStays(c: Conf, s: State, t: nat)
    requires WF(c, s) && Toggling(s, t) && ThreadHist(c, s, t)
    requires var n := s.nodes[ParentPos(s.threads[t])];
        IsInt32(n.state) && !(Waiting(AddInt32(n.state)) && IsFinal(s, t))
    ensures ThreadHist(c, Put(s, t, ToggledThread(s, t), ParentPos(s.threads[t]), ToggledNode(s, t)), t)
  {
    var p, th := ParentPos(s.threads[t]), s.threads[t];
    ToggleIsRight(s, t);
    var s' := Put(s, t, ToggledThread(s, t), p, ToggledNode(s, t));
    assert s'.threads[t] == ToggledThread(s, t);
    assert Win(s', th.level, th.idx) == Win(s, th.level, th.idx);
  }

  lemma ToggleThread(c: Conf, s: State, t: nat)
    requires Local(c, s, t) && Toggling(s, t) && GrandParentHist(s, t)
        && IsInt32(s.nodes[ParentPos(s.threads[t])].state)
    ensures ThreadHist(c, Put(s, t, ToggledThread(s, t), ParentPos(s.threads[t]), ToggledNode(s, t)), t)
  {
    if Waiting(AddInt32(s.nodes[ParentPos(s.threads[t])].state)) && IsFinal(s, t) {
      ToggleClimbs(c, s, t);
    } else {
      ToggleStays(c, s, t);
    }
  }

  /** A goroutine that goes on to combine, or stops, or climbs without a hash. */
  lemma ThreadValsAfter(c: Conf, s: State, s': State, t: nat, p: Pos)
    requires WF(c, s) && WF(c, s') && t < |s.threads| == |s'.threads| && s'.data == s.data
    requires ThreadHist(c, s, t) && ThreadHist(c, s', t) && ThreadVals(c, s, t) && s.threads[t].pc == Toggle
    requires ParentPos(s.threads[t]) == p && p in s.nodes && p in s'.nodes
    requires var th, th' := s.threads[t], s'.threads[t];
        || th' == th.(pc := Done) || th' == Climb(th, None)
        || (th' == th.(pc := Combine) && s'.nodes[p].left == LeftVal(c, s, p) && s'.nodes[p].right == RightVal(c, s, p))
    ensures ThreadVals(c, s', t)
  {
    assert Input(c, s') == Input(c, s);
  }

  lemma ToggleThreadVals(c: Conf, s: State, t: nat)
    requires Local(c, s, t) && Toggling(s, t) && IsInt32(s.nodes[ParentPos(s.threads[t])].state)
    requires var s' := Put(s, t, ToggledThread(s, t), ParentPos(s.threads[t]), ToggledNode(s, t));
        WF(c, s') && ThreadHist(c, s', t)
    ensures var p := ParentPos(s.threads[t]);
            ThreadVals(c, Put(s, t, ToggledThread(s, t), p, ToggledNode(s, t)), t)
  {
    var p := ParentPos(s.threads[t]);
    var s' := Put(s, t, ToggledThread(s, t), p, ToggledNode(s, t));
    if !Waiting(AddInt32(s.nodes[p].state)) { SecondHasBoth(c, s, t); }
    ThreadValsAfter(c, s, s', t, p);
  }

  /** Whoever comes second finds both children stored. */
  lemma SecondHasBoth(c: Conf, s: State, t: nat)
    requires Local(c, s, t) && Toggling(s, t) && IsInt32(s.nodes[ParentPos(s.threads[t])].state)
    requires !Waiting(AddInt32(s.nodes[ParentPos(s.threads[t])].state))
    ensures var p := ParentPos(s.threads[t]);
            s.nodes[p].left == LeftVal(c, s, p) && s.nodes[p].right == RightVal(c, s, p)
  {
    ToggleIsRight(s, t);
  }

  lemma ToggleNodeVals(c: Conf, s: State, t: nat)
    requires Local(c, s, t) && Toggling(s, t) && IsInt32(s.nodes[ParentPos(s.threads[t])].state)
    requires WF(c, Put(s, t, ToggledThread(s, t), ParentPos(s.threads[t]), ToggledNode(s, t)))
    ensures var p := ParentPos(s.threads[t]);
            var s' := Put(s, t, ToggledThread(s, t), p, ToggledNode(s, t));
            NodeVals(c, s', p) && Stores(c, s, s', p)
  {
    ToggleIsRight(s, t);
  }

  lemma ToggleRight(c: Conf, s: State, t: nat, child: Pos)
    requires Local(c, s, t) && Toggling(s, t) && GrandParentHist(s, t)
    requires var p := ParentPos(s.threads[t]); child == Pos(p.level - 1, 2 * p.idx + 1)
    requires child.level > 0 ==> child in s.nodes ==> Winner(s, child)
    ensures IsInt32(s.nodes[ParentPos(s.threads[t])].state)
    ensures LocallyRight(c, s, Put(s, t, ToggledThread(s, t), ParentPos(s.threads[t]), ToggledNode(s, t)), t,
        ParentPos(s.threads[t]))
  {
    var p := ParentPos(s.threads[t]);
    ToggleIsRight(s, t);
    ToggleMoves(s, t);
    ToggleThread(c, s, t);
    ToggleThreadVals(c, s, t);
    ToggleNodeVals(c, s, t);
    ToggleHist(s, t, child);
    SentFrame(c, s, Put(s, t, ToggledThread(s, t), p, ToggledNode(s, t)), t, p);
  }

  // ---------------------------------------------------------------- any goroutine step

  lemma LocalFacts(c: Conf, s: State, t: nat)
    requires CanRun(c, s, t)
    ensures Local(c, s, t) && GrandParentHist(s, t)
    ensures var th := s.threads[t];
            WinBelow(s, th.level, 2 * (th.idx / 2)) && WinBelow(s, th.level, 2 * (th.idx / 2) + 1)
  {
    var th := s.threads[t];
    assert ThreadHist(c, s, t);
    var p := ParentPos(th);
    var q := ParentPos(Climb(th, None));
    if p in s.nodes { assert NodeHist(s, p) && NodeVals(c, s, p); }
    if q in s.nodes { assert NodeHist(s, q); }
    WinIsBelow(c, s, th.level, 2 * (th.idx / 2));
    WinIsBelow(c, s, th.level, 2 * (th.idx / 2) + 1);
  }

  /** The final goroutine on a left child, a store, and a climb without a hash. */
  lemma ArriveIs(c: Conf, s: State, t: nat)
    requires t < |s.threads| && s.threads[t].pc == Arrive && !AtTop(c, s.threads[t])
    requires StepOk(c, s.nodes, s.buffer, IsFinal(s, t), s.threads[t])
    ensures var th := s.threads[t];
            var p := ParentPos(th);
            Apply(c, s, Run(t)) ==
              if IsFinal(s, t) && th.idx % 2 == 0 then
                Put(s, t, th.(pc := if th.s.Some? then FillLeft else Toggle), p,
                    s.nodes[p].(right := c.zerohashes[th.level + 1]))
              else if th.s.Some? then Put(s, t, th.(pc := Toggle), p, StoredNode(s, t))
              else Lift(s, t, None)
  {
  }

  ghost predicate Arriving(c: Conf, s: State, t: nat) {
    CanRun(c, s, t) && s.threads[t].pc == Arrive && !AtTop(c, s.threads[t])
  }

  lemma ArriveFillsKeeps(c: Conf, s: State, t: nat)
    requires Arriving(c, s, t) && IsFinal(s, t) && s.threads[t].idx % 2 == 0
    ensures Enabled(c, s, Run(t)) && TreeInv(c, Apply(c, s, Run(t)))
  {
    LocalFacts(c, s, t);
    ArriveFills(c, s, t);
    ArriveIs(c, s, t);
    RunKeeps(c, s, Apply(c, s, Run(t)), t, ParentPos(s.threads[t]));
  }

  lemma ArriveStoresKeeps(c: Conf, s: State, t: nat)
    requires Arriving(c, s, t) && s.threads[t].s.Some? && !(IsFinal(s, t) && s.threads[t].idx % 2 == 0)
    ensures Enabled(c, s, Run(t)) && TreeInv(c, Apply(c, s, Run(t)))
  {
    LocalFacts(c, s, t);
    ArriveStores(c, s, t);
    ArriveIs(c, s, t);
    RunKeeps(c, s, Apply(c, s, Run(t)), t, ParentPos(s.threads[t]));
  }

  lemma ArriveSkipsKeeps(c: Conf, s: State, t: nat)
    requires Arriving(c, s, t) && s.threads[t].s.None? && s.threads[t].idx % 2 == 1
    ensures Enabled(c, s, Run(t)) && TreeInv(c, Apply(c, s, Run(t)))
  {
    LocalFacts(c, s, t);
    ArriveSkips(c, s, t);
    ArriveIs(c, s, t);
    RunKeeps(c, s, Apply(c, s, Run(t)), t, ParentPos(s.threads[t]));
  }

  lemma ArriveKeeps(c: Conf, s: State, t: nat)
    requires CanRun(c, s, t) && s.threads[t].pc == Arrive
    ensures Enabled(c, s, Run(t)) && TreeInv(c, Apply(c, s, Run(t)))
  {
    var th := s.threads[t];
    assert ThreadHist(c, s, t);
    if AtTop(c, th) {
      LocalFacts(c, s, t);
      ArriveTopRight(c, s, t);
      RunKeeps(c, s, Apply(c, s, Run(t)), t, ParentPos(th));
    } else if IsFinal(s, t) && th.idx % 2 == 0 {
      ArriveFillsKeeps(c, s, t);
    } else if th.s.Some? {
      ArriveStoresKeeps(c, s, t);
    } else {
      ArriveSkipsKeeps(c, s, t);
    }
  }

  lemma ToggleIs(c: Conf, s: State, t: nat)
    requires t < |s.threads| && StepOk(c, s.nodes, s.buffer, IsFinal(s, t), s.threads[t]) && s.threads[t].pc == Toggle
    ensures Apply(c, s, Run(t)) == Put(s, t, ToggledThread(s, t), ParentPos(s.threads[t]), ToggledNode(s, t))
  {
  }

  lemma ToggleFacts(c: Conf, s: State, t: nat, child: Pos)
    requires CanRun(c, s, t) && s.threads[t].pc == Toggle
    requires var p := ParentPos(s.threads[t]); child == Pos(p.level - 1, 2 * p.idx + 1)
    ensures Local(c, s, t) && Toggling(s, t) && GrandParentHist(s, t)
    ensures child.level > 0 ==> child in s.nodes ==> Winner(s, child)
  {
    LocalFacts(c, s, t);
    if child in s.nodes { assert NodeHist(s, child); }
  }

  lemma ToggleKeeps(c: Conf, s: State, t: nat)
    requires CanRun(c, s, t) && s.threads[t].pc == Toggle
    ensures Enabled(c, s, Run(t)) && TreeInv(c, Apply(c, s, Run(t)))
  {
    var p := ParentPos(s.threads[t]);
    var child := Pos(p.level - 1, 2 * p.idx + 1);
    ToggleFacts(c, s, t, child);
    ToggleRight(c, s, t, child);
    ToggleIs(c, s, t);
    RunKeeps(c, s, Put(s, t, ToggledThread(s, t), p, ToggledNode(s, t)), t, p);
  }

  lemma FillLeftKeeps(c: Conf, s: State, t: nat)
    requires CanRun(c, s, t) && s.threads[t].pc == FillLeft
    ensures Enabled(c, s, Run(t)) && TreeInv(c, Apply(c, s, Run(t)))
  {
    LocalFacts(c, s, t);
    FillLeftRight(c, s, t);
    var s' := Apply(c, s, Run(t));
    assert s'.results == s.results;
    RunKeeps(c, s, s', t, ParentPos(s.threads[t]));
  }

  lemma CombineKeeps(c: Conf, s: State, t: nat)
    requires CanRun(c, s, t) && s.threads[t].pc == Combine
    ensures Enabled(c, s, Run(t)) && TreeInv(c, Apply(c, s, Run(t)))
  {
    LocalFacts(c, s, t);
    CombineRight(c, s, t);
    var s' := Apply(c, s, Run(t));
    assert s'.results == s.results;
    RunKeeps(c, s, s', t, NOWHERE);
  }

  /** A goroutine that is not done can always step, and the step keeps the invariant. */
  lemma RunStepKeeps(c: Conf, s: State, t: nat)
    requires CanRun(c, s, t)
    ensures Enabled(c, s, Run(t)) && TreeInv(c, Apply(c, s, Run(t)))
  {
    LocalFacts(c, s, t);
    match s.threads[t].pc {
      case HashSection =>
        SectionIsInput(c, s, t);
        HashSectionRight(c, s, t);
        RunKeeps(c, s, Apply(c, s, Run(t)), t, NOWHERE);
      case Arrive => ArriveKeeps(c, s, t);
      case FillLeft => FillLeftKeeps(c, s, t);
      case Toggle => ToggleKeeps(c, s, t);
      case Combine => CombineKeeps(c, s, t);
    }
  }

  lemma RunKeepsInv(c: Conf, s: State, t: nat)
    requires CanRun(c, s, t)
    ensures Enabled(c, s, Run(t)) && Inv(c, Apply(c, s, Run(t)))
  {
    RunStepKeeps(c, s, t);
    RunChanges(c, s, t);
    OthersKept(c, s, Apply(c, s, Run(t)));
  }

  /** What no goroutine touches. */
  ghost predicate SameFill(s: State, s': State) {
    && s'.buffer == s.buffer && s'.size == s.size && s'.pos == s.pos && s'.data == s.data && s'.final == s.final
    && s'.lingering == s.lingering && s'.fills == s.fills && |s'.threads| == |s.threads|
    && s'.nodes.Keys == s.nodes.Keys && forall p :: p in s.nodes ==> s'.nodes[p].base == s.nodes[p].base
  }

  lemma RunChanges(c: Conf, s: State, t: nat)
    requires WF(c, s) && Enabled(c, s, Run(t))
    ensures SameFill(s, Apply(c, s, Run(t)))
  {
  }

  lemma OthersKept(c: Conf, s: State, s': State)
    requires WF(c, s) && ClientInv(c, s) && LingerInv(c, s) && FillInv(s) && WF(c, s') && SameFill(s, s')
    ensures ClientInv(c, s') && LingerInv(c, s') && FillInv(s')
  {
  }
}
