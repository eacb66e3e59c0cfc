/** Whole runs of the concurrent hasher: what is sent, when the tree is free again,
    and that every schedule delivers. */
module BmtRuns {
  import opened Basics
  import opened BmtSpec
  import opened BmtMachine
  import opened BmtInvariant
  import opened BmtSteps
  import opened BmtClient

  function FinalId(s: State): nat
    requires s.final && |s.threads| > 0
  {
    |s.threads| - 1
  }

  // ---------------------------------------------------------------- after the result is sent

  ghost predicate Published(c: Conf, s: State) {
    Inv(c, s) && s.results != []
  }

  lemma PublishedFacts(c: Conf, s: State)
    requires Published(c, s)
    ensures s.final && |s.threads| > 0 && SentTop(c, s)
  {
    if !s.final { NothingSentEarly(c, s); }
  }

  /** Whoever carries a position's hash has handed it on. */
  lemma {:induction false} AllHandedOn(c: Conf, s: State, level: nat, idx: nat)
    requires Published(c, s) && s.final && |s.threads| > 0 && InTree(c, level, idx) && idx <= Anc(FinalId(s), level)
    ensures Win(s, level, idx).Some?
    ensures var t := Win(s, level, idx).value; t < |s.threads| && Passed(s, t, level)
    decreases c.depth - level
  {
    Family(c, level, idx);
    if level + 1 < c.depth {
      AllHandedOn(c, s, level + 1, idx / 2);
      assert NodeHist(s, Pos(level + 1, idx / 2));
      ChildHandedOn(s, Pos(level + 1, idx / 2), idx);
    } else {
      PublishedFacts(c, s);
    }
  }

  /** Whoever went on from a node had it from the carriers of its children. */
  lemma ChildHandedOn(s: State, p: Pos, idx: nat)
    requires s.final && |s.threads| > 0 && p in s.nodes && p.level > 0 && NodeHist(s, p)
    requires s.nodes[p].win.Some? && idx / 2 == p.idx && idx <= Anc(FinalId(s), p.level - 1)
    ensures var w := Win(s, p.level - 1, idx); w.Some? && w.value < |s.threads| && Passed(s, w.value, p.level - 1)
  {
  }

  /** Two goroutines toggled a node, or none did: its counter is even again. */
  lemma CounterIsEven(c: Conf, s: State, p: Pos)
    requires Published(c, s) && p in s.nodes
    ensures var n := s.nodes[p];
            n.state == n.base || n.state == Toggled(n.base, 2)
  {
    PublishedFacts(c, s);
    assert NodeHist(s, p);
    var n := s.nodes[p];
    var f := FinalId(s);
    if p.idx <= Anc(f, p.level) {
      AllHandedOn(c, s, p.level, p.idx);
    } else {
      WinIsBelow(c, s, p.level - 1, 2 * p.idx);
      WinIsBelow(c, s, p.level - 1, 2 * p.idx + 1);
      if n.la.Some? { AncMono(n.la.value, f, p.level - 1); }
      if n.ra.Some? { AncMono(n.ra.value, f, p.level - 1); }
    }
  }

  /** Where the final goroutine has not been yet, it comes from the right. */
  lemma FinalComesFromRight(c: Conf, s: State, level: nat)
    requires Published(c, s) && s.final && |s.threads| > 0 && level + 1 < c.depth && !Passed(s, FinalId(s), level)
    ensures Anc(FinalId(s), level) % 2 == 1
  {
    var f := FinalId(s);
    assert InTree(c, 0, f);
    AncInTree(c, f, level);
    AllHandedOn(c, s, level, Anc(f, level));
    if Anc(f, level) % 2 == 0 {
      var p := Pos(level + 1, Anc(f, level) / 2);
      Family(c, level, Anc(f, level));
      AllHandedOn(c, s, p.level, p.idx);
      assert NodeHist(s, p);
      WinIsBelow(c, s, level, 2 * p.idx + 1);
      if s.nodes[p].ra.Some? { AncMono(s.nodes[p].ra.value, f, level); }
    }
  }

  lemma {:induction false} FinalIsHarmless(c: Conf, s: State, level: nat)
    requires Published(c, s) && s.final && |s.threads| > 0 && level < c.depth
    requires forall k: nat :: level <= k ==> !Passed(s, FinalId(s), k)
    ensures Harmless(c, level, Anc(FinalId(s), level))
    decreases c.depth - level
  {
    if level + 1 < c.depth {
      FinalComesFromRight(c, s, level);
      FinalIsHarmless(c, s, level + 1);
    }
  }

  /** Once the result is sent, a goroutine that is not done is the final one,
      climbing without a hash past nodes it has no business with. */
  lemma OnlyFinalLingers(c: Conf, s: State, t: nat)
    requires Published(c, s) && t < |s.threads| && s.threads[t].pc != Done
    ensures var th := s.threads[t];
            IsFinal(s, t) && th.pc == Arrive && th.s.None? && InTree(c, th.level, th.idx)
                && Harmless(c, th.level, th.idx)
  {
    PublishedFacts(c, s);
    var th := s.threads[t];
    assert ThreadHist(c, s, t);
    AncMono(t, FinalId(s), th.level);
    AllHandedOn(c, s, th.level, th.idx);
    if th.pc == Combine {
      Family(c, th.level, th.idx);
      AllHandedOn(c, s, th.level + 1, th.idx / 2);
      assert false;
    }
    if th.pc == Toggle {
      FinalComesFromRight(c, s, th.level);
      assert false;
    }
    FinalIsHarmless(c, s, th.level);
  }

  /** After the result is sent no goroutine touches a node or sends again. */
  lemma PublishedIsUntouched(c: Conf, s: State, t: nat)
    requires Published(c, s) && Enabled(c, s, Run(t))
    ensures Apply(c, s, Run(t)).nodes == s.nodes && Apply(c, s, Run(t)).results == s.results
  {
    OnlyFinalLingers(c, s, t);
    assert s.results + [] == s.results;
  }

  // ---------------------------------------------------------------- left-over goroutines and recycling

  lemma LingerStepIs(c: Conf, s: State, k: nat)
    requires Inv(c, s) && Enabled(c, s, RunLingering(k))
    ensures var s' := Apply(c, s, RunLingering(k));
            s' == s.(lingering := s'.lingering) && LingerInv(c, s')
  {
  }

  /** A goroutine of an earlier fill never disturbs the tree. */
  lemma LingeringKeeps(c: Conf, s: State, k: nat)
    requires Inv(c, s) && Enabled(c, s, RunLingering(k))
    ensures Inv(c, Apply(c, s, RunLingering(k)))
    ensures Apply(c, s, RunLingering(k)).nodes == s.nodes
  {
    LingerStepIs(c, s, k);
    var s' := Apply(c, s, RunLingering(k));
    forall p | p in s'.nodes ensures NodeHist(s', p) && NodeVals(c, s', p) { LingerNode(c, s, s', p); }
    forall t: nat | t < |s'.threads| ensures ThreadHist(c, s', t) && ThreadVals(c, s', t) {
      LingerThread(c, s, s', t);
    }
  }

  lemma LingerNode(c: Conf, s: State, s': State, p: Pos)
    requires TreeInv(c, s) && s' == s.(lingering := s'.lingering) && p in s.nodes
    ensures WF(c, s') && NodeHist(s', p) && NodeVals(c, s', p)
  {
    assert NodeHist(s, p) && NodeVals(c, s, p);
    SameHist(s, s', p);
  }

  lemma LingerThread(c: Conf, s: State, s': State, t: nat)
    requires TreeInv(c, s) && s' == s.(lingering := s'.lingering) && t < |s.threads|
    ensures WF(c, s') && ThreadHist(c, s', t) && ThreadVals(c, s', t)
  {
    assert ThreadHist(c, s, t) && ThreadVals(c, s, t);
  }

  lemma SameHist(s: State, s': State, p: Pos)
    requires s' == s.(lingering := s'.lingering) && p in s.nodes && p.level > 0 && NodeHist(s, p)
    ensures NodeHist(s', p)
  {
    forall u: nat | u < |s'.threads| ensures Trace(s', p, u) {
      assert Trace(s, p, u);
    }
  }

  /** A returned tree: every counter is even and small, whatever the last fill was. */
  lemma CountersAfterFill(c: Conf, s: State, p: Pos)
    requires Inv(c, s) && Enabled(c, s, Recycle) && p in s.nodes
    ensures 0 <= s.nodes[p].state <= 2 * (s.fills + 1) < INT32_MAX && s.nodes[p].state % 2 == 0
  {
    assert NodeHist(s, p);
    if s.results != [] { CounterIsEven(c, s, p); }
  }

  /** A tree is not cleaned between fills: counters, hashes and buffer are as the last fill left
      them, and its unfinished goroutines run on. */
  lemma RecycleCleansNothing(c: Conf, s: State)
    requires Enabled(c, s, Recycle)
    ensures var s' := Apply(c, s, Recycle);
            && s'.buffer == s.buffer && s'.nodes.Keys == s.nodes.Keys
            && (forall p :: p in s.nodes ==>
                var n, n' := s.nodes[p], s'.nodes[p];
                n'.state == n.state && n'.left == n.left && n'.right == n.right)
            && (forall th :: th in s.lingering || (th in s.threads && th.pc != Done) ==> th in s'.lingering)
  {
  }

  lemma RecycleKeeps(c: Conf, s: State)
    requires Inv(c, s) && Enabled(c, s, Recycle)
    ensures Inv(c, Apply(c, s, Recycle))
  {
    var s' := RecycleStep(s);
    SectionInBounds(c, 0);
    assert WF(c, s');
    forall p | p in s'.nodes ensures NodeHist(s', p) && NodeVals(c, s', p) && s'.nodes[p].base <= 2 * s'.fills {
      CountersAfterFill(c, s, p);
    }
    forall th | th in UnfinishedOf(s.threads)
      ensures th.s.None? && th.pc == Arrive && InTree(c, th.level, th.idx) && Harmless(c, th.level, th.idx)
    {
      var t: nat :| t < |s.threads| && s.threads[t] == th;
      if s.results != [] { OnlyFinalLingers(c, s, t); }
    }
    assert !SentTop(c, s');
  }

  // ---------------------------------------------------------------- every run

  lemma StepKeeps(c: Conf, s: State, a: Action)
    requires Inv(c, s) && Enabled(c, s, a)
    ensures Inv(c, Apply(c, s, a))
  {
    match a
    case Write(b) => WriteKeeps(c, s, b);
    case StartHash => StartHashKeeps(c, s);
    case Run(t) => RunKeepsInv(c, s, t);
    case RunLingering(k) => LingeringKeeps(c, s, k);
    case Recycle => RecycleKeeps(c, s);
  }

  lemma InitialInv(c: Conf, s: State)
    requires Initial(c, s) && SectionSize(c) <= ZERO_SECTION
    ensures Inv(c, s)
  {
  }

  /** The invariant holds in every state of every run: any number of fills of one
      tree, any split of the input into Writes, any schedule. */
  lemma {:induction false} RunInv(c: Conf, s: State, acts: seq<Action>)
    requires Initial(c, s) && SectionSize(c) <= ZERO_SECTION && ValidRun(c, s, acts)
    ensures Inv(c, Exec(c, s, acts))
    decreases |acts|
  {
    if acts == [] {
      InitialInv(c, s);
    } else {
      RunInv(c, s, acts[..|acts| - 1]);
      StepKeeps(c, Exec(c, s, acts[..|acts| - 1]), acts[|acts| - 1]);
    }
  }

  /** What Hash returns: at once for an empty fill, else when a value is sent. */
  function Returned(c: Conf, s: State, span: Bytes): Option<Bytes>
    requires |c.zerohashes| == c.depth + 1
  {
    if s.size == 0 then Some(c.hash(span + c.zerohashes[c.depth]))
    else if s.final && s.results != [] then Some(c.hash(span + s.results[0]))
    else None
  }

  lemma ReturnedIsBmtHash(c: Conf, s: State, span: Bytes)
    requires Inv(c, s)
    ensures |s.results| <= 1
    ensures Returned(c, s, span).Some? ==> Returned(c, s, span).value == BmtHash(c, span, s.data)
  {
    TopValIsRoot(c, Input(c, s));
    if s.size == 0 {
      ZeroHashIsRootOfZeros(c.hash, c.segmentSize, c.depth);
      assert Pad(c, s.data) == Zeros(c.maxSize);
    }
  }

  /** The bytes given to Write since the tree was last taken from the pool. */
  function InputOf(acts: seq<Action>): Bytes
    decreases |acts|
  {
    if acts == [] then []
    else
      var before := InputOf(acts[..|acts| - 1]);
      match acts[|acts| - 1]
      case Write(b) => before + b
      case Recycle => []
      case _ => before
  }

  function Truncate(c: Conf, x: Bytes): (r: Bytes)
    ensures |r| <= c.maxSize
  {
    if |x| <= c.maxSize then x else x[..c.maxSize]
  }

  /** Write accepts the input in order and drops what exceeds the capacity. */
  lemma TruncatedMore(c: Conf, x: Bytes, b: Bytes)
    ensures |Truncate(c, x)| <= c.maxSize
    ensures Truncate(c, x) + b[..Accepted(c, |Truncate(c, x)|, b)] == Truncate(c, x + b)
  {
    if |x| > c.maxSize { assert (x + b)[..c.maxSize] == x[..c.maxSize]; }
  }

  lemma {:induction false} DataIsInput(c: Conf, s: State, acts: seq<Action>)
    requires Initial(c, s) && SectionSize(c) <= ZERO_SECTION && ValidRun(c, s, acts)
    ensures Exec(c, s, acts).data == Truncate(c, InputOf(acts))
    decreases |acts|
  {
    if acts != [] {
      var before := acts[..|acts| - 1];
      DataIsInput(c, s, before);
      RunInv(c, s, before);
      var x := InputOf(before);
      match acts[|acts| - 1] {
        case Write(b) => TruncatedMore(c, x, b);
        case _ =>
      }
    }
  }

  /** Main theorem. Whatever the schedule, the split into Writes and the history of
      the tree, at most one value is sent and Hash returns the reference BMT hash. */
  lemma HashRefinesReference(c: Conf, s0: State, acts: seq<Action>, span: Bytes)
    requires Initial(c, s0) && SectionSize(c) <= ZERO_SECTION && ValidRun(c, s0, acts)
    ensures var s := Exec(c, s0, acts);
            && |s.results| <= 1
            && (Returned(c, s, span).Some? ==>
                Returned(c, s, span).value == BmtHash(c, span, Truncate(c, InputOf(acts))))
  {
    RunInv(c, s0, acts);
    DataIsInput(c, s0, acts);
    ReturnedIsBmtHash(c, Exec(c, s0, acts), span);
  }

  // ---------------------------------------------------------------- every schedule delivers

  /** If nobody can move, every position up to the final section is carried. */
  lemma {:induction false} AllCarried(c: Conf, s: State, level: nat, idx: nat)
    requires Inv(c, s) && s.final && |s.threads| > 0 && InTree(c, level, idx) && idx <= Anc(FinalId(s), level)
    requires forall t: nat :: t < |s.threads| ==> s.threads[t].pc == Done
    ensures var w := Win(s, level, idx); w.Some? && w.value < |s.threads| && Passed(s, w.value, level)
  {
    if level > 0 {
      var p := Pos(level, idx);
      Family(c, level, idx);
      AllCarried(c, s, level - 1, 2 * idx);
      if 2 * idx + 1 <= Anc(FinalId(s), level - 1) { AllCarried(c, s, level - 1, 2 * idx + 1); }
      FinalPassed(c, s, level - 1);
      assert NodeHist(s, p);
      SomebodyWentOn(s, p);
    }
    CarrierPassed(c, s, level, idx);
  }

  /** A final goroutine that is done has been everywhere. */
  lemma FinalPassed(c: Conf, s: State, level: nat)
    requires Inv(c, s) && s.final && |s.threads| > 0 && s.threads[FinalId(s)].pc == Done && level + 1 < c.depth
    ensures Passed(s, FinalId(s), level)
  {
    assert ThreadHist(c, s, FinalId(s));
  }

  /** The carriers of the children have passed a node: one of them carries its hash. */
  lemma SomebodyWentOn(s: State, p: Pos)
    requires s.final && |s.threads| > 0 && p in s.nodes && p.level > 0 && NodeHist(s, p)
    requires p.idx <= Anc(FinalId(s), p.level)
    requires Passed(s, FinalId(s), p.level - 1)
    requires var w := Win(s, p.level - 1, 2 * p.idx);
             w.Some? && w.value < |s.threads| && Passed(s, w.value, p.level - 1)
    requires 2 * p.idx + 1 <= Anc(FinalId(s), p.level - 1) ==>
             var w := Win(s, p.level - 1, 2 * p.idx + 1);
             w.Some? && w.value < |s.threads| && Passed(s, w.value, p.level - 1)
    ensures s.nodes[p].win.Some?
  {
    var f, k := FinalId(s), p.level - 1;
    assert Trace(s, p, f) && Trace(s, p, Win(s, k, 2 * p.idx).value);
    if 2 * p.idx + 1 <= Anc(f, k) { assert Trace(s, p, Win(s, k, 2 * p.idx + 1).value); }
  }

  lemma CarrierPassed(c: Conf, s: State, level: nat, idx: nat)
    requires Inv(c, s) && s.final && Win(s, level, idx).Some?
    requires forall t: nat :: t < |s.threads| ==> s.threads[t].pc == Done
    ensures var t := Win(s, level, idx).value; t < |s.threads| && Passed(s, t, level) && s.threads[t].level >= level
  {
    var t := Win(s, level, idx).value;
    if level > 0 {
      assert NodeHist(s, Pos(level, idx));
      assert ThreadHist(c, s, t);
    }
  }

  /** If every goroutine is done, the result was sent. */
  lemma DoneMeansSent(c: Conf, s: State)
    requires Inv(c, s) && s.final
    requires forall t: nat :: t < |s.threads| ==> s.threads[t].pc == Done
    ensures s.results != []
  {
    AllCarried(c, s, c.depth - 1, 0);
    CarrierPassed(c, s, c.depth - 1, 0);
    assert ThreadHist(c, s, Win(s, c.depth - 1, 0).value);
  }

  /** Hash never waits in vain: until the value is sent, some goroutine can step. */
  lemma NoDeadlock(c: Conf, s: State)
    requires Inv(c, s) && s.final && s.results == []
    ensures exists t: nat :: t < |s.threads| && Enabled(c, s, Run(t))
  {
    if forall t: nat :: t < |s.threads| ==> s.threads[t].pc == Done {
      DoneMeansSent(c, s);
      assert false;
    } else {
      var t: nat :| t < |s.threads| && s.threads[t].pc != Done;
      RunStepKeeps(c, s, t);
      assert Enabled(c, s, Run(t));
    }
  }

  function Rank(pc: Pc): nat {
    match pc
    case HashSection => 5
    case Arrive => 4
    case FillLeft => 3
    case Toggle => 2
    case Combine => 1
    case Done => 0
  }

  /** Steps a goroutine may still take. */
  function Work(c: Conf, th: Thread): nat {
    if th.pc == Done || th.level >= c.depth then 0 else 6 * (c.depth - th.level - 1) + Rank(th.pc)
  }

  function TotalWork(c: Conf, ths: seq<Thread>): nat {
    if ths == [] then 0 else Work(c, ths[0]) + TotalWork(c, ths[1..])
  }

  lemma {:induction false} WorkUpdate(c: Conf, ths: seq<Thread>, t: nat, th: Thread)
    requires t < |ths|
    ensures TotalWork(c, ths[t := th]) == TotalWork(c, ths) - Work(c, ths[t]) + Work(c, th)
  {
    if t == 0 {
      assert ths[t := th][1..] == ths[1..];
    } else {
      assert ths[t := th][1..] == ths[1..][t - 1 := th];
      WorkUpdate(c, ths[1..], t - 1, th);
    }
  }

  /** What the goroutines of this fill and of all earlier ones may still do. */
  function WorkLeft(c: Conf, s: State): nat {
    TotalWork(c, s.threads) + TotalWork(c, s.lingering)
  }

  predicate OfGoroutine(a: Action) {
    a.Run? || a.RunLingering?
  }

  lemma StepLeavesLess(c: Conf, nodes: map<Pos, Node>, buffer: Bytes, t: nat, final: bool, th: Thread)
    requires StepOk(c, nodes, buffer, final, th) && th.level < c.depth
    ensures Work(c, StepThread(c, nodes, buffer, t, final, th).th) < Work(c, th)
  {
  }

  /** Each step of a goroutine, of this fill or an earlier one, leaves less work. */
  lemma StepsRunOut(c: Conf, s: State, a: Action)
    requires Inv(c, s) && OfGoroutine(a) && Enabled(c, s, a)
    ensures WorkLeft(c, Apply(c, s, a)) < WorkLeft(c, s)
  {
    match a
    case Run(t) =>
      assert ThreadHist(c, s, t);
      StepLeavesLess(c, s.nodes, s.buffer, t, IsFinal(s, t), s.threads[t]);
      WorkUpdate(c, s.threads, t, Apply(c, s, a).threads[t]);
    case RunLingering(k) =>
      StepLeavesLess(c, s.nodes, s.buffer, 0, true, s.lingering[k]);
      WorkUpdate(c, s.lingering, k, Apply(c, s, a).lingering[k]);
  }

  /** Every schedule ends: between two calls of the client, goroutines of all fills together
      take no more steps than there was work. */
  lemma {:induction false} ScheduleEnds(c: Conf, s: State, acts: seq<Action>)
    requires Inv(c, s) && ValidRun(c, s, acts) && forall a :: a in acts ==> OfGoroutine(a)
    ensures Inv(c, Exec(c, s, acts)) && |acts| + WorkLeft(c, Exec(c, s, acts)) <= WorkLeft(c, s)
    decreases |acts|
  {
    if acts != [] {
      var before, a := acts[..|acts| - 1], acts[|acts| - 1];
      ScheduleEnds(c, s, before);
      StepKeeps(c, Exec(c, s, before), a);
      StepsRunOut(c, Exec(c, s, before), a);
    }
  }

  /** Every run that can go no further after Hash was called has sent exactly one value, and
      Hash returns the reference hash of the input. */
  lemma EndedRunDelivers(c: Conf, s0: State, acts: seq<Action>, span: Bytes)
    requires Initial(c, s0) && SectionSize(c) <= ZERO_SECTION && ValidRun(c, s0, acts)
    requires var s := Exec(c, s0, acts); s.final && forall t: nat :: !Enabled(c, s, Run(t))
    ensures |Exec(c, s0, acts).results| == 1
    ensures Returned(c, Exec(c, s0, acts), span) == Some(BmtHash(c, span, Truncate(c, InputOf(acts))))
  {
    RunInv(c, s0, acts);
    var s := Exec(c, s0, acts);
    if s.results == [] { NoDeadlock(c, s); }
    HashRefinesReference(c, s0, acts, span);
  }

  // ---------------------------------------------------------------- a worn-out tree

  ghost function RunTimes(c: Conf, s: State, t: nat, k: nat): Option<State>
    decreases k
  {
    if k == 0 then Some(s)
    else if Enabled(c, s, Run(t)) then RunTimes(c, Apply(c, s, Run(t)), t, k - 1)
    else None
  }

  /** Past 2^30 fills a counter is negative and toggle() no longer stops the first
      arrival: here the goroutine of section 0 alone publishes a root made with
      whatever the node's right field held before. */
  lemma WornOutTreePublishesStaleHash(c: Conf, s: State, n: Node)
    requires ValidConf(c) && c.depth == 2 && |s.buffer| == c.maxSize
    requires s.nodes == map[Pos(1, 0) := n] && n.state == INT32_MIN
    requires s.threads == [SectionThread(0), SectionThread(1)] && s.final && s.results == []
    ensures InTree(c, 0, 0)
    ensures RunTimes(c, s, 0, 5).Some?
    ensures RunTimes(c, s, 0, 5).value.results == [c.hash(c.hash(Section(c, s.buffer, 0)) + n.right)]
  {
  }
}
