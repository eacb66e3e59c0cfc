/** queueProcess against everything else that touches the same queue. Every step takes the
    queue's lock once; queueProcess itself runs one call at a time under its own mutex. */
module PullRace {
  import opened Basics
  import opened PullQueue

  /** Where the running call of queueProcess stands. */
  datatype Pc =
    | Idle
    | GotPulled(pulledLen: nat)      // len(Pulled) is known
    | BelowMax                       // Pulled and Pulling are below PullMax
    | HasRoom(n: nat)                // n free places in Pulling
    | TakesAll                       // fewer nodes than places: about to read len(UnPull) again
    | Loop(left: nat)                // about to pop
    | Holding(node: Bytes, left: nat) // popped, about to push
    | Panicked                       // popped an empty list

  datatype State = State(unPull: seq<Bytes>, pulling: seq<Bytes>, pulled: seq<Bytes>, pc: Pc)

  /** Step is the next access of queueProcess. The others are the single accesses of
      findChunkInfo, updateQueue, the timeout tick and the cleaning of old discoveries. */
  datatype Action =
    | Step
    | PushUnPull(node: Bytes)
    | PopPulling(node: Bytes)
    | PushPulled(node: Bytes)
    | PopPulled(node: Bytes)

  function Process(s: State): State {
    match s.pc
    case Idle => s.(pc := GotPulled(|s.pulled|))
    case GotPulled(k) => s.(pc := if k + |s.pulling| >= PULL_MAX then Idle else BelowMax)
    case BelowMax =>
      s.(pc := if |s.pulling| >= PULLING_MAX then Idle else HasRoom(PULLING_MAX - |s.pulling|))
    case HasRoom(n) => s.(pc := if n > |s.unPull| then TakesAll else Loop(n))
    case TakesAll => s.(pc := Loop(|s.unPull|))
    case Loop(left) =>
      if left == 0 then s.(pc := Idle)
      else if s.unPull == [] then s.(pc := Panicked)
      else s.(unPull := s.unPull[1..], pc := Holding(s.unPull[0], left - 1))
    case Holding(node, left) => s.(pulling := s.pulling + [node], pc := Loop(left))
    case Panicked => s
  }

  function Apply(s: State, a: Action): State {
    match a
    case Step => Process(s)
    case PushUnPull(x) => s.(unPull := s.unPull + [x])
    case PopPulling(x) => s.(pulling := Skim(s.pulling, x))
    case PushPulled(x) => s.(pulled := s.pulled + [x])
    case PopPulled(x) => s.(pulled := Skim(s.pulled, x))
  }

  function Exec(s: State, acts: seq<Action>): State
    decreases |acts|
  {
    if acts == [] then s else Exec(Apply(s, acts[0]), acts[1..])
  }

  function Initial(): State {
    State([], [], [], Idle)
  }

  // ---------------------------------------------------------------- never an empty pop

  predicate Inv(s: State) {
    match s.pc
    case HasRoom(n) => |s.pulling| + n <= PULLING_MAX
    case TakesAll => |s.pulling| < PULLING_MAX
    case Loop(left) => left <= |s.unPull|
    case Holding(_, left) => left <= |s.unPull|
    case Panicked => false
    case _ => true
  }

  lemma StepKeeps(s: State, a: Action)
    requires Inv(s)
    ensures Inv(Apply(s, a))
  {
    if a.PopPulling? { SkimKeepsOthers(s.pulling, a.node); }
  }

  lemma {:induction false} RunKeeps(s: State, acts: seq<Action>)
    requires Inv(s)
    ensures Inv(Exec(s, acts))
    decreases |acts|
  {
    if acts != [] {
      StepKeeps(s, acts[0]);
      RunKeeps(Apply(s, acts[0]), acts[1..]);
    }
  }

  /** No interleaving makes queueProcess pop an empty list. */
  lemma NeverPopsEmpty(acts: seq<Action>)
    ensures var s := Exec(Initial(), acts);
      !s.pc.Panicked? && (s.pc.Loop? && s.pc.left > 0 ==> s.unPull != [])
  {
    RunKeeps(Initial(), acts);
  }

  // ---------------------------------------------------------------- the bound on Pulling

  /** Nodes in Pulling and nodes on their way there fit. */
  predicate Budget(s: State) {
    match s.pc
    case Loop(left) => |s.pulling| + left <= PULLING_MAX
    case Holding(_, left) => |s.pulling| + 1 + left <= PULLING_MAX
    case _ => |s.pulling| <= PULLING_MAX
  }

  /** No second read of len(UnPull) along the run. */
  predicate Calm(s: State, acts: seq<Action>)
    decreases |acts|
  {
    acts != [] ==> !(acts[0] == Step && s.pc == TakesAll) && Calm(Apply(s, acts[0]), acts[1..])
  }

  lemma BudgetStep(s: State, a: Action)
    requires Inv(s) && Budget(s) && !(a == Step && s.pc == TakesAll)
    ensures Budget(Apply(s, a))
  {
    if a.PopPulling? { SkimKeepsOthers(s.pulling, a.node); }
  }

  lemma {:induction false} BudgetKept(s: State, acts: seq<Action>)
    requires Inv(s) && Budget(s) && Calm(s, acts)
    ensures Budget(Exec(s, acts)) && |Exec(s, acts).pulling| <= PULLING_MAX
    decreases |acts|
  {
    if acts != [] {
      StepKeeps(s, acts[0]);
      BudgetStep(s, acts[0]);
      BudgetKept(Apply(s, acts[0]), acts[1..]);
    }
  }

  /** Left alone, the loop delivers everything it has counted. */
  lemma {:induction false} Drain(s: State) returns (acts: seq<Action>)
    requires Inv(s) && (s.pc.Loop? || s.pc.Holding?)
    ensures Calm(s, acts)
    ensures |Exec(s, acts).pulling| == |s.pulling| + s.pc.left + if s.pc.Holding? then 1 else 0
    decreases s.pc.left, if s.pc.Holding? then 1 else 0
  {
    if s.pc == Loop(0) {
      acts := [];
    } else {
      StepKeeps(s, Step);
      var rest := Drain(Process(s));
      acts := [Step] + rest;
      assert acts[1..] == rest;
    }
  }

  lemma Overfull(s: State) returns (acts: seq<Action>)
    requires Inv(s) && !Budget(s)
    ensures Calm(s, acts) && |Exec(s, acts).pulling| > PULLING_MAX
  {
    acts := [];
    if s.pc.Loop? || s.pc.Holding? { acts := Drain(s); }
  }

  /** From any state of any run: Pulling stays within its limit, whatever happens until
      len(UnPull) is read a second time, exactly when what is counted fits. */
  lemma StaysWithinIff(s: State)
    requires Inv(s)
    ensures Budget(s) <==> forall acts :: Calm(s, acts) ==> |Exec(s, acts).pulling| <= PULLING_MAX
  {
    if Budget(s) {
      forall acts | Calm(s, acts) ensures |Exec(s, acts).pulling| <= PULLING_MAX { BudgetKept(s, acts); }
    } else {
      var acts := Overfull(s);
    }
  }

  /** So the second read is what decides: the call is safe exactly when the list it then sees
      fits into Pulling. */
  lemma SecondReadDecides(s: State)
    requires Inv(s) && s.pc == TakesAll
    ensures |s.pulling| + |s.unPull| <= PULLING_MAX
       <==> forall acts :: Calm(Process(s), acts) ==> |Exec(Process(s), acts).pulling| <= PULLING_MAX
  {
    StepKeeps(s, Step);
    StaysWithinIff(Process(s));
  }

  /** Every second read of len(UnPull) along the run sees a list that fits. */
  predicate Fits(s: State, acts: seq<Action>)
    decreases |acts|
  {
    acts != [] ==>
      && (acts[0] == Step && s.pc == TakesAll ==> |s.pulling| + |s.unPull| <= PULLING_MAX)
      && Fits(Apply(s, acts[0]), acts[1..])
  }

  lemma FitsStep(s: State, a: Action)
    requires Inv(s) && Budget(s) && (a == Step && s.pc == TakesAll ==> |s.pulling| + |s.unPull| <= PULLING_MAX)
    ensures Inv(Apply(s, a)) && Budget(Apply(s, a))
  {
    StepKeeps(s, a);
    if !(a == Step && s.pc == TakesAll) { BudgetStep(s, a); }
  }

  /** Then every state on the way keeps its budget. */
  lemma {:induction false} FitsKeepsBudget(s: State, acts: seq<Action>, k: nat)
    requires Inv(s) && Budget(s) && Fits(s, acts) && k <= |acts|
    ensures Inv(Exec(s, acts[..k])) && Budget(Exec(s, acts[..k]))
    decreases k
  {
    if k > 0 {
      FitsStep(s, acts[0]);
      FitsKeepsBudget(Apply(s, acts[0]), acts[1..], k - 1);
      assert acts[..k][1..] == acts[1..][..k - 1];
    }
  }

  /** Otherwise some state on the way has lost it. */
  lemma {:induction false} Misfit(s: State, acts: seq<Action>) returns (k: nat)
    requires Inv(s) && Budget(s) && !Fits(s, acts)
    ensures k <= |acts| && Inv(Exec(s, acts[..k])) && !Budget(Exec(s, acts[..k]))
    decreases |acts|
  {
    StepKeeps(s, acts[0]);
    if acts[0] == Step && s.pc == TakesAll && |s.pulling| + |s.unPull| > PULLING_MAX {
      k := 1;
      assert acts[..1][1..] == [];
    } else {
      FitsStep(s, acts[0]);
      k := Misfit(Apply(s, acts[0]), acts[1..]);
      k := k + 1;
      assert acts[..k][1..] == acts[1..][..k - 1];
    }
  }

  /** Pulling stays within its limit in every state of a run and on every way on from there
      that has no further second read. */
  ghost predicate StaysWithin(acts: seq<Action>) {
    forall k, more :: 0 <= k <= |acts| && Calm(Exec(Initial(), acts[..k]), more) ==>
      |Exec(Exec(Initial(), acts[..k]), more).pulling| <= PULLING_MAX
  }

  /** The bound over whole runs: it holds if and only if every second read of len(UnPull)
      sees a list that fits into Pulling. */
  lemma RunStaysWithinIff(acts: seq<Action>)
    ensures StaysWithin(acts) <==> Fits(Initial(), acts)
  {
    var s := Initial();
    if Fits(s, acts) {
      forall k, more | 0 <= k <= |acts| && Calm(Exec(s, acts[..k]), more)
        ensures |Exec(Exec(s, acts[..k]), more).pulling| <= PULLING_MAX
      {
        FitsKeepsBudget(s, acts, k);
        BudgetKept(Exec(s, acts[..k]), more);
      }
    } else {
      var k := Misfit(s, acts);
      var more := Overfull(Exec(s, acts[..k]));
    }
  }

  /** No push to UnPull between the two reads of its length. */
  predicate Quiet(s: State, acts: seq<Action>)
    decreases |acts|
  {
    acts != [] ==> !(acts[0].PushUnPull? && s.pc == TakesAll) && Quiet(Apply(s, acts[0]), acts[1..])
  }

  /** Such a run fits: the second read sees what the first one saw, or less room is taken. */
  lemma {:induction false} QuietRunsFit(s: State, acts: seq<Action>)
    requires Inv(s) && (s.pc == TakesAll ==> |s.pulling| + |s.unPull| <= PULLING_MAX) && Quiet(s, acts)
    ensures Fits(s, acts)
    decreases |acts|
  {
    if acts != [] {
      var a := acts[0];
      StepKeeps(s, a);
      if a.PopPulling? { SkimKeepsOthers(s.pulling, a.node); }
      QuietRunsFit(Apply(s, a), acts[1..]);
    }
  }

  /** Every run that never pushes to UnPull between the two reads keeps Pulling within its limit. */
  lemma QuietRunsStayWithin(acts: seq<Action>)
    requires Quiet(Initial(), acts)
    ensures StaysWithin(acts) && |Exec(Initial(), acts).pulling| <= PULLING_MAX
  {
    QuietRunsFit(Initial(), acts);
    RunStaysWithinIff(acts);
    var none: seq<Action> := [];
    assert acts[..|acts|] == acts && Calm(Exec(Initial(), acts), none);
  }

  // ---------------------------------------------------------------- the race

  lemma {:induction false} ExecAppend(s: State, a: seq<Action>, b: seq<Action>)
    ensures Exec(s, a + b) == Exec(Exec(s, a), b)
    decreases |a|
  {
    if a == [] {
      assert a + b == b;
    } else {
      assert (a + b)[1..] == a[1..] + b;
      ExecAppend(Apply(s, a[0]), a[1..], b);
    }
  }

  function Pushes(nodes: seq<Bytes>): seq<Action> {
    if nodes == [] then [] else [PushUnPull(nodes[0])] + Pushes(nodes[1..])
  }

  lemma {:induction false} PushesAppend(s: State, nodes: seq<Bytes>)
    ensures Exec(s, Pushes(nodes)) == s.(unPull := s.unPull + nodes)
    decreases |nodes|
  {
    if nodes == [] {
      assert s.unPull + nodes == s.unPull;
    } else {
      var first, rest := [PushUnPull(nodes[0])], Pushes(nodes[1..]);
      var t := s.(unPull := s.unPull + [nodes[0]]);
      ExecAppend(s, first, rest);
      assert Exec(s, first) == t by { assert first[1..] == []; }
      PushesAppend(t, nodes[1..]);
      assert t.unPull + nodes[1..] == s.unPull + nodes;
    }
  }

  /** The bound does not hold of every run. Nodes found between the two reads all end up in
      Pulling, however many they are: eleven are one too many. */
  lemma RaceOverfills(nodes: seq<Bytes>) returns (acts: seq<Action>)
    ensures |Exec(Initial(), acts).pulling| == |nodes|
  {
    var s := State([], [], [], TakesAll);
    PushesAppend(s, nodes);
    var rest := Drain(Process(s.(unPull := s.unPull + nodes)));
    rest := Steps(s.(unPull := s.unPull + nodes), 1, rest);
    ExecAppend(s, Pushes(nodes), rest);
    acts := Steps(Initial(), 4, Pushes(nodes) + rest);
  }

  function ProcessTimes(s: State, k: nat): State
    decreases k
  {
    if k == 0 then s else ProcessTimes(Process(s), k - 1)
  }

  /** k steps first. */
  lemma {:induction false} Steps(s: State, k: nat, rest: seq<Action>) returns (acts: seq<Action>)
    ensures Exec(s, acts) == Exec(ProcessTimes(s, k), rest)
    ensures forall a :: a in acts ==> a == Step || a in rest
    decreases k
  {
    acts := rest;
    if k > 0 {
      acts := Steps(Process(s), k - 1, rest);
      assert ([Step] + acts)[1..] == acts;
      acts := [Step] + acts;
    }
  }

  // ---------------------------------------------------------------- undisturbed

  /** Steps alone, from a loop: the first `left` nodes move over in order. */
  lemma {:induction false} LoopAlone(s: State) returns (acts: seq<Action>)
    requires s.pc.Loop? && s.pc.left <= |s.unPull|
    ensures forall a :: a in acts ==> a == Step
    ensures Exec(s, acts)
         == State(s.unPull[s.pc.left..], s.pulling + s.unPull[..s.pc.left], s.pulled, Idle)
    decreases s.pc.left
  {
    if s.pc.left == 0 {
      acts := [Step];
      assert s.pulling + s.unPull[..0] == s.pulling && s.unPull[0..] == s.unPull;
    } else {
      var t := Process(Process(s));
      var rest := LoopAlone(t);
      acts := [Step, Step] + rest;
      assert acts[1..][1..] == rest;
      assert t.pulling + t.unPull[..t.pc.left] == s.pulling + s.unPull[..s.pc.left];
    }
  }

  /** Undisturbed, the steps are the call: they move what QueueProcess moves. */
  lemma AloneIsTheCall(s: State) returns (acts: seq<Action>)
    requires s.pc == Idle
    ensures forall a :: a in acts ==> a == Step
    ensures var n := Turn(|s.unPull|, |s.pulling|, |s.pulled|);
      Exec(s, acts) == State(s.unPull[n..], s.pulling + s.unPull[..n], s.pulled, Idle)
  {
    if |s.pulled| + |s.pulling| >= PULL_MAX {
      assert ProcessTimes(s, 2) == s;
      acts := Steps(s, 2, []);
    } else if |s.pulling| >= PULLING_MAX {
      assert ProcessTimes(s, 3) == s;
      acts := Steps(s, 3, []);
    } else if PULLING_MAX - |s.pulling| > |s.unPull| {
      assert ProcessTimes(s, 5) == s.(pc := Loop(|s.unPull|));
      var rest := LoopAlone(s.(pc := Loop(|s.unPull|)));
      acts := Steps(s, 5, rest);
    } else {
      assert ProcessTimes(s, 4) == s.(pc := Loop(PULLING_MAX - |s.pulling|));
      var rest := LoopAlone(s.(pc := Loop(PULLING_MAX - |s.pulling|)));
      acts := Steps(s, 4, rest);
    }
  }
}
