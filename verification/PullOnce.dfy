/** Answers, timeouts and the pull queue of one file: when a node stands in the lists twice. */
module PullOnce {
  import opened Basics
  import opened PullQueue

  const TIME_OUT: nat := 30

  /** The queue, and since when each node that was asked is waited for. */
  datatype State = State(l: Lists, trigger: map<Bytes, nat>)

  datatype Action =
    | Find(nodes: seq<Bytes>)                      // a search names nodes to ask
    | Process(now: nat)                            // queueProcess, undisturbed
    | Answer(node: Bytes, infos: seq<Bytes>)       // a node answers with the nodes it knows of
    | Tick(node: Bytes, now: nat)                  // the ticker finds a node that is late

  predicate Late(trigger: map<Bytes, nat>, node: Bytes, now: nat) {
    node in trigger && trigger[node] + TIME_OUT <= now
  }

  predicate Enabled(s: State, a: Action) {
    a.Tick? ==> Late(s.trigger, a.node, a.now)
  }

  /** Waiting for the nodes just asked. */
  function Started(trigger: map<Bytes, nat>, asked: seq<Bytes>, now: nat): map<Bytes, nat> {
    map n | n in trigger.Keys + (set x | x in asked) :: if n in asked then now else trigger[n]
  }

  function Asked(l: Lists): seq<Bytes> {
    l.unPull[..Turn(|l.unPull|, |l.pulling|, |l.pulled|)]
  }

  function Apply(self: Bytes, s: State, a: Action): State {
    match a
    case Find(nodes) => s.(l := Enlisted(s.l, nodes))
    case Process(now) => State(Moved(s.l), Started(s.trigger, Asked(s.l), now))
    case Answer(node, infos) => State(Updated(s.l, self, node, infos), s.trigger - {node})
    // the node stays late
    case Tick(node, _) => s.(l := TimedOut(s.l, node))
  }

  // ---------------------------------------------------------------- how often a node is there

  function Copies(l: Lists, n: Bytes): nat {
    multiset(l.unPull)[n] + multiset(l.pulling)[n] + multiset(l.pulled)[n]
  }

  /** No node stands in the three lists twice. */
  ghost predicate Once(l: Lists) {
    forall n :: Copies(l, n) <= 1
  }

  lemma KnownIsCopied(l: Lists, n: Bytes)
    ensures Knows(l, n) <==> Copies(l, n) > 0
  {
  }

  lemma TwoCopies(s: seq<Bytes>, i: nat, x: Bytes)
    requires i + 1 < |s| && s[i] == s[i + 1] == x
    ensures multiset(s)[x] >= 2
  {
    assert s == s[..i] + [x, x] + s[i + 2..];
  }

  /** A single copy is removed, and nothing else. */
  lemma SkimOne(s: seq<Bytes>, x: Bytes, n: Bytes)
    requires multiset(s)[x] <= 1
    ensures multiset(Skim(s, x))[n] == if n == x then 0 else multiset(s)[n]
  {
    SkimKeepsOthers(s, x);
    SkimRemovesIff(s, x);
    if !NoNeighbours(s, x) {
      var i :| 0 <= i < |s| - 1 && s[i] == x && s[i + 1] == x;
      TwoCopies(s, i, x);
    }
  }

  lemma MovedCopies(l: Lists, n: Bytes)
    ensures Copies(Moved(l), n) == Copies(l, n)
  {
    var k := Turn(|l.unPull|, |l.pulling|, |l.pulled|);
    assert l.unPull == l.unPull[..k] + l.unPull[k..];
  }

  lemma {:induction false} EnlistedCopies(l: Lists, nodes: seq<Bytes>, n: Bytes)
    ensures Copies(Enlisted(l, nodes), n) <= if Copies(l, n) > 0 then Copies(l, n) else 1
    decreases |nodes|
  {
    if nodes != [] {
      KnownIsCopied(l, nodes[0]);
      EnlistedCopies(if Knows(l, nodes[0]) then l else l.(unPull := l.unPull + [nodes[0]]), nodes[1..], n);
    }
  }

  lemma {:induction false} JoinedCopies(l: Lists, self: Bytes, infos: seq<Bytes>, n: Bytes)
    ensures Copies(l, n) <= Copies(Joined(l, self, infos), n) <= if Copies(l, n) > 0 then Copies(l, n) else 1
    decreases |infos|
  {
    if infos != [] && (infos[0] == self || |l.unPull| < PULLER_MAX) {
      KnownIsCopied(l, infos[0]);
      var more := if infos[0] == self || Knows(l, infos[0]) then l else l.(unPull := l.unPull + [infos[0]]);
      JoinedCopies(more, self, infos[1..], n);
    }
  }

  // ---------------------------------------------------------------- one step

  /** The node that answers or is late is not in the lists, or is being asked. */
  predicate Awaited(self: Bytes, l: Lists, a: Action) {
    match a
    case Answer(node, infos) => node !in Joined(l, self, infos).unPull && node !in l.pulled
    case Tick(node, _) => node !in l.unPull && node !in l.pulled
    case _ => true
  }

  lemma AnswerOnceIff(self: Bytes, l: Lists, node: Bytes, infos: seq<Bytes>)
    requires Once(l)
    ensures Once(Updated(l, self, node, infos)) <==> Awaited(self, l, Answer(node, infos))
  {
    var j, u := Joined(l, self, infos), Updated(l, self, node, infos);
    JoinsWell(l, self, infos);
    assert Copies(l, node) <= 1;
    forall n ensures Copies(u, n) == if n == node then multiset(j.unPull)[n] + multiset(j.pulled)[n] + 1
                                     else Copies(j, n) {
      SkimOne(j.pulling, node, n);
    }
    assert Copies(u, node) <= 1 <==> Awaited(self, l, Answer(node, infos));
    forall n ensures Copies(j, n) <= 1 {
      assert Copies(l, n) <= 1;
      JoinedCopies(l, self, infos, n);
    }
  }

  lemma TickOnceIff(self: Bytes, l: Lists, node: Bytes, now: nat)
    requires Once(l)
    ensures Once(TimedOut(l, node)) <==> Awaited(self, l, Tick(node, now))
  {
    var t := TimedOut(l, node);
    assert Copies(l, node) <= 1;
    forall n ensures Copies(t, n) == if n == node then multiset(l.unPull)[n] + multiset(l.pulled)[n] + 1
                                     else Copies(l, n) {
      SkimOne(l.pulling, node, n);
    }
    assert Copies(t, node) <= 1 <==> Awaited(self, l, Tick(node, now));
    forall n | n != node ensures Copies(t, n) <= 1 { assert Copies(l, n) <= 1; }
  }

  /** A step keeps every node in the lists at most once if and only if the node that answers
      or is late was being asked, or unknown. */
  lemma StepOnceIff(self: Bytes, s: State, a: Action)
    requires Once(s.l) && Enabled(s, a)
    ensures Once(Apply(self, s, a).l) <==> Awaited(self, s.l, a)
  {
    match a
    case Find(nodes) =>
      forall n ensures Copies(Enlisted(s.l, nodes), n) <= 1 {
        assert Copies(s.l, n) <= 1;
        EnlistedCopies(s.l, nodes, n);
      }
    case Process(_) =>
      forall n ensures Copies(Moved(s.l), n) <= 1 {
        assert Copies(s.l, n) <= 1;
        MovedCopies(s.l, n);
      }
    case Answer(node, infos) => AnswerOnceIff(self, s.l, node, infos);
    case Tick(node, now) => TickOnceIff(self, s.l, node, now);
  }

  // ---------------------------------------------------------------- every run

  predicate ValidRun(self: Bytes, s: State, acts: seq<Action>)
    decreases |acts|
  {
    acts == [] || (Enabled(s, acts[0]) && ValidRun(self, Apply(self, s, acts[0]), acts[1..]))
  }

  function Exec(self: Bytes, s: State, acts: seq<Action>): State
    requires ValidRun(self, s, acts)
    decreases |acts|
  {
    if acts == [] then s else Exec(self, Apply(self, s, acts[0]), acts[1..])
  }

  ghost predicate OnceThroughout(self: Bytes, s: State, acts: seq<Action>)
    requires ValidRun(self, s, acts)
    decreases |acts|
  {
    Once(s.l) && (acts == [] || OnceThroughout(self, Apply(self, s, acts[0]), acts[1..]))
  }

  predicate AwaitedThroughout(self: Bytes, s: State, acts: seq<Action>)
    requires ValidRun(self, s, acts)
    decreases |acts|
  {
    acts == [] || (Awaited(self, s.l, acts[0]) && AwaitedThroughout(self, Apply(self, s, acts[0]), acts[1..]))
  }

  /** All along a run every node is in the lists at most once, if and only if nobody answers
      or is late who is still to be asked or has answered before. */
  lemma {:induction false} RunOnceIff(self: Bytes, s: State, acts: seq<Action>)
    requires ValidRun(self, s, acts) && Once(s.l)
    ensures OnceThroughout(self, s, acts) <==> AwaitedThroughout(self, s, acts)
    decreases |acts|
  {
    if acts != [] {
      StepOnceIff(self, s, acts[0]);
      if Once(Apply(self, s, acts[0]).l) { RunOnceIff(self, Apply(self, s, acts[0]), acts[1..]); }
    }
  }

  // ---------------------------------------------------------------- who is late

  /** A node that is asked is late from TIME_OUT after, and others are late when they were. */
  lemma AskedIsLate(self: Bytes, s: State, now: nat, n: Bytes, t: nat)
    ensures var s' := Apply(self, s, Process(now));
            Late(s'.trigger, n, t) <==> if n in Asked(s.l) then now + TIME_OUT <= t else Late(s.trigger, n, t)
  {
  }

  predicate NeverAsks(self: Bytes, s: State, acts: seq<Action>, n: Bytes)
    requires ValidRun(self, s, acts)
    decreases |acts|
  {
    acts == [] ||
    ((acts[0].Process? ==> n !in Asked(s.l)) && NeverAsks(self, Apply(self, s, acts[0]), acts[1..], n))
  }

  /** Who is not waited for is not late until it is asked. */
  lemma {:induction false} NotLateUntilAsked(self: Bytes, s: State, acts: seq<Action>, n: Bytes)
    requires ValidRun(self, s, acts) && n !in s.trigger && NeverAsks(self, s, acts, n)
    ensures n !in Exec(self, s, acts).trigger && forall t :: !Late(Exec(self, s, acts).trigger, n, t)
    decreases |acts|
  {
    if acts != [] { NotLateUntilAsked(self, Apply(self, s, acts[0]), acts[1..], n); }
  }

  /** Who has answered is not late until it is asked again. */
  lemma AnsweredIsNotLate(self: Bytes, s: State, n: Bytes, infos: seq<Bytes>, acts: seq<Action>)
    requires var s' := Apply(self, s, Answer(n, infos)); ValidRun(self, s', acts) && NeverAsks(self, s', acts, n)
    ensures forall t :: !Late(Exec(self, Apply(self, s, Answer(n, infos)), acts).trigger, n, t)
  {
    NotLateUntilAsked(self, Apply(self, s, Answer(n, infos)), acts, n);
  }

  // ---------------------------------------------------------------- ticks without an answer

  function Ticks(node: Bytes, now: nat, k: nat): seq<Action> {
    if k == 0 then [] else [Tick(node, now)] + Ticks(node, now, k - 1)
  }

  function Copied(node: Bytes, k: nat): seq<Bytes> {
    if k == 0 then [] else [node] + Copied(node, k - 1)
  }

  /** A node that is late stays late, and every tick queues it once more. */
  lemma {:induction false} EveryTickQueues(self: Bytes, s: State, node: Bytes, now: nat, k: nat)
    requires Late(s.trigger, node, now)
    ensures ValidRun(self, s, Ticks(node, now, k))
    ensures Exec(self, s, Ticks(node, now, k)).l.unPull == s.l.unPull + Copied(node, k)
    decreases k
  {
    if k > 0 {
      var rest := Ticks(node, now, k - 1);
      assert Ticks(node, now, k)[1..] == rest;
      var s' := Apply(self, s, Tick(node, now));
      EveryTickQueues(self, s', node, now, k - 1);
      assert s'.l.unPull + Copied(node, k - 1) == s.l.unPull + Copied(node, k);
    }
  }

  /** One node is searched for and asked. */
  lemma AskedOnce(self: Bytes, node: Bytes, now: nat)
    ensures var s0, acts := State(Lists([], [], []), map[]), [Find([node]), Process(now)];
            && ValidRun(self, s0, acts)
            && Exec(self, s0, acts) == State(Lists([], [node], []), map[node := now])
  {
    var s0 := State(Lists([], [], []), map[]);
    var found, acts := Lists([node], [], []), [Find([node]), Process(now)];
    assert [node][1..] == [] && [] + [node] == [node] && Enlisted(found, []) == found;
    assert Enlisted(s0.l, [node]) == found;
    assert Asked(found) == [node] && Moved(found) == Lists([], [node], []);
    assert acts[1..] == [Process(now)] && acts[1..][1..] == [];
    var s1 := Apply(self, s0, Find([node]));
    assert ValidRun(self, s1, acts[1..]) && Exec(self, s1, acts[1..]) == Apply(self, s1, Process(now));
  }

  /** It never answers: two ticks queue it twice. */
  lemma QueuedTwice(self: Bytes, node: Bytes, now: nat)
    ensures var s, later := State(Lists([], [node], []), map[node := now]), Ticks(node, now + TIME_OUT, 2);
            Once(s.l) && ValidRun(self, s, later) && Exec(self, s, later).l.unPull == [node, node]
  {
    var s := State(Lists([], [node], []), map[node := now]);
    EveryTickQueues(self, s, node, now + TIME_OUT, 2);
    assert Copied(node, 0) == [];
    assert Copied(node, 1) == [node];
    assert Copied(node, 2) == [node, node];
    assert s.l.unPull + Copied(node, 2) == [node, node];
  }

  // ---------------------------------------------------------------- the ticker

  /** The ticker for the queue of one file; `queue` is gone when the file is. */
  class Ticker {
    const queue: Queue
    var live: bool
    var trigger: map<Bytes, nat>

    constructor (queue: Queue)
      ensures this.queue == queue && live && trigger == map[]
    {
      this.queue := queue;
      live, trigger := true, map[];
    }

    /** The walk over the map, in any order, to the first entry that is late. */
    method FindLate(now: nat) returns (hit: Option<Bytes>)
      ensures if hit.Some? then Late(trigger, hit.value, now) else forall n :: !Late(trigger, n, now)
    {
      var left := trigger.Keys;
      while left != {}
        invariant left <= trigger.Keys
        invariant forall n :: n in trigger && n !in left ==> !Late(trigger, n, now)
      {
        var n :| n in left;
        left := left - {n};
        if trigger[n] + TIME_OUT <= now { return Some(n); }
      }
      return None;
    }

    /** One tick; `told` says that the search which waits for the file is told of the failure. */
    method OnTick(now: nat, waiting: bool) returns (hit: Option<Bytes>, told: bool)
      modifies this`trigger, queue
      ensures hit.None? <==> forall n :: !Late(old(trigger), n, now)
      ensures hit.Some? ==> Late(old(trigger), hit.value, now)
      ensures told <==> hit.Some? && live && waiting
      ensures State(queue.View(), trigger) ==
              if hit.None? then State(old(queue.View()), old(trigger))
              else if live then Apply([], State(old(queue.View()), old(trigger)), Tick(hit.value, now))
              else State(old(queue.View()), old(trigger) - {hit.value})
    {
      told := false;
      hit := FindLate(now);
      if hit.Some? {
        if live {
          told := waiting;
          queue.TimeOut(hit.value);
        } else {
          trigger := trigger - {hit.value};
        }
      }
    }
  }
}
