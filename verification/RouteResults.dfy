/** What the invariant of route discovery is for. */
module RouteResults {
  import opened Basics
  import opened RouteTable
  import opened RoutePending
  import opened RouteNet
  import opened RouteProof

  // ---------------------------------------------------------------- stored routes lead to their target

  function Reverse(p: Items): (r: Items)
    ensures |r| == |p| && forall i :: 0 <= i < |p| ==> r[i] == p[|p| - 1 - i]
  {
    if p == [] then [] else Reverse(p[1..]) + [p[0]]
  }

  /** A walk against the direction of the messages: each hop goes to a node that has
      sent directly to the one before, or stays. */
  ghost predicate Walk(sent: set<Msg>, w: Items) {
    forall i :: 0 <= i < |w| - 1 ==> w[i] == w[i + 1] || Linked(sent, w[i + 1], w[i])
  }

  lemma ReverseIsWalk(sent: set<Msg>, p: Items)
    requires WeakChain(sent, p)
    ensures Walk(sent, Reverse(p))
  {
  }

  /** From item `i` on, the stored path read backwards walks from the neighbour to the target. */
  ghost predicate LeadsTo(sent: set<Msg>, target: Addr, r: Route, i: nat) {
    && i < |r.key| - 1
    && var w := Reverse(r.key[i..]);
       w[0] == r.neighbor && Last(w) == target && Walk(sent, w)
  }

  lemma SuffixChain(sent: set<Msg>, p: Items, i: nat)
    requires WeakChain(sent, p) && i <= |p|
    ensures WeakChain(sent, p[i..])
  {
  }

  lemma TableRouteLeads(cfg: Config, sent: set<Msg>, self: Addr, t: Tab, target: Addr, r: Route)
    requires TableOk(cfg, sent, self, t) && r in ListOf(t.routes, target)
    ensures |r.key| <= cfg.maxTTL && self !in r.key && Linked(sent, r.neighbor, self)
    ensures exists i :: LeadsTo(sent, target, r, i)
  {
    assert ListOk(t.paths, cfg.alpha, target, t.routes[target]);
    assert Storable(cfg, sent, self, r.key);
    var i: nat :| i < |Init(r.key)| && Init(r.key)[i] == target;
    SuffixChain(sent, r.key, i);
    ReverseIsWalk(sent, r.key[i..]);
    assert LeadsTo(sent, target, r, i);
  }

  /** Every route in every reachable table names a neighbour that has sent to the node,
      from which the stored path leads to the target. */
  lemma RoutesReachTheirTarget(cfg: Config, net: Net, steps: seq<Step>, self: Addr, target: Addr, r: Route)
    requires cfg.alpha >= 1 && Initial(net) && ValidRun(cfg, net, steps)
    requires var n := Exec(cfg, net, steps).nodes; self in n && r in ListOf(n[self].table.routes, target)
    ensures var sent := Exec(cfg, net, steps).sent;
            && |r.key| <= cfg.maxTTL && self !in r.key && Linked(sent, r.neighbor, self)
            && exists i :: LeadsTo(sent, target, r, i)
  {
    NetworkInvariant(cfg, net, steps);
    var s := Exec(cfg, net, steps);
    TableRouteLeads(cfg, s.sent, self, s.nodes[self].table, target, r);
  }

  // ---------------------------------------------------------------- answers from a table

  ghost predicate Disjoint(a: Items, b: Items) {
    forall x :: x in a ==> x !in b
  }

  /** Request path, node and reversed stored path: no node in two parts, and it all fits. */
  ghost predicate Continues(cfg: Config, p: Items, self: Addr, stored: Items) {
    && Disjoint(p, stored) && self !in p && self !in stored
    && |p + [self] + Reverse(stored)| <= cfg.maxTTL + 1
  }

  /** A middle node answers from its table only with a stored path through the target
      that continues the request path through itself. */
  lemma TableAnswersContinueTheRequest(cfg: Config, sent: set<Msg>, node: Node, m: Msg, ch: Choice, answer: Msg)
    requires cfg.alpha >= 1 && m.Req? && m in sent && MsgOk(cfg, sent, m) && TableOk(cfg, sent, m.to, node.table)
    requires m.to != m.dest && answer.Resp? && answer in OnReq(cfg, m.to, node, m, ch).out
    ensures answer.to == m.from && |answer.paths| == 1 && answer.paths[0] != [] && Last(answer.paths[0]) == m.to
    ensures m.dest in Init(answer.paths[0]) && Continues(cfg, m.paths[0], m.to, Init(answer.paths[0]))
  {
    var self := m.to;
    var p := m.paths[0];
    assert m.paths == [p] && p in m.paths;
    assert Linked(sent, m.from, self);
    assert Storable(cfg, sent, self, p);
    SaveAllOk(cfg, sent, self, node.table, m.paths, ch.now);
    var t := SaveAll(node.table, cfg.alpha, m.paths, ch.now);
    var l := ListOf(t.routes, m.dest);
    PathsToOk(t, l);
    var stored := Shortest(Usable(cfg, p, PathsTo(t, l)));
    assert Init(stored + [self]) == stored;
    var r :| r in l && r.key == stored;
    assert ListOk(t.paths, cfg.alpha, m.dest, l);
    assert forall x :: x in Init(stored) ==> x in stored;
  }

  // ---------------------------------------------------------------- responses with repeats

  function Copies(a: Addr, n: nat): (r: Items)
    ensures |r| == n
  {
    if n == 0 then [] else Copies(a, n - 1) + [a]
  }

  /** The sources still to be answered, each once, in order. */
  function Sources(self: Addr, res: seq<Item>, skip: seq<Addr>): seq<Addr> {
    if res == [] then []
    else if res[0].src != self && res[0].src !in skip then [res[0].src] + Sources(self, res[1..], skip + [res[0].src])
    else Sources(self, res[1..], skip)
  }

  /** The k-th distinct source receives the path with the node appended k times. */
  lemma {:induction false} AnswersRepeatTheNode(self: Addr, res: seq<Item>, dest: Addr, p: Items, skip: seq<Addr>)
    ensures var out, srcs := Answer(self, res, dest, [p], skip), Sources(self, res, skip);
            && |out| == |srcs|
            && forall k :: 0 <= k < |out| ==> out[k] == Resp(self, srcs[k], dest, [p + Copies(self, k + 1)])
  {
    if res != [] {
      if res[0].src != self && res[0].src !in skip {
        var q := p + [self];
        assert GeneratePaths(self, [p]) == [q];
        AnswersRepeatTheNode(self, res[1..], dest, q, skip + [res[0].src]);
        assert Copies(self, 1) == [self];
        forall k: nat ensures q + Copies(self, k) == p + Copies(self, k + 1) { CopiesShift(self, p, k); }
      } else {
        AnswersRepeatTheNode(self, res[1..], dest, p, skip);
      }
    }
  }

  lemma {:induction false} CopiesShift(a: Addr, p: Items, k: nat)
    ensures p + [a] + Copies(a, k) == p + Copies(a, k + 1)
  {
    if k > 0 {
      CopiesShift(a, p, k - 1);
      assert p + [a] + Copies(a, k) == p + [a] + Copies(a, k - 1) + [a];
    } else {
      assert Copies(a, 1) == [a];
    }
  }

  // ---------------------------------------------------------------- request cascades end

  ghost predicate OnePath(m: Msg) {
    m.Req? && |m.paths| == 1
  }

  function Requests(out: seq<Msg>): (r: seq<Msg>)
    ensures |r| <= |out| && forall m :: m in r <==> m in out && m.Req?
  {
    if out == [] then [] else (if out[0].Req? then [out[0]] else []) + Requests(out[1..])
  }

  lemma {:induction false} ForwardFanOut(self: Addr, node: Node, next: seq<Addr>, call: Call, paths: seq<Items>)
    ensures |Forward(self, node, next, call, paths).out| <= |next|
  {
    if next != [] { ForwardFanOut(self, node, Init(next), call, paths); }
  }

  /** Handling a request sends on at most the chosen fan-out, and only while the path
      is within the limit, each time one hop longer. */
  lemma EachForwardIsLonger(cfg: Config, self: Addr, node: Node, m: Msg, ch: Choice, fanout: nat)
    requires cfg.alpha >= 1 && OnePath(m) && |ch.forward| <= fanout && fanout >= 1
    ensures var out := Requests(OnReq(cfg, self, node, m, ch).out);
            && |out| <= fanout
            && (|m.paths[0]| > cfg.maxTTL ==> out == [])
            && forall x :: x in out ==> OnePath(x) && x.paths[0] == m.paths[0] + [self]
  {
    var p := m.paths[0];
    assert p in m.paths;
    if !Discarded(cfg, self, m.paths) {
      var n := node.(table := SaveAll(node.table, cfg.alpha, m.paths, ch.now));
      var paths := GeneratePaths(self, m.paths);
      var call := Call(m.from, m.dest, None, ch.now);
      ForwardFanOut(self, n, [m.dest], call, paths);
      ForwardFanOut(self, n, ch.forward, call, paths);
    }
  }

  /** How many requests one with a path of this length can lead to, itself included. */
  function Weight(cfg: Config, fanout: nat, len: nat): (w: nat)
    ensures w >= 1
    decreases cfg.maxTTL + 1 - len
  {
    if len > cfg.maxTTL then 1 else 1 + fanout * Weight(cfg, fanout, len + 1)
  }

  function Total(cfg: Config, fanout: nat, q: seq<Msg>): nat {
    if q == [] then 0
    else
      var head := if |q[0].paths| == 1 then Weight(cfg, fanout, |q[0].paths[0]|) else 0;
      head + Total(cfg, fanout, q[1..])
  }

  lemma {:induction false} TotalConcat(cfg: Config, fanout: nat, a: seq<Msg>, b: seq<Msg>)
    ensures Total(cfg, fanout, a + b) == Total(cfg, fanout, a) + Total(cfg, fanout, b)
  {
    if a == [] {
      assert a + b == b;
    } else {
      assert (a + b)[1..] == a[1..] + b;
      TotalConcat(cfg, fanout, a[1..], b);
    }
  }

  lemma {:induction false} TotalBound(cfg: Config, fanout: nat, q: seq<Msg>, len: nat)
    requires forall m :: m in q ==> OnePath(m) && |m.paths[0]| == len
    ensures Total(cfg, fanout, q) == |q| * Weight(cfg, fanout, len)
  {
    if q != [] {
      TotalBound(cfg, fanout, q[1..], len);
      var w := Weight(cfg, fanout, len);
      assert |q| * w == w + |q[1..]| * w;
    }
  }

  /** One request in flight is handled by its receiver, in any state, with any choices. */
  ghost predicate Handled(cfg: Config, fanout: nat, q: seq<Msg>, q': seq<Msg>)
    requires cfg.alpha >= 1
  {
    exists i: nat, node: Node, ch: Choice :: HandledAt(cfg, fanout, q, q', i, node, ch)
  }

  ghost predicate HandledAt(cfg: Config, fanout: nat, q: seq<Msg>, q': seq<Msg>, i: nat, node: Node, ch: Choice)
    requires cfg.alpha >= 1
  {
    && i < |q| && q[i].Req? && |ch.forward| <= fanout
    && q' == q[..i] + q[i + 1..] + Requests(OnReq(cfg, q[i].to, node, q[i], ch).out)
  }

  lemma ChildrenAreLighter(cfg: Config, fanout: nat, m: Msg, node: Node, ch: Choice)
    requires cfg.alpha >= 1 && fanout >= 1 && OnePath(m) && |ch.forward| <= fanout
    ensures var out := Requests(OnReq(cfg, m.to, node, m, ch).out);
            && (forall x :: x in out ==> OnePath(x))
            && Total(cfg, fanout, out) < Weight(cfg, fanout, |m.paths[0]|)
  {
    var out := Requests(OnReq(cfg, m.to, node, m, ch).out);
    var len := |m.paths[0]|;
    EachForwardIsLonger(cfg, m.to, node, m, ch, fanout);
    TotalBound(cfg, fanout, out, len + 1);
    if len <= cfg.maxTTL { MulMono(|out|, fanout, Weight(cfg, fanout, len + 1)); }
  }

  lemma ReplaceLosesWeight(cfg: Config, fanout: nat, a: seq<Msg>, m: Msg, b: seq<Msg>, out: seq<Msg>)
    requires OnePath(m) && Total(cfg, fanout, out) < Weight(cfg, fanout, |m.paths[0]|)
    ensures Total(cfg, fanout, a + b + out) < Total(cfg, fanout, a + [m] + b)
  {
    TotalConcat(cfg, fanout, a + [m], b);
    TotalConcat(cfg, fanout, a, [m]);
    TotalConcat(cfg, fanout, a, b);
    TotalConcat(cfg, fanout, a + b, out);
  }

  lemma ReplacedInQueue(cfg: Config, fanout: nat, q: seq<Msg>, i: nat, out: seq<Msg>)
    requires i < |q| && (forall m :: m in q || m in out ==> OnePath(m)) && OnePath(q[i])
    requires Total(cfg, fanout, out) < Weight(cfg, fanout, |q[i].paths[0]|)
    ensures var q' := q[..i] + q[i + 1..] + out;
            Total(cfg, fanout, q') < Total(cfg, fanout, q) && forall m :: m in q' ==> OnePath(m)
  {
    ReplaceLosesWeight(cfg, fanout, q[..i], q[i], q[i + 1..], out);
    assert q == q[..i] + [q[i]] + q[i + 1..];
  }

  lemma HandlingLosesWeight(cfg: Config, fanout: nat, q: seq<Msg>, q': seq<Msg>)
    requires cfg.alpha >= 1 && fanout >= 1 && Handled(cfg, fanout, q, q')
    requires forall m :: m in q ==> OnePath(m)
    ensures Total(cfg, fanout, q') < Total(cfg, fanout, q)
    ensures forall m :: m in q' ==> OnePath(m)
  {
    var i: nat, node: Node, ch: Choice :| HandledAt(cfg, fanout, q, q', i, node, ch);
    ChildrenAreLighter(cfg, fanout, q[i], node, ch);
    ReplacedInQueue(cfg, fanout, q, i, Requests(OnReq(cfg, q[i].to, node, q[i], ch).out));
  }

  /** Every cascade of requests ends: no run of handling steps is longer than the
      total weight it started with. */
  lemma {:induction false} CascadesEnd(cfg: Config, fanout: nat, run: seq<seq<Msg>>)
    requires cfg.alpha >= 1 && fanout >= 1 && run != []
    requires forall m :: m in run[0] ==> OnePath(m)
    requires forall k :: 0 <= k < |run| - 1 ==> Handled(cfg, fanout, run[k], run[k + 1])
    ensures |run| - 1 + Total(cfg, fanout, Last(run)) <= Total(cfg, fanout, run[0])
    decreases |run|
  {
    if |run| > 1 {
      assert Handled(cfg, fanout, run[0], run[1]);
      HandlingLosesWeight(cfg, fanout, run[0], run[1]);
      forall k | 0 <= k < |run[1..]| - 1 ensures Handled(cfg, fanout, run[1..][k], run[1..][k + 1]) {
        assert Handled(cfg, fanout, run[k + 1], run[k + 2]);
      }
      CascadesEnd(cfg, fanout, run[1..]);
    }
  }
}
