/** What every run of route discovery keeps. */
module RouteProof {
  import opened Basics
  import opened RouteTable
  import opened RoutePending
  import opened RouteNet

  // ---------------------------------------------------------------- the invariant

  /** `u` has sent a message directly to `v`. */
  ghost predicate Linked(sent: set<Msg>, u: Addr, v: Addr) {
    exists m :: m in sent && m.from == u && m.to == v
  }

  /** Each item has sent directly to the next. */
  ghost predicate Chain(sent: set<Msg>, p: Items) {
    forall i :: 0 <= i < |p| - 1 ==> Linked(sent, p[i], p[i + 1])
  }

  /** Each item equals the next or has sent directly to it. */
  ghost predicate WeakChain(sent: set<Msg>, p: Items) {
    forall i :: 0 <= i < |p| - 1 ==> p[i] == p[i + 1] || Linked(sent, p[i], p[i + 1])
  }

  /** A message carries one path, from where it began to its sender. Request paths
      have no repeats and a bounded length. */
  ghost predicate MsgOk(cfg: Config, sent: set<Msg>, m: Msg) {
    && |m.paths| == 1 && m.paths[0] != [] && Last(m.paths[0]) == m.from
    && match m
       case Req(_, _, _, ps) => NoDup(ps[0]) && |ps[0]| <= cfg.maxTTL + 1 && Chain(sent, ps[0])
       case Resp(_, _, _, ps) => WeakChain(sent, ps[0])
  }

  /** A path a node may store: it ends in a peer that has sent to the node. */
  ghost predicate Storable(cfg: Config, sent: set<Msg>, self: Addr, p: Items) {
    p != [] && self !in p && |p| <= cfg.maxTTL && Linked(sent, Last(p), self) && WeakChain(sent, p)
  }

  ghost predicate TableOk(cfg: Config, sent: set<Msg>, self: Addr, t: Tab) {
    TabInv(t, cfg.alpha) && forall k :: k in t.paths ==> Storable(cfg, sent, self, k)
  }

  ghost predicate NetInv(cfg: Config, net: Net) {
    && cfg.alpha >= 1
    && (forall m :: m in net.sent ==> MsgOk(cfg, net.sent, m))
    && (forall a :: a in net.nodes ==> TableOk(cfg, net.sent, a, net.nodes[a].table))
  }

  // ---------------------------------------------------------------- tables

  lemma {:induction false} SaveAllOk(cfg: Config, sent: set<Msg>, self: Addr, t: Tab, paths: seq<Items>, now: nat)
    requires cfg.alpha >= 1 && TableOk(cfg, sent, self, t)
    requires forall p :: p in paths ==> Storable(cfg, sent, self, p)
    ensures TableOk(cfg, sent, self, SaveAll(t, cfg.alpha, paths, now))
  {
    if paths != [] {
      SaveAllOk(cfg, sent, self, t, Init(paths), now);
      var u := SaveAll(t, cfg.alpha, Init(paths), now);
      SaveKeeps(u, cfg.alpha, Last(paths), now);
      if |Last(paths)| >= 2 { SaveEffect(u, cfg.alpha, Last(paths), now); }
    }
  }

  lemma {:induction false} PathsToOk(t: Tab, l: seq<Route>)
    requires forall k :: k in t.paths ==> t.paths[k].items == k
    ensures forall p :: p in PathsTo(t, l) ==> p in t.paths && exists r :: r in l && r.key == p
  {
    if l != [] { PathsToOk(t, l[1..]); }
  }

  lemma GcOk(t: Tab, alpha: nat, gone: set<Items>)
    requires TabInv(t, alpha)
    ensures TabInv(DeleteAll(t, gone), alpha)
  {
    forall a | a in t.routes ensures ListOk(t.paths - gone, alpha, a, WithoutAll(t.routes[a], gone)) {
      assert ListOk(t.paths, alpha, a, t.routes[a]);
      WithoutAllNoDup(t.routes[a], gone);
    }
  }

  lemma {:induction false} WithoutAllNoDup(l: seq<Route>, gone: set<Items>)
    requires NoDup(l)
    ensures NoDup(WithoutAll(l, gone)) && |WithoutAll(l, gone)| <= |l|
  {
    if l != [] {
      assert forall i :: 0 <= i < |l[1..]| ==> l[1..][i] == l[i + 1];
      WithoutAllNoDup(l[1..], gone);
    }
  }

  // ---------------------------------------------------------------- messages sent

  /** A path that `self` may extend by itself. */
  ghost predicate Extends(sent: set<Msg>, self: Addr, p: Items) {
    p != [] && WeakChain(sent, p) && (Last(p) == self || Linked(sent, Last(p), self))
  }

  lemma ExtendChain(sent: set<Msg>, self: Addr, p: Items)
    requires Extends(sent, self, p)
    ensures Extends(sent, self, p + [self])
  {
  }

  lemma {:induction false} AnswerOk(cfg: Config, sent: set<Msg>, self: Addr, res: seq<Item>, dest: Addr, p: Items,
      skip: seq<Addr>)
    requires Extends(sent, self, p)
    ensures forall m :: m in Answer(self, res, dest, [p], skip) ==> m.Resp? && m.from == self && MsgOk(cfg, sent, m)
  {
    if res != [] {
      if res[0].src != self && res[0].src !in skip {
        ExtendChain(sent, self, p);
        assert GeneratePaths(self, [p]) == [p + [self]];
        AnswerOk(cfg, sent, self, res[1..], dest, p + [self], skip + [res[0].src]);
      } else {
        AnswerOk(cfg, sent, self, res[1..], dest, p, skip);
      }
    }
  }

  lemma ForwardedOk(cfg: Config, sent: set<Msg>, self: Addr, p: Items, m: Msg)
    requires m.Req? && m.from == self && m.paths == [p + [self]]
    requires NoDup(p) && self !in p && |p| <= cfg.maxTTL && Chain(sent, p) && (p != [] ==> Linked(sent, Last(p), self))
    ensures MsgOk(cfg, sent, m)
  {
  }

  // ---------------------------------------------------------------- the handlers

  ghost predicate EffectOk(cfg: Config, sent: set<Msg>, self: Addr, e: Effect) {
    TableOk(cfg, sent, self, e.node.table) && forall m :: m in e.out ==> m.from == self && MsgOk(cfg, sent, m)
  }

  lemma FindOk(cfg: Config, sent: set<Msg>, self: Addr, node: Node, dest: Addr, forward: seq<Addr>, ch: nat, now: nat)
    requires TableOk(cfg, sent, self, node.table)
    ensures EffectOk(cfg, sent, self, Find(self, node, dest, forward, ch, now))
  {
  }

  lemma OnReqOk(cfg: Config, sent: set<Msg>, node: Node, m: Msg, ch: Choice)
    requires cfg.alpha >= 1 && m.Req? && m in sent && MsgOk(cfg, sent, m) && TableOk(cfg, sent, m.to, node.table)
    ensures EffectOk(cfg, sent, m.to, OnReq(cfg, m.to, node, m, ch))
  {
    var self := m.to;
    if !Discarded(cfg, self, m.paths) {
      var p := m.paths[0];
      assert m.paths == [p] && p in m.paths;
      assert Linked(sent, m.from, self);
      assert Storable(cfg, sent, self, p);
      SaveAllOk(cfg, sent, self, node.table, m.paths, ch.now);
      var t := SaveAll(node.table, cfg.alpha, m.paths, ch.now);
      var l := ListOf(t.routes, m.dest);
      PathsToOk(t, l);
      var usable := Usable(cfg, p, PathsTo(t, l));
      assert GeneratePaths(self, m.paths) == [p + [self]];
      var e := OnReq(cfg, self, node, m, ch);
      forall x | x in e.out ensures x.from == self && MsgOk(cfg, sent, x) {
        if x.Req? {
          ForwardedOk(cfg, sent, self, p, x);
        } else if self != m.dest {
          ExtendChain(sent, self, Shortest(usable));
        }
      }
    }
  }

  lemma OnRespOk(cfg: Config, sent: set<Msg>, node: Node, m: Msg, now: nat)
    requires cfg.alpha >= 1 && m.Resp? && m in sent && MsgOk(cfg, sent, m) && TableOk(cfg, sent, m.to, node.table)
    ensures EffectOk(cfg, sent, m.to, OnResp(cfg, m.to, node, m, now))
  {
    var self := m.to;
    var p := m.paths[0];
    assert m.paths == [p];
    assert Linked(sent, m.from, self);
    var paths := Fitting(cfg, m.paths);
    if !(paths == [] || exists p :: p in paths && self in p) {
      assert paths == [p] && p in paths;
      SaveAllOk(cfg, sent, self, node.table, paths, now);
      AnswerOk(cfg, sent, self, CallersOf(node.calls, m.dest), m.dest, p, []);
    }
  }

  // ---------------------------------------------------------------- every run

  lemma DoKeeps(cfg: Config, net: Net, self: Addr, e: Effect)
    requires NetInv(cfg, net) && self in net.nodes && EffectOk(cfg, net.sent, self, e)
    ensures NetInv(cfg, Do(net, self, e))
  {
  }

  lemma StepKeeps(cfg: Config, net: Net, st: Step)
    requires NetInv(cfg, net) && Enabled(net, st)
    ensures NetInv(cfg, Apply(cfg, net, st))
  {
    match st {
      case FindStep(self, dest, forward, ch, now) =>
        FindOk(cfg, net.sent, self, net.nodes[self], dest, forward, ch, now);
        DoKeeps(cfg, net, self, Find(self, net.nodes[self], dest, forward, ch, now));
      case ReqStep(m, ch) =>
        OnReqOk(cfg, net.sent, net.nodes[m.to], m, ch);
        DoKeeps(cfg, net, m.to, OnReq(cfg, m.to, net.nodes[m.to], m, ch));
      case RespStep(m, now) =>
        OnRespOk(cfg, net.sent, net.nodes[m.to], m, now);
        DoKeeps(cfg, net, m.to, OnResp(cfg, m.to, net.nodes[m.to], m, now));
      case GcStep(self, now, expire) =>
        var n := net.nodes[self];
        GcOk(n.table, cfg.alpha, Expired(n.table, now, expire));
        DoKeeps(cfg, net, self, Effect(n.(table := DeleteAll(n.table, Expired(n.table, now, expire))), [], []));
      case DelStep(self, items) =>
        var n := net.nodes[self];
        DeleteKeeps(n.table, cfg.alpha, items);
        DoKeeps(cfg, net, self, Effect(n.(table := Delete(n.table, items)), [], []));
      case GiveUpStep(self, dest, forward) =>
        var n := net.nodes[self];
        DoKeeps(cfg, net, self, Effect(n.(calls := GiveUp(n.calls, dest, forward)), [], []));
      case GcCallsStep(self, now, expire) =>
        var n := net.nodes[self];
        var calls := Calls(GcRes(n.calls.resp, now, expire), GcReq(n.calls.reqs, now, expire));
        DoKeeps(cfg, net, self, Effect(n.(calls := calls), [], []));
    }
  }

  /** The invariant holds in every reachable network state. */
  lemma {:induction false} NetworkInvariant(cfg: Config, net: Net, steps: seq<Step>)
    requires cfg.alpha >= 1 && Initial(net) && ValidRun(cfg, net, steps)
    ensures NetInv(cfg, Exec(cfg, net, steps))
    decreases |steps|
  {
    if steps != [] {
      NetworkInvariant(cfg, net, Init(steps));
      StepKeeps(cfg, Exec(cfg, net, Init(steps)), Last(steps));
    }
  }
}
