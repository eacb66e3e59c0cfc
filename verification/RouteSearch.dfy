/** A search that runs along a chain of nodes finds its route. */
module RouteSearch {
  import opened Basics
  import opened RouteTable
  import opened RoutePending
  import opened RouteNet
  import opened RouteProof
  import opened RouteResults

  // ---------------------------------------------------------------- what handlers send

  /** The call a next hop is registered with. */
  function ItemOf(call: Call): Item {
    Item(call.src, call.now, call.ch)
  }

  function Times(it: Item, n: nat): (r: seq<Item>)
    ensures |r| == n && forall i :: 0 <= i < n ==> r[i] == it
  {
    seq(n, _ => it)
  }

  /** Every next hop registers the caller. */
  lemma {:induction false} ForwardRegisters(self: Addr, node: Node, next: seq<Addr>, call: Call, paths: seq<Items>)
    ensures CallersOf(Forward(self, node, next, call, paths).node.calls, call.dest)
         == CallersOf(node.calls, call.dest) + Times(ItemOf(call), |next|)
  {
    if next == [] {
      assert Times(ItemOf(call), 0) == [];
    } else {
      ForwardRegisters(self, node, Init(next), call, paths);
      assert Times(ItemOf(call), |next|) == Times(ItemOf(call), |Init(next)|) + [ItemOf(call)];
    }
  }

  /** Afterwards a request is under way over every next hop, and where one was before. */
  lemma {:induction false} ForwardIsUnderWay(self: Addr, node: Node, next: seq<Addr>, call: Call, paths: seq<Items>,
      d: Addr, v: Addr)
    ensures (d, v) in Forward(self, node, next, call, paths).node.calls.reqs
       <==> (d, v) in node.calls.reqs || (d == call.dest && v in next)
  {
    if next != [] {
      ForwardIsUnderWay(self, node, Init(next), call, paths, d, v);
      assert next == Init(next) + [Last(next)];
    }
  }

  /** Every next hop without a request under way gets exactly one, and nobody else any. */
  lemma {:induction false} ForwardSends(self: Addr, node: Node, next: seq<Addr>, call: Call, paths: seq<Items>, v: Addr)
    ensures multiset(Forward(self, node, next, call, paths).out)[Req(self, v, call.dest, paths)]
         == if v in next && (call.dest, v) !in node.calls.reqs then 1 else 0
  {
    if next != [] {
      ForwardSends(self, node, Init(next), call, paths, v);
      ForwardIsUnderWay(self, node, Init(next), call, paths, call.dest, Last(next));
      assert next == Init(next) + [Last(next)];
    }
  }

  lemma ForwardOne(self: Addr, node: Node, v: Addr, call: Call, paths: seq<Items>)
    ensures Forward(self, node, [v], call, paths)
         == Effect(node.(calls := AddCall(node.calls, call.dest, call.src, v, call.ch, call.now)),
                   if (call.dest, v) in node.calls.reqs then [] else [Req(self, v, call.dest, paths)], [])
  {
    assert Init([v]) == [] && Last([v]) == v;
    assert Forward(self, node, [], call, paths) == Effect(node, [], []);
  }

  /** A search over a hop is sent if and only if no request of it is under way. */
  lemma SearchIsSentIff(self: Addr, node: Node, dest: Addr, v: Addr, ch: nat, now: nat)
    requires self != dest
    ensures var out := Find(self, node, dest, [v], ch, now).out;
            out == if (dest, v) in node.calls.reqs then [] else [Req(self, v, dest, [[self]])]
  {
    ForwardOne(self, node, v, Call(self, dest, Some(ch), now), [[self]]);
    assert GeneratePaths(self, []) == [[self]];
  }

  /** After a response nobody waits for the target any more, and a search over the same hop is
      sent again if and only if anybody had waited, or no request was under way. */
  lemma AnsweredIsSentAgainIff(cfg: Config, self: Addr, node: Node, m: Msg, now: nat, ch: nat, later: nat)
    requires cfg.alpha >= 1 && m.Resp? && self != m.dest
    requires Fitting(cfg, m.paths) != [] && forall p :: p in Fitting(cfg, m.paths) ==> self !in p
    ensures var n := OnResp(cfg, self, node, m, now).node;
            && CallersOf(n.calls, m.dest) == []
            && (Find(self, n, m.dest, [m.from], ch, later).out == [Req(self, m.from, m.dest, [[self]])]
                <==> m.dest in node.calls.resp || (m.dest, m.from) !in node.calls.reqs)
  {
    SearchIsSentIff(self, OnResp(cfg, self, node, m, now).node, m.dest, m.from, ch, later);
  }

  /** After a timeout too, over each of its hops. */
  lemma GivenUpIsSentAgain(cfg: Config, net: Net, self: Addr, dest: Addr, forward: seq<Addr>, v: Addr, ch: nat,
      later: nat)
    requires cfg.alpha >= 1 && self in net.nodes && self != dest && v in forward
    ensures var n := Apply(cfg, net, GiveUpStep(self, dest, forward)).nodes[self];
            && CallersOf(n.calls, dest) == []
            && Find(self, n, dest, [v], ch, later).out == [Req(self, v, dest, [[self]])]
  {
    GivenUp(net.nodes[self].calls, dest, forward, v);
    SearchIsSentIff(self, Apply(cfg, net, GiveUpStep(self, dest, forward)).nodes[self], dest, v, ch, later);
  }

  lemma {:induction false} GivenUp(calls: Calls, dest: Addr, forward: seq<Addr>, v: Addr)
    ensures var c := GiveUp(calls, dest, forward); v in forward ==> (dest, v) !in c.reqs && dest !in c.resp
  {
    if forward != [] {
      GivenUp(calls, dest, Init(forward), v);
      assert forward == Init(forward) + [Last(forward)];
    }
  }

  /** The target answers every request that is not discarded, with itself as the path. */
  lemma TargetAnswers(cfg: Config, node: Node, m: Msg, ch: Choice)
    requires cfg.alpha >= 1 && m.Req? && m.to == m.dest && !Discarded(cfg, m.to, m.paths)
    ensures OnReq(cfg, m.to, node, m, ch).out == [Resp(m.to, m.from, m.dest, [[m.to]])]
  {
    assert GeneratePaths(m.to, []) == [[m.to]];
  }

  /** What a node between knows of the target once it has taken the request's path in. */
  function Known(cfg: Config, node: Node, m: Msg, ch: Choice): seq<Items>
    requires cfg.alpha >= 1
  {
    var t := SaveAll(node.table, cfg.alpha, m.paths, ch.now);
    PathsTo(t, ListOf(t.routes, m.dest))
  }

  /** A stored path that fits behind the request and meets it nowhere. */
  predicate Fits(cfg: Config, m: Msg, p: Items) {
    |p| + |ReqPath(m.paths)| <= cfg.maxTTL && forall x :: x in p ==> x !in ReqPath(m.paths)
  }

  /** The answer of a node between: one response to the asker, with a shortest of the known
      paths that fit, and itself. */
  ghost predicate AnswersWith(cfg: Config, node: Node, m: Msg, ch: Choice, out: seq<Msg>)
    requires cfg.alpha >= 1
  {
    exists p :: p in Known(cfg, node, m, ch) && Fits(cfg, m, p) && out == [Resp(m.to, m.from, m.dest, [p + [m.to]])]
      && forall q :: q in Known(cfg, node, m, ch) && Fits(cfg, m, q) ==> |p| <= |q|
  }

  /** A node between answers if and only if the target is not its neighbour and it knows a
      path that fits; otherwise it sends requests on, to the target or the chosen nodes. */
  lemma MiddleAnswersIff(cfg: Config, node: Node, m: Msg, ch: Choice)
    requires cfg.alpha >= 1 && m.Req? && m.to != m.dest && !Discarded(cfg, m.to, m.paths)
    ensures var out := OnReq(cfg, m.to, node, m, ch).out;
            if !ch.neighbor && ch.underlay && exists p :: p in Known(cfg, node, m, ch) && Fits(cfg, m, p)
            then AnswersWith(cfg, node, m, ch, out)
            else forall x :: x in out ==> x.Req? && x.to in if ch.neighbor then [m.dest] else ch.forward
  {
    var u := Usable(cfg, ReqPath(m.paths), Known(cfg, node, m, ch));
    forall p ensures p in u <==> p in Known(cfg, node, m, ch) && Fits(cfg, m, p) {}
    if u != [] { assert Shortest(u) in u; }
  }

  /** Saving paths one after another stores them all and forgets none. */
  lemma {:induction false} AllAreStored(t: Tab, alpha: nat, paths: seq<Items>, now: nat)
    requires alpha >= 1
    ensures SaveAll(t, alpha, paths, now).paths.Keys == t.paths.Keys + set p | p in paths && |p| >= 2
  {
    if paths != [] {
      AllAreStored(t, alpha, Init(paths), now);
      assert paths == Init(paths) + [Last(paths)];
    }
  }

  /** A request that is not discarded leaves its last path in the table, under every item but
      the sender. */
  lemma RequestsTeach(cfg: Config, node: Node, m: Msg, ch: Choice)
    requires cfg.alpha >= 1 && m.Req? && m.paths != [] && |Last(m.paths)| >= 2 && !Discarded(cfg, m.to, m.paths)
    ensures var t, p := OnReq(cfg, m.to, node, m, ch).node.table, Last(m.paths);
            p in t.paths && forall a :: a in Init(p) ==> Route(Last(p), p) in ListOf(t.routes, a)
  {
    SaveEffect(SaveAll(node.table, cfg.alpha, Init(m.paths), ch.now), cfg.alpha, Last(m.paths), ch.now);
  }

  /** Collection leaves a node no path that is too old and no route to one, and every other. */
  lemma CollectionIsExact(cfg: Config, net: Net, self: Addr, now: nat, expire: nat)
    requires cfg.alpha >= 1 && self in net.nodes
    ensures var t, t' := net.nodes[self].table, Apply(cfg, net, GcStep(self, now, expire)).nodes[self].table;
            && (forall k :: k in t'.paths <==> k in t.paths && now - t.paths[k].used <= expire)
            && (forall a, r :: r in ListOf(t'.routes, a) <==>
                r in ListOf(t.routes, a) && !(r.key in t.paths && now - t.paths[r.key].used > expire))
  {
    var t := net.nodes[self].table;
    var gone := Expired(t, now, expire);
    forall a ensures ListOf(DeleteAll(t, gone).routes, a) == WithoutAll(ListOf(t.routes, a), gone) {}
  }

  /** Deleting leaves neither the path nor a route to it, and every other route. */
  lemma DeletionIsExact(cfg: Config, net: Net, self: Addr, items: Items)
    requires cfg.alpha >= 1 && self in net.nodes && TabInv(net.nodes[self].table, cfg.alpha)
    ensures var t, t' := net.nodes[self].table, Apply(cfg, net, DelStep(self, items)).nodes[self].table;
            && t'.paths.Keys == t.paths.Keys - {items}
            && forall a, r :: r in ListOf(t'.routes, a) <==> r in ListOf(t.routes, a) && r.key != items
  {
    var t := net.nodes[self].table;
    DeleteIsEverywhere(t, cfg.alpha, items);
    assert Apply(cfg, net, DelStep(self, items)).nodes[self].table == DeleteEverywhere(t, items);
    forall a ensures ListOf(DeleteEverywhere(t, items).routes, a) == Without(ListOf(t.routes, a), items) {}
  }

  lemma CollectedCallers(m: map<Addr, seq<Item>>, dest: Addr, now: nat, expire: nat)
    ensures var m' := GcRes(m, now, expire);
            (if dest in m' then m'[dest] else []) == GcList(if dest in m then m[dest] else [], now, expire)
  {
  }

  /** Collecting calls leaves the callers the collection keeps and the requests that are young. */
  lemma CallsAreCollected(cfg: Config, net: Net, self: Addr, now: nat, expire: nat, dest: Addr, v: Addr)
    requires cfg.alpha >= 1 && self in net.nodes
    ensures var c, c' := net.nodes[self].calls, Apply(cfg, net, GcCallsStep(self, now, expire)).nodes[self].calls;
            && CallersOf(c', dest) == GcList(CallersOf(c, dest), now, expire)
            && ((dest, v) in c'.reqs <==> (dest, v) in c.reqs && now - c.reqs[(dest, v)] < expire)
  {
    var c := net.nodes[self].calls;
    CollectedCallers(c.resp, dest, now, expire);
    var c' := Apply(cfg, net, GcCallsStep(self, now, expire)).nodes[self].calls;
    assert c'.resp == GcRes(c.resp, now, expire) && c'.reqs == GcReq(c.reqs, now, expire);
  }

  // ---------------------------------------------------------------- a chain of nodes

  /** A chain from the searching node to the target, without repeats, all of it in the network. */
  ghost predicate ChainOk(cfg: Config, net: Net, v: Items) {
    && cfg.alpha >= 1 && NoDup(v) && 3 <= |v| <= cfg.maxTTL + 1
    && forall i :: 0 <= i < |v| ==> v[i] in net.nodes
  }

  function FreshNode(): Node {
    Node(Tab(map[], map[]), Calls(map[], map[]))
  }

  /** Exactly one caller waits for the target. */
  predicate Waits(node: Node, dest: Addr, src: Addr, ch: Option<nat>) {
    var l := CallersOf(node.calls, dest);
    |l| == 1 && l[0].src == src && l[0].ch == ch
  }

  /** Nodes 0 to i - 1 wait: the first for itself, each other one for the one before. */
  ghost predicate Waiting(net: Net, v: Items, i: nat, ch: nat)
    requires |v| > 0 && i <= |v|
  {
    forall j :: 0 <= j < i ==> WaitsAt(net, v, j, ch)
  }

  ghost predicate WaitsAt(net: Net, v: Items, j: nat, ch: nat)
    requires j < |v|
  {
    && v[j] in net.nodes
    && Waits(net.nodes[v[j]], Last(v), if j == 0 then v[0] else v[j - 1], if j == 0 then Some(ch) else None)
  }

  /** The request has come to node i, which like the ones behind it has done nothing yet. */
  ghost predicate Asked(net: Net, v: Items, i: nat, ch: nat)
    requires 0 < i < |v|
  {
    && Waiting(net, v, i, ch)
    && (forall j :: i <= j < |v| ==> v[j] in net.nodes && net.nodes[v[j]] == FreshNode())
    && Req(v[i - 1], v[i], Last(v), [v[..i]]) in net.sent
  }

  /** The search goes out. */
  lemma SearchStarts(cfg: Config, net: Net, v: Items, ch: nat, now: nat)
    requires ChainOk(cfg, net, v) && Initial(net)
    ensures var st := FindStep(v[0], Last(v), [v[1]], ch, now); Enabled(net, st) && Asked(Apply(cfg, net, st), v, 1, ch)
  {
    var call := Call(v[0], Last(v), Some(ch), now);
    ForwardOne(v[0], net.nodes[v[0]], v[1], call, [[v[0]]]);
    assert GeneratePaths(v[0], []) == [[v[0]]] && v[..1] == [v[0]];
    assert v[0] != Last(v);
    var net' := Apply(cfg, net, FindStep(v[0], Last(v), [v[1]], ch, now));
    assert forall j :: 1 <= j < |v| ==> v[j] != v[0] && net'.nodes[v[j]] == net.nodes[v[j]];
    assert CallersOf(net'.nodes[v[0]].calls, Last(v)) == [Item(v[0], now, Some(ch))];
  }

  /** Nothing but the request's own path is known to a node that has done nothing. */
  lemma FreshKnowsNothing(cfg: Config, m: Msg, ch: Choice)
    requires cfg.alpha >= 1 && m.Req? && |m.paths| == 1 && m.dest !in m.paths[0]
    ensures Known(cfg, FreshNode(), m, ch) == []
  {
    var p, t := m.paths[0], Tab(map[], map[]);
    assert Init(m.paths) == [] && Last(m.paths) == p;
    assert SaveAll(t, cfg.alpha, [], ch.now) == t;
    if |p| >= 2 {
      SaveEffect(t, cfg.alpha, p, ch.now);
      assert forall a :: a in Init(p) ==> a in p;
    }
  }

  /** A node between that has done nothing sends the request on to its next hop. */
  lemma PassedOn(cfg: Config, self: Addr, m: Msg, next: Addr, ch: Choice)
    requires cfg.alpha >= 1 && m.Req? && |m.paths| == 1 && m.dest !in m.paths[0] && self != m.dest
    requires !Discarded(cfg, self, m.paths) && ch.forward == [next] && (ch.neighbor ==> next == m.dest)
    ensures var e := OnReq(cfg, self, FreshNode(), m, ch);
            && e.out == [Req(self, next, m.dest, [m.paths[0] + [self]])]
            && CallersOf(e.node.calls, m.dest) == [Item(m.from, ch.now, None)]
  {
    FreshKnowsNothing(cfg, m, ch);
    var n := FreshNode().(table := SaveAll(FreshNode().table, cfg.alpha, m.paths, ch.now));
    assert GeneratePaths(self, m.paths) == [m.paths[0] + [self]];
    ForwardOne(self, n, next, Call(m.from, m.dest, None, ch.now), [m.paths[0] + [self]]);
    assert Usable(cfg, ReqPath(m.paths), []) == [];
  }

  lemma NotThere(v: Items, i: nat, x: Addr)
    requires NoDup(v) && i <= |v| && exists j :: i <= j < |v| && v[j] == x
    ensures x !in v[..i]
  {
  }

  function OnWay(v: Items, i: nat, underlay: bool, now: nat): Step
    requires 0 < i < |v| - 1
  {
    ReqStep(Req(v[i - 1], v[i], Last(v), [v[..i]]), Choice(i + 2 == |v|, underlay, [v[i + 1]], now))
  }

  /** One node more waits, and the others are as before. */
  lemma AskedNext(net: Net, net': Net, v: Items, i: nat, ch: nat, n: Node)
    requires NoDup(v) && 0 < i < |v| - 1 && Asked(net, v, i, ch)
    requires net'.nodes == net.nodes[v[i] := n] && Waits(n, Last(v), v[i - 1], None)
    requires Req(v[i], v[i + 1], Last(v), [v[..i + 1]]) in net'.sent
    ensures Asked(net', v, i + 1, ch)
  {
    forall j | 0 <= j < i + 1 ensures WaitsAt(net', v, j, ch) {
      if j < i { assert WaitsAt(net, v, j, ch) && v[j] != v[i]; }
    }
  }

  lemma SearchGoesOn(cfg: Config, net: Net, v: Items, i: nat, ch: nat, underlay: bool, now: nat)
    requires ChainOk(cfg, net, v) && 0 < i < |v| - 1 && Asked(net, v, i, ch)
    ensures Enabled(net, OnWay(v, i, underlay, now)) && Asked(Apply(cfg, net, OnWay(v, i, underlay, now)), v, i + 1, ch)
  {
    var st := OnWay(v, i, underlay, now);
    NotThere(v, i, v[i]);
    NotThere(v, i, Last(v));
    PassedOn(cfg, v[i], st.m, v[i + 1], st.choice);
    assert v[..i] + [v[i]] == v[..i + 1];
    var e := OnReq(cfg, v[i], FreshNode(), st.m, st.choice);
    assert e.out[0] in e.out;
    AskedNext(net, Apply(cfg, net, st), v, i, ch, e.node);
  }

  // ---------------------------------------------------------------- and back

  /** From the target back to node j. */
  function Back(v: Items, j: nat): Items
    requires j <= |v|
  {
    Reverse(v[j..])
  }

  lemma BackGrows(v: Items, j: nat)
    requires NoDup(v) && j + 1 < |v|
    ensures Back(v, j + 1) + [v[j]] == Back(v, j) && v[j] !in Back(v, j + 1) && |Back(v, j + 1)| == |v| - j - 1
  {
    assert v[j..][1..] == v[j + 1..] && v[j..][0] == v[j];
  }

  /** The answer has come back to node j, and it and the ones before it still wait. */
  ghost predicate Replied(net: Net, v: Items, j: nat, ch: nat)
    requires j + 1 < |v|
  {
    Waiting(net, v, j + 1, ch) && Resp(v[j + 1], v[j], Last(v), [Back(v, j + 1)]) in net.sent
  }

  lemma WaitingKept(net: Net, net': Net, v: Items, i: nat, k: nat, n: Node, ch: nat)
    requires NoDup(v) && i <= k < |v| && Waiting(net, v, i, ch) && net'.nodes == net.nodes[v[k] := n]
    ensures Waiting(net', v, i, ch)
  {
    forall j | 0 <= j < i ensures WaitsAt(net', v, j, ch) { assert WaitsAt(net, v, j, ch) && v[j] != v[k]; }
  }

  lemma TargetReplies(cfg: Config, net: Net, v: Items, ch: nat, choice: Choice)
    requires ChainOk(cfg, net, v) && Asked(net, v, |v| - 1, ch)
    ensures var k := |v| - 1;
            var st := ReqStep(Req(v[k - 1], v[k], Last(v), [v[..k]]), choice);
            Enabled(net, st) && Replied(Apply(cfg, net, st), v, k - 1, ch)
  {
    var k := |v| - 1;
    var m := Req(v[k - 1], v[k], Last(v), [v[..k]]);
    NotThere(v, k, v[k]);
    TargetAnswers(cfg, net.nodes[v[k]], m, choice);
    var e := OnReq(cfg, v[k], net.nodes[v[k]], m, choice);
    assert e.out[0] in e.out;
    assert v[k..] == [v[k]] && Back(v, k) == [v[k]];
    WaitingKept(net, Apply(cfg, net, ReqStep(m, choice)), v, k, k, e.node, ch);
  }

  lemma ServeOne(self: Addr, it: Item, dest: Addr, p: Items)
    ensures Answer(self, [it], dest, [p], []) == if it.src == self then [] else [Resp(self, it.src, dest, [p + [self]])]
    ensures Signals(self, [it]) == if it.src == self && it.ch.Some? then [it.ch.value] else []
  {
    var none: seq<Item> := [it][1..];
    assert none == [] && GeneratePaths(self, [p]) == [p + [self]];
    assert Answer(self, none, dest, [p], []) == [] && Answer(self, none, dest, [p + [self]], [it.src]) == [];
    assert [] + [it.src] == [it.src] && Signals(self, none) == [];
  }

  /** The only caller is answered, or signalled. */
  lemma OneCaller(cfg: Config, self: Addr, node: Node, m: Msg, now: nat, src: Addr, ch: Option<nat>)
    requires cfg.alpha >= 1 && m.Resp? && |m.paths| == 1 && |m.paths[0]| <= cfg.maxTTL && self !in m.paths[0]
    requires Waits(node, m.dest, src, ch) && (src == self <==> ch.Some?)
    ensures var e := OnResp(cfg, self, node, m, now);
            && e.node.table == SaveAll(node.table, cfg.alpha, m.paths, now)
            && e.out == (if src == self then [] else [Resp(self, src, m.dest, [m.paths[0] + [self]])])
            && e.signals == if ch.Some? then [ch.value] else []
  {
    var p, res := m.paths[0], CallersOf(node.calls, m.dest);
    assert m.paths == [p] && m.paths[1..] == [] && Fitting(cfg, m.paths) == [p];
    assert res == [res[0]];
    ServeOne(self, res[0], m.dest, p);
  }

  lemma ReplyGoesBack(cfg: Config, net: Net, v: Items, j: nat, ch: nat, now: nat)
    requires ChainOk(cfg, net, v) && j + 2 < |v| && Replied(net, v, j + 1, ch)
    ensures Enabled(net, BackStep(v, j, now)) && Replied(Apply(cfg, net, BackStep(v, j, now)), v, j, ch)
  {
    var i, m := j + 1, BackStep(v, j, now).m;
    assert WaitsAt(net, v, i, ch) && v[j] != v[i];
    BackGrows(v, i);
    OneCaller(cfg, v[i], net.nodes[v[i]], m, now, v[j], None);
    var e := OnResp(cfg, v[i], net.nodes[v[i]], m, now);
    assert e.out[0] in e.out;
    WaitingKept(net, Apply(cfg, net, RespStep(m, now)), v, i, i, e.node, ch);
  }

  /** Node j + 1 handles the answer, and passes it to node j. */
  function BackStep(v: Items, j: nat, now: nat): Step
    requires j + 2 < |v|
  {
    RespStep(Resp(v[j + 2], v[j + 1], Last(v), [Back(v, j + 2)]), now)
  }

  /** At the searching node the search is signalled, and its table has the route. */
  lemma SearchEnds(cfg: Config, net: Net, v: Items, ch: nat, now: nat)
    requires ChainOk(cfg, net, v) && Replied(net, v, 0, ch)
    ensures var m := Resp(v[1], v[0], Last(v), [Back(v, 1)]);
            && Enabled(net, RespStep(m, now))
            && var e := OnResp(cfg, v[0], net.nodes[v[0]], m, now);
               e.signals == [ch] && Route(v[1], Back(v, 1)) in ListOf(e.node.table.routes, Last(v))
  {
    var p := Back(v, 1);
    var m := Resp(v[1], v[0], Last(v), [p]);
    assert WaitsAt(net, v, 0, ch);
    BackGrows(v, 0);
    OneCaller(cfg, v[0], net.nodes[v[0]], m, now, v[0], Some(ch));
    var t := net.nodes[v[0]].table;
    assert Init([p]) == [] && Last([p]) == p && SaveAll(t, cfg.alpha, [], now) == t;
    SaveEffect(t, cfg.alpha, p, now);
    assert Last(p) == v[1] && p[0] == Last(v) && Init(p)[0] == p[0];
  }

  // ---------------------------------------------------------------- the whole search

  lemma OneStepMore(cfg: Config, net: Net, steps: seq<Step>, s: Net, st: Step) returns (more: seq<Step>)
    requires cfg.alpha >= 1 && ValidRun(cfg, net, steps) && Exec(cfg, net, steps) == s && Enabled(s, st)
    ensures more == steps + [st] && ValidRun(cfg, net, more) && Exec(cfg, net, more) == Apply(cfg, s, st)
  {
    more := steps + [st];
    assert Init(more) == steps && Last(more) == st;
  }

  lemma StillChain(cfg: Config, net: Net, st: Step, v: Items)
    requires ChainOk(cfg, net, v) && Enabled(net, st)
    ensures ChainOk(cfg, Apply(cfg, net, st), v)
  {
  }

  lemma {:induction false} AskedRun(cfg: Config, net: Net, v: Items, i: nat, ch: nat, underlay: bool, now: nat)
    returns (steps: seq<Step>)
    requires ChainOk(cfg, net, v) && Initial(net) && 0 < i < |v|
    ensures ValidRun(cfg, net, steps) && |steps| == i && steps[0] == FindStep(v[0], Last(v), [v[1]], ch, now)
    ensures ChainOk(cfg, Exec(cfg, net, steps), v) && Asked(Exec(cfg, net, steps), v, i, ch)
    decreases i
  {
    if i == 1 {
      var st := FindStep(v[0], Last(v), [v[1]], ch, now);
      SearchStarts(cfg, net, v, ch, now);
      steps := OneStepMore(cfg, net, [], net, st);
      StillChain(cfg, net, st, v);
    } else {
      steps := AskedRun(cfg, net, v, i - 1, ch, underlay, now);
      var s := Exec(cfg, net, steps);
      SearchGoesOn(cfg, s, v, i - 1, ch, underlay, now);
      StillChain(cfg, s, OnWay(v, i - 1, underlay, now), v);
      steps := OneStepMore(cfg, net, steps, s, OnWay(v, i - 1, underlay, now));
    }
  }

  lemma {:induction false} RepliedRun(cfg: Config, net: Net, v: Items, j: nat, ch: nat, underlay: bool, now: nat)
    returns (steps: seq<Step>)
    requires ChainOk(cfg, net, v) && Initial(net) && j + 1 < |v|
    ensures ValidRun(cfg, net, steps) && |steps| == 2 * |v| - 2 - j
    ensures steps[0] == FindStep(v[0], Last(v), [v[1]], ch, now)
    ensures ChainOk(cfg, Exec(cfg, net, steps), v) && Replied(Exec(cfg, net, steps), v, j, ch)
    decreases |v| - j
  {
    if j + 2 == |v| {
      steps := FirstReply(cfg, net, v, ch, underlay, now);
    } else {
      steps := RepliedRun(cfg, net, v, j + 1, ch, underlay, now);
      steps := NextReply(cfg, net, steps, Exec(cfg, net, steps), v, j, ch, now);
    }
  }

  lemma FirstReply(cfg: Config, net: Net, v: Items, ch: nat, underlay: bool, now: nat) returns (steps: seq<Step>)
    requires ChainOk(cfg, net, v) && Initial(net)
    ensures ValidRun(cfg, net, steps) && |steps| == |v| && steps[0] == FindStep(v[0], Last(v), [v[1]], ch, now)
    ensures ChainOk(cfg, Exec(cfg, net, steps), v) && Replied(Exec(cfg, net, steps), v, |v| - 2, ch)
  {
    steps := AskedRun(cfg, net, v, |v| - 1, ch, underlay, now);
    var s := Exec(cfg, net, steps);
    var choice := Choice(false, underlay, [], now);
    var st := ReqStep(Req(v[|v| - 2], v[|v| - 1], Last(v), [v[..|v| - 1]]), choice);
    TargetReplies(cfg, s, v, ch, choice);
    StillChain(cfg, s, st, v);
    steps := OneStepMore(cfg, net, steps, s, st);
  }

  lemma NextReply(cfg: Config, net: Net, before: seq<Step>, s: Net, v: Items, j: nat, ch: nat, now: nat)
    returns (steps: seq<Step>)
    requires cfg.alpha >= 1 && ValidRun(cfg, net, before) && Exec(cfg, net, before) == s && j + 2 < |v|
    requires ChainOk(cfg, s, v) && Replied(s, v, j + 1, ch)
    ensures ValidRun(cfg, net, steps) && |steps| == |before| + 1 && before <= steps
    ensures ChainOk(cfg, Exec(cfg, net, steps), v) && Replied(Exec(cfg, net, steps), v, j, ch)
  {
    ReplyGoesBack(cfg, s, v, j, ch, now);
    StillChain(cfg, s, BackStep(v, j, now), v);
    steps := OneStepMore(cfg, net, before, s, BackStep(v, j, now));
  }

  /** A search finds its route: along any chain of at most maxTTL hops that nobody has used
      yet, a run leads from FindRoute at one end to a signal on its channel and a route to the
      other end, over the first hop and back along the chain. */
  lemma SearchFindsRoute(cfg: Config, net: Net, v: Items, ch: nat, underlay: bool, now: nat)
    returns (steps: seq<Step>)
    requires ChainOk(cfg, net, v) && Initial(net)
    ensures ValidRun(cfg, net, steps) && |steps| == 2 * |v| - 1
    ensures steps[0] == FindStep(v[0], Last(v), [v[1]], ch, now) && Last(steps).RespStep? && Last(steps).m.to == v[0]
    ensures var s, st := Exec(cfg, net, Init(steps)), Last(steps);
            v[0] in s.nodes && OnResp(cfg, v[0], s.nodes[v[0]], st.m, st.now).signals == [ch]
    ensures var t := Exec(cfg, net, steps);
            v[0] in t.nodes && Route(v[1], Reverse(v[1..])) in ListOf(t.nodes[v[0]].table.routes, Last(v))
  {
    steps := RepliedRun(cfg, net, v, 0, ch, underlay, now);
    var s := Exec(cfg, net, steps);
    SearchEnds(cfg, s, v, ch, now);
    var before := steps;
    steps := OneStepMore(cfg, net, steps, s, RespStep(Resp(v[1], v[0], Last(v), [Back(v, 1)]), now));
    assert Init(steps) == before;
  }
}
