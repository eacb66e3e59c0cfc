/** Route discovery as a network of honest nodes: each handler runs on one node's table
    and pending calls and sends messages. Sent messages stay in the state and may be
    handled any number of times or never, so loss, delay, reordering and repetition are
    all among the runs. */
module RouteNet {
  import opened Basics
  import opened RouteTable
  import opened RoutePending

  datatype Config = Config(maxTTL: nat, alpha: nat)

  datatype Msg =
    | Req(from: Addr, to: Addr, dest: Addr, paths: seq<Items>)
    | Resp(from: Addr, to: Addr, dest: Addr, paths: seq<Items>)

  datatype Node = Node(table: Tab, calls: Calls)

  datatype Net = Net(nodes: map<Addr, Node>, sent: set<Msg>)

  // ---------------------------------------------------------------- pieces of the handlers

  function GeneratePaths(self: Addr, paths: seq<Items>): (r: seq<Items>)
    ensures |r| == if paths == [] then 1 else |paths|
    ensures forall i :: 0 <= i < |r| ==> r[i] == (if paths == [] then [] else paths[i]) + [self]
  {
    if paths == [] then [[self]] else seq(|paths|, i requires 0 <= i < |paths| => paths[i] + [self])
  }

  function SaveAll(t: Tab, alpha: nat, paths: seq<Items>, now: nat): Tab
    requires alpha >= 1
  {
    if paths == [] then t else Save(SaveAll(t, alpha, Init(paths), now), alpha, Last(paths), now)
  }

  predicate Shares(a: Items, b: Items) {
    exists x :: x in a && x in b
  }

  /** Paths a middle node may answer with: short enough and clear of the request path. */
  function Usable(cfg: Config, reqPath: Items, stored: seq<Items>): (r: seq<Items>)
    ensures forall p :: p in r <==> p in stored && |p| + |reqPath| <= cfg.maxTTL && !Shares(reqPath, p)
  {
    if stored == [] then []
    else
      var rest := Usable(cfg, reqPath, stored[1..]);
      if |stored[0]| + |reqPath| <= cfg.maxTTL && !Shares(reqPath, stored[0]) then [stored[0]] + rest else rest
  }

  /** The first of the shortest paths. */
  function Shortest(paths: seq<Items>): (r: Items)
    requires paths != []
    ensures r in paths && forall p :: p in paths ==> |r| <= |p|
  {
    if |paths| == 1 then paths[0]
    else
      var s := Shortest(Init(paths));
      assert paths == Init(paths) + [Last(paths)];
      if |Last(paths)| < |s| then Last(paths) else s
  }

  /** What a handler leaves behind: the node, messages to others, and the channels of local
      searches it signals, in order. */
  datatype Effect = Effect(node: Node, out: seq<Msg>, signals: seq<nat>)

  /** doRouteReq: register the call for every next hop, send where none is under way. */
  function Forward(self: Addr, node: Node, next: seq<Addr>, call: Call, paths: seq<Items>): (e: Effect)
    ensures e.node.table == node.table && e.signals == []
    ensures forall m :: m in e.out ==>
      m.Req? && m.from == self && m.dest == call.dest && m.paths == paths && m.to in next
  {
    if next == [] then Effect(node, [], [])
    else
      var e := Forward(self, node, Init(next), call, paths);
      var v := Last(next);
      var n := e.node.(calls := AddCall(e.node.calls, call.dest, call.src, v, call.ch, call.now));
      Effect(n, if (call.dest, v) in e.node.calls.reqs then e.out else e.out + [Req(self, v, call.dest, paths)], [])
  }

  /** On whose behalf a search goes on: the asking node, the target, the channel of a local
      FindRoute, and the time. */
  datatype Call = Call(src: Addr, dest: Addr, ch: Option<nat>, now: nat)

  /** What the environment decides: whether the target is a connected neighbour,
      whether its underlay address is at hand, whom to forward to, and the time. */
  datatype Choice = Choice(neighbor: bool, underlay: bool, forward: seq<Addr>, now: nat)

  predicate Discarded(cfg: Config, self: Addr, paths: seq<Items>) {
    exists p :: p in paths && (|p| > cfg.maxTTL || self in p)
  }

  function ReqPath(paths: seq<Items>): Items {
    if paths == [] then [] else Last(paths)
  }

  /** onRouteReq */
  function OnReq(cfg: Config, self: Addr, node: Node, m: Msg, ch: Choice): Effect
    requires cfg.alpha >= 1 && m.Req?
  {
    if Discarded(cfg, self, m.paths) then Effect(node, [], [])
    else
      var n := node.(table := SaveAll(node.table, cfg.alpha, m.paths, ch.now));
      var call := Call(m.from, m.dest, None, ch.now);
      if self == m.dest then Effect(n, [Resp(self, m.from, m.dest, GeneratePaths(self, []))], [])
      else if ch.neighbor then Forward(self, n, [m.dest], call, GeneratePaths(self, m.paths))
      else
        var usable := Usable(cfg, ReqPath(m.paths), PathsTo(n.table, ListOf(n.table.routes, m.dest)));
        if usable != [] && ch.underlay then Effect(n, [Resp(self, m.from, m.dest, [Shortest(usable) + [self]])], [])
        else Forward(self, n, ch.forward, call, GeneratePaths(self, m.paths))
  }

  /** respForward: one message is reused, so it grows by one hop per distinct source. */
  function Answer(self: Addr, res: seq<Item>, dest: Addr, paths: seq<Items>, skip: seq<Addr>): seq<Msg> {
    if res == [] then []
    else if res[0].src != self && res[0].src !in skip then
      var grown := GeneratePaths(self, paths);
      [Resp(self, res[0].src, dest, grown)] + Answer(self, res[1..], dest, grown, skip + [res[0].src])
    else Answer(self, res[1..], dest, paths, skip)
  }

  /** The local callers it signals instead. */
  function Signals(self: Addr, res: seq<Item>): seq<nat> {
    if res == [] then []
    else (if res[0].src == self && res[0].ch.Some? then [res[0].ch.value] else []) + Signals(self, res[1..])
  }

  function Fitting(cfg: Config, paths: seq<Items>): (r: seq<Items>)
    ensures forall p :: p in r <==> p in paths && |p| <= cfg.maxTTL
    ensures |r| <= |paths|
  {
    if paths == [] then []
    else if |paths[0]| <= cfg.maxTTL then [paths[0]] + Fitting(cfg, paths[1..])
    else Fitting(cfg, paths[1..])
  }

  /** onRouteResp */
  function OnResp(cfg: Config, self: Addr, node: Node, m: Msg, now: nat): Effect
    requires cfg.alpha >= 1 && m.Resp?
  {
    var paths := Fitting(cfg, m.paths);
    if paths == [] || exists p :: p in paths && self in p then Effect(node, [], [])
    else
      var res := CallersOf(node.calls, m.dest);
      Effect(Node(SaveAll(node.table, cfg.alpha, paths, now), TakeCalls(node.calls, m.dest, m.from)),
             Answer(self, res, m.dest, paths, []), Signals(self, res))
  }

  /** FindRoute's requests, made on channel `ch`. */
  function Find(self: Addr, node: Node, dest: Addr, forward: seq<Addr>, ch: nat, now: nat): Effect {
    if self == dest then Effect(node, [], [])
    else Forward(self, node, forward, Call(self, dest, Some(ch), now), GeneratePaths(self, []))
  }

  /** FindRoute's removal of its calls when it stops waiting. */
  function GiveUp(calls: Calls, dest: Addr, forward: seq<Addr>): Calls {
    if forward == [] then calls else DropCalls(GiveUp(calls, dest, Init(forward)), dest, Last(forward))
  }

  // ---------------------------------------------------------------- steps

  datatype Step =
    | FindStep(self: Addr, dest: Addr, forward: seq<Addr>, ch: nat, now: nat)
    | GiveUpStep(self: Addr, dest: Addr, forward: seq<Addr>)
    | ReqStep(m: Msg, choice: Choice)
    | RespStep(m: Msg, now: nat)
    | GcStep(self: Addr, now: nat, expire: nat)
    | DelStep(self: Addr, items: Items)
    | GcCallsStep(self: Addr, now: nat, expire: nat)

  predicate Enabled(net: Net, st: Step) {
    match st
    case ReqStep(m, _) => m in net.sent && m.Req? && m.to in net.nodes
    case RespStep(m, _) => m in net.sent && m.Resp? && m.to in net.nodes
    case _ => st.self in net.nodes
  }

  function Do(net: Net, self: Addr, e: Effect): Net {
    Net(net.nodes[self := e.node], net.sent + set m | m in e.out)
  }

  function Apply(cfg: Config, net: Net, st: Step): Net
    requires cfg.alpha >= 1 && Enabled(net, st)
  {
    match st
    case FindStep(self, dest, forward, ch, now) => Do(net, self, Find(self, net.nodes[self], dest, forward, ch, now))
    case ReqStep(m, ch) => Do(net, m.to, OnReq(cfg, m.to, net.nodes[m.to], m, ch))
    case RespStep(m, now) => Do(net, m.to, OnResp(cfg, m.to, net.nodes[m.to], m, now))
    case GiveUpStep(self, dest, forward) =>
      var n := net.nodes[self];
      Do(net, self, Effect(n.(calls := GiveUp(n.calls, dest, forward)), [], []))
    case GcStep(self, now, expire) =>
      var n := net.nodes[self];
      Do(net, self, Effect(n.(table := DeleteAll(n.table, Expired(n.table, now, expire))), [], []))
    case DelStep(self, items) =>
      var n := net.nodes[self];
      Do(net, self, Effect(n.(table := Delete(n.table, items)), [], []))
    case GcCallsStep(self, now, expire) =>
      var n := net.nodes[self];
      var calls := Calls(GcRes(n.calls.resp, now, expire), GcReq(n.calls.reqs, now, expire));
      Do(net, self, Effect(n.(calls := calls), [], []))
  }

  predicate Initial(net: Net) {
    net.sent == {} && forall a :: a in net.nodes ==> net.nodes[a] == Node(Tab(map[], map[]), Calls(map[], map[]))
  }

  predicate ValidRun(cfg: Config, net: Net, steps: seq<Step>)
    requires cfg.alpha >= 1
    decreases |steps|, 0
  {
    steps == [] || (ValidRun(cfg, net, Init(steps)) && Enabled(Exec(cfg, net, Init(steps)), Last(steps)))
  }

  function Exec(cfg: Config, net: Net, steps: seq<Step>): Net
    requires cfg.alpha >= 1 && ValidRun(cfg, net, steps)
    decreases |steps|, 1
  {
    if steps == [] then net else Apply(cfg, Exec(cfg, net, Init(steps)), Last(steps))
  }
}
