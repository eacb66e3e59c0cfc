/** The handlers as they run: loops over one node's mutable table and pending calls,
    proved to do what the network model says. */
module RouteService {
  import opened Basics
  import opened RouteTable
  import opened RoutePending
  import opened RouteNet

  /** inPath and inPaths */
  method InPath(b: Addr, path: Items) returns (r: bool)
    ensures r <==> b in path
  {
    for i := 0 to |path|
      invariant b !in path[..i]
    {
      if path[i] == b { return true; }
    }
    return false;
  }

  method InPaths(b: Items, path: Items) returns (r: bool)
    ensures r <==> Shares(b, path)
  {
    for i := 0 to |path|
      invariant forall j :: 0 <= j < i ==> path[j] !in b
    {
      var found := InPath(path[i], b);
      if found { return true; }
    }
    return false;
  }

  /** The peers that are not skipped, in order. */
  function Remaining(src: seq<Addr>, skip: seq<Addr>): (r: seq<Addr>)
    ensures forall a :: a in r <==> a in src && a !in skip
  {
    if src == [] then [] else Remaining(Init(src), skip) + if Last(src) in skip then [] else [Last(src)]
  }

  method SkipPeers(src: seq<Addr>, skip: seq<Addr>) returns (now: seq<Addr>)
    ensures now == Remaining(src, skip)
  {
    now := [];
    for i := 0 to |src|
      invariant now == Remaining(src[..i], skip)
    {
      assert Init(src[..i + 1]) == src[..i];
      if src[i] !in skip { now := now + [src[i]]; }
    }
    assert src[..|src|] == src;
  }

  /** Skipping keeps every other peer as often as it was there. */
  lemma {:induction false} SkippingCounts(src: seq<Addr>, skip: seq<Addr>, a: Addr)
    ensures multiset(Remaining(src, skip))[a] == if a in skip then 0 else multiset(src)[a]
  {
    if src != [] {
      SkippingCounts(Init(src), skip, a);
      var rest, x := Remaining(Init(src), skip), Last(src);
      assert src == Init(src) + [x];
      assert multiset(src) == multiset(Init(src)) + multiset{x};
      if x !in skip { assert multiset(rest + [x]) == multiset(rest) + multiset{x}; }
    }
  }

  lemma {:induction false} FirstShortest(paths: seq<Items>, key: nat)
    requires key < |paths| && forall i :: 0 <= i < |paths| ==> |paths[i]| >= |paths[key]|
    requires forall i :: 0 <= i < key ==> |paths[i]| > |paths[key]|
    ensures paths[key] == Shortest(paths)
    decreases |paths|
  {
    if key + 1 < |paths| {
      FirstShortest(Init(paths), key);
    }
  }

  /** The selection loop of convertPathsToPbPaths: the first of the shortest. */
  method PickShortest(paths: seq<Items>) returns (key: nat)
    requires paths != []
    ensures key < |paths| && paths[key] == Shortest(paths)
    ensures forall i :: 0 <= i < key ==> |paths[i]| > |paths[key]|
  {
    var minTTL := 0;
    key := 0;
    for k := 0 to |paths|
      invariant if k == 0 then key == 0 else key < k && minTTL == |paths[key]|
      invariant forall i :: 0 <= i < key ==> |paths[i]| > |paths[key]|
      invariant forall i :: 0 <= i < k ==> |paths[i]| >= |paths[key]|
    {
      var l := |paths[k]|;
      if k == 0 {
        minTTL := l;
      } else if l < minTTL {
        minTTL := l;
        key := k;
      }
    }
    FirstShortest(paths, key);
  }

  /** One caller served: what is sent and what is still to send. */
  lemma AnswerStep(self: Addr, res: seq<Item>, i: nat, dest: Addr, paths: seq<Items>, skip: seq<Addr>, out: seq<Msg>)
    requires i < |res|
    ensures var src, grown := res[i].src, GeneratePaths(self, paths);
            out + Answer(self, res[i..], dest, paths, skip) ==
              if src != self && src !in skip then
                out + [Resp(self, src, dest, grown)] + Answer(self, res[i + 1..], dest, grown, skip + [src])
              else out + Answer(self, res[i + 1..], dest, paths, skip)
  {
    assert res[i..][1..] == res[i + 1..];
  }

  lemma SignalsStep(self: Addr, res: seq<Item>, i: nat, signals: seq<nat>)
    requires i < |res|
    ensures signals + Signals(self, res[i..]) ==
              if res[i].src == self && res[i].ch.Some? then signals + [res[i].ch.value] + Signals(self, res[i + 1..])
              else signals + Signals(self, res[i + 1..])
  {
    assert res[i..][1..] == res[i + 1..];
  }

  datatype Outcome = SelfTarget | NoNeighbor | Waiting

  class Service {
    const cfg: Config
    const self: Addr
    const routeTable: Table
    const pendingCalls: PendCallResTab

    function View(): Node
      reads routeTable, pendingCalls
    {
      Node(routeTable.View(), pendingCalls.View())
    }

    ghost predicate Valid()
      reads routeTable, pendingCalls
    {
      routeTable.Valid() && routeTable.alpha == cfg.alpha && pendingCalls.Valid()
    }

    constructor (cfg: Config, self: Addr)
      requires cfg.alpha >= 1
      ensures Valid() && View() == Node(Tab(map[], map[]), Calls(map[], map[]))
      ensures this.cfg == cfg && this.self == self && fresh(routeTable) && fresh(pendingCalls)
    {
      this.cfg, this.self := cfg, self;
      routeTable := new Table(self, cfg.alpha);
      pendingCalls := new PendCallResTab();
    }

    method SavePaths(paths: seq<Items>, now: nat)
      requires Valid()
      modifies routeTable
      ensures Valid() && routeTable.View() == SaveAll(old(routeTable.View()), cfg.alpha, paths, now)
    {
      for i := 0 to |paths|
        invariant Valid() && routeTable.View() == SaveAll(old(routeTable.View()), cfg.alpha, paths[..i], now)
      {
        assert Init(paths[..i + 1]) == paths[..i];
        routeTable.SavePath(paths[i], now);
      }
      assert paths[..|paths|] == paths;
    }

    method DoRouteReq(next: seq<Addr>, call: Call, paths: seq<Items>) returns (out: seq<Msg>)
      requires Valid()
      modifies pendingCalls
      ensures Valid() && Effect(View(), out, []) == Forward(self, old(View()), next, call, paths)
    {
      out := [];
      for i := 0 to |next|
        invariant Valid() && Effect(View(), out, []) == Forward(self, old(View()), next[..i], call, paths)
      {
        assert Init(next[..i + 1]) == next[..i];
        var has := pendingCalls.Add(call.dest, call.src, next[i], call.ch, call.now);
        if !has { out := out + [Req(self, next[i], call.dest, paths)]; }
      }
      assert next[..|next|] == next;
    }

    method MustDiscard(paths: seq<Items>) returns (r: bool)
      ensures r <==> Discarded(cfg, self, paths)
    {
      for i := 0 to |paths|
        invariant forall j :: 0 <= j < i ==> !(|paths[j]| > cfg.maxTTL || self in paths[j])
      {
        if |paths[i]| > cfg.maxTTL { return true; }
        var loop := InPath(self, paths[i]);
        if loop { return true; }
      }
      return false;
    }

    method UsablePaths(reqPath: Items, stored: seq<Items>) returns (now: seq<Items>)
      ensures now == Usable(cfg, reqPath, stored)
    {
      now := [];
      assert stored[0..] == stored;
      for i := 0 to |stored|
        invariant now + Usable(cfg, reqPath, stored[i..]) == Usable(cfg, reqPath, stored)
      {
        assert stored[i..][1..] == stored[i + 1..];
        if |stored[i]| + |reqPath| > cfg.maxTTL { continue; }
        var shared := InPaths(reqPath, stored[i]);
        if !shared { now := now + [stored[i]]; }
      }
    }

    method OnRouteReq(m: Msg, ch: Choice) returns (out: seq<Msg>)
      requires Valid() && m.Req?
      modifies routeTable, pendingCalls
      ensures Valid() && Effect(View(), out, []) == OnReq(cfg, self, old(View()), m, ch)
    {
      var discard := MustDiscard(m.paths);
      if discard { return []; }
      SavePaths(m.paths, ch.now);
      if self == m.dest {
        return [Resp(self, m.from, m.dest, GeneratePaths(self, []))];
      }
      var call := Call(m.from, m.dest, None, ch.now);
      if ch.neighbor {
        out := DoRouteReq([m.dest], call, GeneratePaths(self, m.paths));
        return;
      }
      var found := routeTable.Get(m.dest);
      var now := UsablePaths(ReqPath(m.paths), ItemsOf(if found.Ok? then found.value else []));
      if now != [] && ch.underlay {
        var key := PickShortest(now);
        return [Resp(self, m.from, m.dest, [now[key] + [self]])];
      }
      out := DoRouteReq(ch.forward, call, GeneratePaths(self, m.paths));
    }

    /** The loop over the callers: every waiting node is answered once, with the message
        grown so far, and every local search is signalled. */
    method ServeCallers(res: seq<Item>, dest: Addr, paths: seq<Items>) returns (out: seq<Msg>, signals: seq<nat>)
      ensures out == Answer(self, res, dest, paths, []) && signals == Signals(self, res)
    {
      out, signals := [], [];
      var skip: seq<Addr> := [];
      var grown := paths;
      ghost var allOut, allSignals := Answer(self, res, dest, paths, []), Signals(self, res);
      assert res[0..] == res;
      for i := 0 to |res|
        invariant out + Answer(self, res[i..], dest, grown, skip) == allOut
        invariant signals + Signals(self, res[i..]) == allSignals
      {
        AnswerStep(self, res, i, dest, grown, skip, out);
        SignalsStep(self, res, i, signals);
        if res[i].src != self {
          if res[i].src !in skip {
            grown := GeneratePaths(self, grown);
            out := out + [Resp(self, res[i].src, dest, grown)];
            skip := skip + [res[i].src];
          }
        } else if res[i].ch.Some? {
          signals := signals + [res[i].ch.value];
        }
      }
    }

    method RespForward(dest: Addr, last: Addr, paths: seq<Items>) returns (out: seq<Msg>, signals: seq<nat>)
      requires Valid()
      modifies pendingCalls
      ensures Valid() && pendingCalls.View() == TakeCalls(old(pendingCalls.View()), dest, last)
      ensures var res := CallersOf(old(pendingCalls.View()), dest);
              out == Answer(self, res, dest, paths, []) && signals == Signals(self, res)
    {
      var res := pendingCalls.Get(dest, last);
      out, signals := ServeCallers(res, dest, paths);
    }

    method OnRouteResp(m: Msg, now: nat) returns (out: seq<Msg>, signals: seq<nat>)
      requires Valid() && m.Resp?
      modifies routeTable, pendingCalls
      ensures Valid() && Effect(View(), out, signals) == OnResp(cfg, self, old(View()), m, now)
    {
      var paths := Fitting(cfg, m.paths);
      if paths == [] { return [], []; }
      for i := 0 to |paths|
        invariant Valid() && View() == old(View()) && forall j :: 0 <= j < i ==> self !in paths[j]
      {
        var loop := InPath(self, paths[i]);
        if loop { return [], []; }
      }
      SavePaths(paths, now);
      out, signals := RespForward(m.dest, m.from, paths);
    }

    /** FindRoute up to its wait, on the channel it has made for the next hops. */
    method FindRoute(dest: Addr, forward: seq<Addr>, ch: nat, now: nat) returns (out: seq<Msg>, o: Outcome)
      requires Valid()
      modifies pendingCalls
      ensures Valid() && Effect(View(), out, []) == Find(self, old(View()), dest, forward, ch, now)
      ensures o == if self == dest then SelfTarget else if forward == [] then NoNeighbor else Waiting
    {
      if self == dest { return [], SelfTarget; }
      if forward == [] { return [], NoNeighbor; }
      out := DoRouteReq(forward, Call(self, dest, Some(ch), now), GeneratePaths(self, []));
      o := Waiting;
    }

    /** FindRoute after its wait: a signal is answered from the table, a timeout takes the
        calls out again, and with them everybody else's for the same target. */
    method AfterWait(dest: Addr, forward: seq<Addr>, signalled: bool) returns (r: Found<seq<Path>>)
      requires Valid()
      modifies pendingCalls
      ensures Valid() && routeTable.View() == old(routeTable.View())
      ensures pendingCalls.View() == if signalled then old(pendingCalls.View())
          else GiveUp(old(pendingCalls.View()), dest, forward)
      ensures signalled ==>
          ItemsOf(if r.Ok? then r.value else []) == PathsTo(routeTable.View(), ListOf(routeTable.routes, dest))
      ensures !signalled ==> r.NotFound? && (forward != [] ==> CallersOf(pendingCalls.View(), dest) == [])
    {
      if signalled {
        r := routeTable.Get(dest);
        return;
      }
      for i := 0 to |forward|
        invariant Valid() && pendingCalls.View() == GiveUp(old(pendingCalls.View()), dest, forward[..i])
      {
        assert Init(forward[..i + 1]) == forward[..i];
        pendingCalls.Delete(dest, forward[i]);
      }
      assert forward[..|forward|] == forward;
      r := NotFound;
    }
  }
}
