/** The channels FindRoute waits on, over the table of pending calls: every goroutine takes
    the table's lock for one operation at a time, and respForward works through the list it
    took without a lock. */
module RouteChannels {
  import opened Basics
  import opened RouteTable
  import opened RoutePending
  import RouteNet

  /** A channel of one search: its target, capacity, values sent so far, and next hops whose
      call is still to be registered. */
  datatype Chan = Chan(target: Addr, cap: nat, sent: nat, toAdd: nat)

  /** One node: the table, the channels made so far, and what each running respForward still
      has in hand. */
  datatype State = State(self: Addr, calls: Calls, chans: seq<Chan>, hands: seq<seq<Item>>)

  datatype Event =
    | Open(target: Addr, n: nat)                         // FindRoute makes a channel for n next hops
    | AddLocal(c: nat, next: Addr, now: nat)             // its doRouteReq registers the next one
    | AddRemote(target: Addr, src: Addr, next: Addr, now: nat) // a request of another node is registered
    | Take(target: Addr, next: Addr)                     // a response takes the callers of its target
    | Serve(h: nat)                                      // respForward serves the next caller in hand
    | GiveUp(target: Addr, next: Addr)                   // a search times out
    | CollectCalls(now: nat, expire: nat)
    | CollectRequests(now: nat, expire: nat)

  predicate Allowed(s: State, ev: Event) {
    match ev
    case AddLocal(c, _, _) => c < |s.chans| && s.chans[c].toAdd > 0
    case Serve(h) => h < |s.hands| && s.hands[h] != []
    case _ => true
  }

  /** The channel the next caller in hand is signalled on, if it is a local one. */
  function Signalled(s: State, it: Item): Option<nat> {
    if it.src == s.self then it.ch else None
  }

  function After(s: State, ev: Event): State
    requires Allowed(s, ev)
  {
    match ev
    case Open(target, n) => s.(chans := s.chans + [Chan(target, n, 0, n)])
    case AddLocal(c, next, now) =>
      var ch := s.chans[c];
      s.(chans := s.chans[c := ch.(toAdd := ch.toAdd - 1)],
         calls := AddCall(s.calls, ch.target, s.self, next, Some(c), now))
    case AddRemote(target, src, next, now) => s.(calls := AddCall(s.calls, target, src, next, None, now))
    case Take(target, next) =>
      s.(calls := TakeCalls(s.calls, target, next), hands := s.hands + [CallersOf(s.calls, target)])
    case Serve(h) =>
      var t := s.(hands := s.hands[h := s.hands[h][1..]]);
      var c := Signalled(s, s.hands[h][0]);
      if c.Some? && c.value < |s.chans| then Send(t, c.value) else t
    case GiveUp(target, next) => s.(calls := DropCalls(s.calls, target, next))
    case CollectCalls(now, expire) => s.(calls := s.calls.(resp := GcRes(s.calls.resp, now, expire)))
    case CollectRequests(now, expire) => s.(calls := s.calls.(reqs := GcReq(s.calls.reqs, now, expire)))
  }

  function Send(s: State, c: nat): State
    requires c < |s.chans|
  {
    s.(chans := s.chans[c := s.chans[c].(sent := s.chans[c].sent + 1)])
  }

  // ---------------------------------------------------------------- counting

  /** Callers in a list that wait on channel c. */
  function Count(l: seq<Item>, c: nat): nat {
    if l == [] then 0 else (if l[0].ch == Some(c) then 1 else 0) + Count(l[1..], c)
  }

  function InHands(hands: seq<seq<Item>>, c: nat): nat {
    if hands == [] then 0 else Count(hands[0], c) + InHands(hands[1..], c)
  }

  lemma {:induction false} CountAppend(l: seq<Item>, x: Item, c: nat)
    ensures Count(l + [x], c) == Count(l, c) + if x.ch == Some(c) then 1 else 0
  {
    if l == [] {
      assert [x][1..] == [] && [] + [x] == [x];
    } else {
      assert (l + [x])[1..] == l[1..] + [x];
      CountAppend(l[1..], x, c);
    }
  }

  lemma {:induction false} CountSuffix(l: seq<Item>, k: nat, c: nat)
    requires k <= |l|
    ensures Count(l[k..], c) <= Count(l, c)
  {
    if k > 0 {
      assert l[1..][k - 1..] == l[k..];
      CountSuffix(l[1..], k - 1, c);
    } else {
      assert l[0..] == l;
    }
  }

  lemma {:induction false} CountNone(l: seq<Item>, c: nat)
    requires forall it :: it in l ==> it.ch != Some(c)
    ensures Count(l, c) == 0
  {
    if l != [] { CountNone(l[1..], c); }
  }

  lemma {:induction false} InHandsAppend(hands: seq<seq<Item>>, l: seq<Item>, c: nat)
    ensures InHands(hands + [l], c) == InHands(hands, c) + Count(l, c)
  {
    if hands == [] {
      assert [l][1..] == [] && [] + [l] == [l];
    } else {
      assert (hands + [l])[1..] == hands[1..] + [l];
      InHandsAppend(hands[1..], l, c);
    }
  }

  lemma {:induction false} InHandsUpdate(hands: seq<seq<Item>>, h: nat, l: seq<Item>, c: nat)
    requires h < |hands|
    ensures InHands(hands[h := l], c) + Count(hands[h], c) == InHands(hands, c) + Count(l, c)
  {
    if h == 0 {
      assert hands[h := l][1..] == hands[1..];
    } else {
      assert hands[h := l][1..] == hands[1..][h - 1 := l];
      InHandsUpdate(hands[1..], h - 1, l, c);
    }
  }

  // ---------------------------------------------------------------- the invariant

  /** A caller with a channel is local, and its channel exists. */
  predicate ItemOk(self: Addr, chans: seq<Chan>, it: Item) {
    it.ch.Some? ==> it.src == self && it.ch.value < |chans|
  }

  /** The callers of a target wait on channels of searches for it. */
  predicate CallersOk(self: Addr, chans: seq<Chan>, a: Addr, l: seq<Item>) {
    forall it :: it in l ==> ItemOk(self, chans, it) && (it.ch.Some? ==> chans[it.ch.value].target == a)
  }

  ghost predicate Shape(s: State) {
    && (forall a :: a in s.calls.resp ==> CallersOk(s.self, s.chans, a, s.calls.resp[a]))
    && (forall h :: 0 <= h < |s.hands| ==> HandOk(s.self, s.chans, s.hands[h]))
  }

  predicate HandOk(self: Addr, chans: seq<Chan>, l: seq<Item>) {
    forall it :: it in l ==> ItemOk(self, chans, it)
  }

  /** Channels keep their targets, and more of them do no harm. */
  predicate MoreChans(chans: seq<Chan>, chans': seq<Chan>) {
    |chans| <= |chans'| && forall c :: 0 <= c < |chans| ==> chans'[c].target == chans[c].target
  }

  lemma ShapeKept(s: State, chans: seq<Chan>)
    requires Shape(s) && MoreChans(s.chans, chans)
    ensures Shape(s.(chans := chans))
  {
    forall a | a in s.calls.resp ensures CallersOk(s.self, chans, a, s.calls.resp[a]) {
      assert CallersOk(s.self, s.chans, a, s.calls.resp[a]);
    }
    forall h | 0 <= h < |s.hands| ensures HandOk(s.self, chans, s.hands[h]) {
      assert HandOk(s.self, s.chans, s.hands[h]);
    }
  }

  /** Values sent, callers waiting, callers in hand and calls still to come, for one channel. */
  function Claims(s: State, c: nat): nat
    requires c < |s.chans|
  {
    s.chans[c].sent + Count(CallersOf(s.calls, s.chans[c].target), c) + InHands(s.hands, c) + s.chans[c].toAdd
  }

  ghost predicate Inv(s: State) {
    Shape(s) && forall c :: 0 <= c < |s.chans| ==> Claims(s, c) <= s.chans[c].cap
  }

  // ---------------------------------------------------------------- one event at a time

  lemma OpenKeeps(s: State, target: Addr, n: nat)
    requires Inv(s)
    ensures Inv(After(s, Open(target, n)))
  {
    var s', k := After(s, Open(target, n)), |s.chans|;
    forall it | it in CallersOf(s.calls, target) ensures it.ch != Some(k) {
      assert CallersOk(s.self, s.chans, target, s.calls.resp[target]);
    }
    CountNone(CallersOf(s.calls, target), k);
    NoneInHands(s, k);
    forall c | 0 <= c < |s'.chans| ensures Claims(s', c) <= s'.chans[c].cap {
      if c < k { assert Claims(s', c) == Claims(s, c); }
    }
    ShapeKept(s, s'.chans);
  }

  lemma NoneInHands(s: State, c: nat)
    requires Shape(s) && c >= |s.chans|
    ensures InHands(s.hands, c) == 0
  {
    forall h | 0 <= h < |s.hands| ensures Count(s.hands[h], c) == 0 {
      assert HandOk(s.self, s.chans, s.hands[h]);
      CountNone(s.hands[h], c);
    }
    AllZero(s.hands, c);
  }

  lemma {:induction false} AllZero(hands: seq<seq<Item>>, c: nat)
    requires forall h :: 0 <= h < |hands| ==> Count(hands[h], c) == 0
    ensures InHands(hands, c) == 0
  {
    if hands != [] {
      assert forall h :: 0 <= h < |hands| - 1 ==> hands[1..][h] == hands[h + 1];
      AllZero(hands[1..], c);
    }
  }

  /** A call more: it counts for its own channel and for no other. */
  lemma AddCounts(calls: Calls, target: Addr, src: Addr, next: Addr, ch: Option<nat>, now: nat, a: Addr, c: nat)
    ensures Count(CallersOf(AddCall(calls, target, src, next, ch, now), a), c)
         == Count(CallersOf(calls, a), c) + if a == target && ch == Some(c) then 1 else 0
  {
    CountAppend(CallersOf(calls, target), Item(src, now, ch), c);
  }

  lemma AddLocalKeeps(s: State, c: nat, next: Addr, now: nat)
    requires Inv(s) && Allowed(s, AddLocal(c, next, now))
    ensures Inv(After(s, AddLocal(c, next, now)))
  {
    var s', target := After(s, AddLocal(c, next, now)), s.chans[c].target;
    forall d | 0 <= d < |s'.chans| ensures Claims(s', d) <= s'.chans[d].cap {
      AddCounts(s.calls, target, s.self, next, Some(c), now, s.chans[d].target, d);
      assert Claims(s, d) <= s.chans[d].cap;
    }
    ShapeKept(s, s'.chans);
    forall a | a in s'.calls.resp ensures CallersOk(s'.self, s'.chans, a, s'.calls.resp[a]) {
      assert a in s.calls.resp ==> CallersOk(s.self, s'.chans, a, s.calls.resp[a]);
    }
  }

  lemma AddRemoteKeeps(s: State, target: Addr, src: Addr, next: Addr, now: nat)
    requires Inv(s)
    ensures Inv(After(s, AddRemote(target, src, next, now)))
  {
    var s' := After(s, AddRemote(target, src, next, now));
    forall d | 0 <= d < |s'.chans| ensures Claims(s', d) <= s'.chans[d].cap {
      AddCounts(s.calls, target, src, next, None, now, s.chans[d].target, d);
      assert Claims(s, d) <= s.chans[d].cap;
    }
    forall a | a in s'.calls.resp ensures CallersOk(s'.self, s'.chans, a, s'.calls.resp[a]) {
      assert a in s.calls.resp ==> CallersOk(s.self, s.chans, a, s.calls.resp[a]);
    }
  }

  /** The callers of a target change hands; those of other targets are none of its channels. */
  lemma TakeKeeps(s: State, target: Addr, next: Addr)
    requires Inv(s)
    ensures Inv(After(s, Take(target, next)))
  {
    var s', l := After(s, Take(target, next)), CallersOf(s.calls, target);
    assert target in s.calls.resp ==> CallersOk(s.self, s.chans, target, s.calls.resp[target]);
    forall c | 0 <= c < |s'.chans| ensures Claims(s', c) <= s'.chans[c].cap {
      assert Claims(s, c) <= s.chans[c].cap;
      InHandsAppend(s.hands, l, c);
      if s.chans[c].target != target { CountNone(l, c); }
    }
    forall a | a in s'.calls.resp ensures CallersOk(s'.self, s'.chans, a, s'.calls.resp[a]) {
      assert CallersOk(s.self, s.chans, a, s.calls.resp[a]);
    }
  }

  lemma ServeKeeps(s: State, h: nat)
    requires Inv(s) && Allowed(s, Serve(h))
    ensures Inv(After(s, Serve(h)))
  {
    var s', it := After(s, Serve(h)), s.hands[h][0];
    assert HandOk(s.self, s.chans, s.hands[h]) && it in s.hands[h];
    forall c | 0 <= c < |s'.chans| ensures Claims(s', c) <= s'.chans[c].cap {
      assert Claims(s, c) <= s.chans[c].cap;
      InHandsUpdate(s.hands, h, s.hands[h][1..], c);
    }
    ShapeKept(s, s'.chans);
    assert forall x :: x in s.hands[h][1..] ==> x in s.hands[h];
  }

  /** Every list is a suffix of what it was, or gone: nothing is claimed anew. */
  ghost predicate OnlyLess(m: map<Addr, seq<Item>>, m': map<Addr, seq<Item>>) {
    forall a :: a in m' ==> a in m && exists k :: 0 <= k <= |m[a]| && m'[a] == m[a][k..]
  }

  lemma LessKeeps(s: State, calls: Calls)
    requires Inv(s) && OnlyLess(s.calls.resp, calls.resp)
    ensures Inv(s.(calls := calls))
  {
    var s' := s.(calls := calls);
    forall c | 0 <= c < |s'.chans| ensures Claims(s', c) <= s'.chans[c].cap {
      var a := s.chans[c].target;
      assert Claims(s, c) <= s.chans[c].cap;
      if a in calls.resp {
        var k :| 0 <= k <= |s.calls.resp[a]| && calls.resp[a] == s.calls.resp[a][k..];
        CountSuffix(s.calls.resp[a], k, c);
      }
    }
    forall a | a in calls.resp ensures CallersOk(s.self, s.chans, a, calls.resp[a]) {
      assert CallersOk(s.self, s.chans, a, s.calls.resp[a]);
    }
  }

  lemma DropIsLess(c: Calls, target: Addr, next: Addr)
    ensures OnlyLess(c.resp, DropCalls(c, target, next).resp)
  {
    forall a | a in DropCalls(c, target, next).resp
      ensures exists k :: 0 <= k <= |c.resp[a]| && c.resp[a] == c.resp[a][k..]
    {
      assert c.resp[a] == c.resp[a][0..];
    }
  }

  lemma GcIsLess(m: map<Addr, seq<Item>>, now: nat, expire: nat)
    ensures OnlyLess(m, GcRes(m, now, expire))
  {
    forall a | a in GcRes(m, now, expire)
      ensures exists k :: 0 <= k <= |m[a]| && GcRes(m, now, expire)[a] == m[a][k..]
    {
      assert GcList(m[a], now, expire) == m[a][FirstFresh(m[a], now, expire)..];
    }
  }

  lemma SameIsLess(m: map<Addr, seq<Item>>)
    ensures OnlyLess(m, m)
  {
    forall a | a in m ensures exists k :: 0 <= k <= |m[a]| && m[a] == m[a][k..] { assert m[a] == m[a][0..]; }
  }

  lemma EventKeeps(s: State, ev: Event)
    requires Inv(s) && Allowed(s, ev)
    ensures Inv(After(s, ev))
  {
    match ev
    case Open(target, n) => OpenKeeps(s, target, n);
    case AddLocal(c, next, now) => AddLocalKeeps(s, c, next, now);
    case AddRemote(target, src, next, now) => AddRemoteKeeps(s, target, src, next, now);
    case Take(target, next) => TakeKeeps(s, target, next);
    case Serve(h) => ServeKeeps(s, h);
    case GiveUp(target, next) =>
      DropIsLess(s.calls, target, next);
      LessKeeps(s, After(s, ev).calls);
    case CollectCalls(now, expire) =>
      GcIsLess(s.calls.resp, now, expire);
      LessKeeps(s, After(s, ev).calls);
    case CollectRequests(now, expire) =>
      SameIsLess(s.calls.resp);
      LessKeeps(s, After(s, ev).calls);
  }

  // ---------------------------------------------------------------- every run

  function Fresh(self: Addr): State {
    State(self, Calls(map[], map[]), [], [])
  }

  function Run(self: Addr, evs: seq<Event>): Option<State> {
    if evs == [] then Some(Fresh(self))
    else match Run(self, Init(evs))
      case None => None
      case Some(s) => if Allowed(s, Last(evs)) then Some(After(s, Last(evs))) else None
  }

  lemma {:induction false} RunInv(self: Addr, evs: seq<Event>)
    requires Run(self, evs).Some?
    ensures Inv(Run(self, evs).value)
    decreases |evs|
  {
    if evs != [] {
      RunInv(self, Init(evs));
      EventKeeps(Run(self, Init(evs)).value, Last(evs));
    }
  }

  /** In every run, when respForward is about to signal a channel, the channel exists and has
      seen fewer values than its buffer holds, whether or not any was received. */
  lemma SendsNeverBlock(self: Addr, evs: seq<Event>, h: nat)
    requires Run(self, evs).Some? && Allowed(Run(self, evs).value, Serve(h))
    ensures var s := Run(self, evs).value;
            var c := Signalled(s, s.hands[h][0]);
            c.Some? ==> c.value < |s.chans| && s.chans[c.value].sent < s.chans[c.value].cap
  {
    RunInv(self, evs);
    var s := Run(self, evs).value;
    var it := s.hands[h][0];
    assert HandOk(s.self, s.chans, s.hands[h]) && it in s.hands[h];
    if Signalled(s, it).Some? {
      var c := it.ch.value;
      assert Claims(s, c) <= s.chans[c].cap;
      InHandsUpdate(s.hands, h, s.hands[h][1..], c);
    }
  }

  /** A search is signalled at most once per next hop it registered. */
  lemma SignalsPerSearch(self: Addr, evs: seq<Event>, c: nat)
    requires Run(self, evs).Some? && c < |Run(self, evs).value.chans|
    ensures var ch := Run(self, evs).value.chans[c]; ch.sent + ch.toAdd <= ch.cap
  {
    RunInv(self, evs);
    assert Claims(Run(self, evs).value, c) <= Run(self, evs).value.chans[c].cap;
  }

  // ---------------------------------------------------------------- the handlers as events

  /** The registration loop of a search, one next hop after another. */
  function AddAll(s: State, c: nat, next: seq<Addr>, now: nat): (r: State)
    requires c < |s.chans| && s.chans[c].toAdd >= |next|
    ensures |r.chans| == |s.chans| && r.self == s.self && r.chans[c].target == s.chans[c].target
    ensures r.chans[c].toAdd == s.chans[c].toAdd - |next|
  {
    if next == [] then s else After(AddAll(s, c, Init(next), now), AddLocal(c, Last(next), now))
  }

  /** What FindRoute does to the table is what its events do. */
  lemma {:induction false} SearchIsAdds(s: State, node: RouteNet.Node, c: nat, next: seq<Addr>, now: nat,
      paths: seq<Items>)
    requires c < |s.chans| && s.chans[c].toAdd >= |next| && node.calls == s.calls
    ensures var call := RouteNet.Call(s.self, s.chans[c].target, Some(c), now);
            RouteNet.Forward(s.self, node, next, call, paths).node.calls == AddAll(s, c, next, now).calls
  {
    if next != [] { SearchIsAdds(s, node, c, Init(next), now, paths); }
  }

  /** respForward's loop over the list it has in hand. */
  function ServeAll(s: State, h: nat): State
    requires h < |s.hands|
    decreases |s.hands[h]|
  {
    if s.hands[h] == [] then s else ServeAll(After(s, Serve(h)), h)
  }

  /** It leaves the table alone and signals what the handler of the network model signals. */
  lemma {:induction false} ServesTheSignals(s: State, h: nat, c: nat)
    requires h < |s.hands| && c < |s.chans| && HandOk(s.self, s.chans, s.hands[h])
    ensures var t := ServeAll(s, h);
            && t.calls == s.calls && c < |t.chans|
            && t.chans[c].sent == s.chans[c].sent + multiset(RouteNet.Signals(s.self, s.hands[h]))[c]
    decreases |s.hands[h]|
  {
    var l := s.hands[h];
    if l != [] {
      assert l[0] in l && forall x :: x in l[1..] ==> x in l;
      var t := After(s, Serve(h));
      assert HandOk(s.self, t.chans, l[1..]);
      ServesTheSignals(t, h, c);
      OneSignalMore(s.self, l, c);
    }
  }

  lemma OneSignalMore(self: Addr, l: seq<Item>, c: nat)
    requires l != []
    ensures multiset(RouteNet.Signals(self, l))[c]
         == multiset(RouteNet.Signals(self, l[1..]))[c] + if l[0].src == self && l[0].ch == Some(c) then 1 else 0
  {
    var rest := RouteNet.Signals(self, l[1..]);
    if l[0].src == self && l[0].ch.Some? {
      assert multiset([l[0].ch.value] + rest) == multiset{l[0].ch.value} + multiset(rest);
    } else {
      assert [] + rest == rest;
    }
  }

  /** A response is a take and the serving of the list taken. */
  lemma ResponseIsTakeAndServe(cfg: RouteNet.Config, s: State, node: RouteNet.Node, m: RouteNet.Msg, now: nat, c: nat)
    requires cfg.alpha >= 1 && m.Resp? && node.calls == s.calls && Inv(s) && c < |s.chans|
    requires var paths := RouteNet.Fitting(cfg, m.paths);
             paths != [] && forall p :: p in paths ==> s.self !in p
    ensures var e := RouteNet.OnResp(cfg, s.self, node, m, now);
            var t := ServeAll(After(s, Take(m.dest, m.from)), |s.hands|);
            && t.calls == e.node.calls && c < |t.chans|
            && t.chans[c].sent == s.chans[c].sent + multiset(e.signals)[c]
  {
    TakeKeeps(s, m.dest, m.from);
    ServesTheSignals(After(s, Take(m.dest, m.from)), |s.hands|, c);
  }

  // ---------------------------------------------------------------- the buffer is not too large

  lemma {:induction false} AddAllCounts(s: State, c: nat, next: seq<Addr>, now: nat)
    requires Inv(s) && c < |s.chans| && s.chans[c].toAdd >= |next|
    ensures var r, target := AddAll(s, c, next, now), s.chans[c].target;
            && Inv(r) && r.hands == s.hands && r.chans[c].sent == s.chans[c].sent && r.chans[c].cap == s.chans[c].cap
            && Count(CallersOf(r.calls, target), c) == Count(CallersOf(s.calls, target), c) + |next|
  {
    if next != [] {
      AddAllCounts(s, c, Init(next), now);
      var b := AddAll(s, c, Init(next), now);
      AddLocalKeeps(b, c, Last(next), now);
      CountAppend(CallersOf(b.calls, b.chans[c].target), Item(s.self, now, Some(c)), c);
    }
  }

  lemma {:induction false} SignalsCount(self: Addr, l: seq<Item>, c: nat)
    requires forall it :: it in l && it.ch == Some(c) ==> it.src == self
    ensures multiset(RouteNet.Signals(self, l))[c] == Count(l, c)
  {
    if l != [] {
      assert l[0] in l && forall it :: it in l[1..] ==> it in l;
      SignalsCount(self, l[1..], c);
      OneSignalMore(self, l, c);
    }
  }

  /** One answer signals a search once for each next hop: with nothing received, the buffer made
      for them is full. */
  lemma BufferFills(self: Addr, target: Addr, next: seq<Addr>, now: nat, v: Addr)
    ensures var s := AddAll(After(Fresh(self), Open(target, |next|)), 0, next, now);
            var t := ServeAll(After(s, Take(target, v)), 0);
            s.chans[0].cap == |next| && t.chans != [] && t.chans[0].sent == |next|
  {
    var s1 := After(Fresh(self), Open(target, |next|));
    RunInv(self, []);
    OpenKeeps(Fresh(self), target, |next|);
    AddAllCounts(s1, 0, next, now);
    var s := AddAll(s1, 0, next, now);
    TakeKeeps(s, target, v);
    var taken := After(s, Take(target, v));
    assert taken.hands == [CallersOf(s.calls, target)];
    assert HandOk(taken.self, taken.chans, taken.hands[0]);
    ServesTheSignals(taken, 0, 0);
    SignalsCount(self, taken.hands[0], 0);
  }
}
