/** Reach, at-most-once and termination of a flood. */
module MulticastProof {
  import opened Basics
  import opened Multicast

  // ---------------------------------------------------------------- the invariant

  /** The message has reached `u`, or is on its way. */
  ghost predicate Covered(net: Net, u: Addr, k: Key)
    requires u in net.nodes
  {
    k in net.nodes[u].mc || exists m :: m in net.inflight && m.to == u && m.info.key == k
  }

  ghost predicate MsgOk(topo: Topo, net: Net, m: Msg) {
    && m.to in net.nodes && m.from in net.nodes
    && m.info.key in net.gids && net.gids[m.info.key] == m.info.gid
    && m.info.key in net.nodes[m.from].mc
  }

  ghost predicate NodeOk(topo: Topo, net: Net, v: Addr, k: Key)
    requires v in net.nodes
  {
    var n := net.nodes[v];
    && (k in n.om ==> k in n.mc)
    && (k in n.mc ==> k in net.gids && (v != k.origin ==> k in n.om))
    && (k in n.om && v != k.origin && k in net.gids && Joined(topo, v, net.gids[k]) ==> (v, k) in net.notified)
    && ((v, k) in net.notified ==> k in n.om && v != k.origin && k in net.gids && Joined(topo, v, net.gids[k]))
    && ((v, k) in net.forwarded <==> k in n.mc)
  }

  /** Every group peer of a node that forwarded the message is covered. */
  ghost predicate Reaches(topo: Topo, net: Net, v: Addr, k: Key)
    requires v in net.nodes
  {
    k in net.nodes[v].mc && k in net.gids ==>
      forall u :: u in Peers(topo, v, net.gids[k]) && u in net.nodes ==> Covered(net, u, k)
  }

  ghost predicate Inv(topo: Topo, net: Net) {
    && ValidTopo(topo)
    && (forall v :: v in net.nodes <==> v in topo.nodes)
    && (forall m :: m in net.inflight ==> MsgOk(topo, net, m))
    && (forall k :: k in net.gids ==>
        k.origin in net.nodes && k.id <= net.nodes[k.origin].msgSeq && k in net.nodes[k.origin].mc)
    && (forall v, k {:trigger NodeOk(topo, net, v, k)} :: v in net.nodes ==> NodeOk(topo, net, v, k))
    && (forall v, k {:trigger Reaches(topo, net, v, k)} :: v in net.nodes ==> Reaches(topo, net, v, k))
    && NoDup(net.notified) && NoDup(net.forwarded)
    && (forall e :: e in net.notified || e in net.forwarded ==> e.0 in net.nodes)
  }

  // ---------------------------------------------------------------- delivery

  ghost predicate Delivering(topo: Topo, net: Net, i: nat, pick: seq<Addr>) {
    Inv(topo, net) && Enabled(topo, net, Deliver(i, pick))
  }

  /** What one delivery changes: the receiver, the message, and new messages of its key. */
  lemma DeliverEffect(topo: Topo, net: Net, i: nat, pick: seq<Addr>)
    requires Delivering(topo, net, i, pick)
    ensures var net', m := Apply(topo, net, Deliver(i, pick)), net.inflight[i];
            && MsgOk(topo, net, m) && net'.gids == net.gids && net'.nodes.Keys == net.nodes.Keys
            && (forall v :: v in net.nodes && v != m.to ==> net'.nodes[v] == net.nodes[v])
            && net'.nodes[m.to] == net.nodes[m.to].(mc := net.nodes[m.to].mc + {m.info.key},
                om := net.nodes[m.to].om + {m.info.key})
            && (forall x :: x in net.inflight && x != m ==> x in net'.inflight)
            && (forall x :: x in net'.inflight ==>
                x in net.inflight || (x.from == m.to && x.info == m.info && x.to in topo.nodes))
  {
    var net', m := Apply(topo, net, Deliver(i, pick)), net.inflight[i];
    assert m in net.inflight;
    assert NodeOk(topo, net, m.to, m.info.key);
    var rest := net.inflight[..i] + net.inflight[i + 1..];
    forall x | x in net.inflight && x != m ensures x in rest {
      var j :| 0 <= j < |net.inflight| && net.inflight[j] == x;
      assert x == if j < i then rest[j] else rest[j - 1];
    }
    var o := Receive(topo, m.to, net.nodes[m.to], m.from, m.info, pick);
    forall x | x in Sends(m.to, o.out, m.info) ensures x.to in topo.nodes {
      assert x.to in o.out;
    }
  }

  lemma DeliverNode(topo: Topo, net: Net, i: nat, pick: seq<Addr>, v: Addr, k: Key)
    requires Delivering(topo, net, i, pick) && v in net.nodes
    ensures v in Apply(topo, net, Deliver(i, pick)).nodes && NodeOk(topo, Apply(topo, net, Deliver(i, pick)), v, k)
  {
    DeliverEffect(topo, net, i, pick);
    var m := net.inflight[i];
    assert NodeOk(topo, net, v, k) && NodeOk(topo, net, m.to, m.info.key);
  }

  lemma DeliverCovers(topo: Topo, net: Net, i: nat, pick: seq<Addr>, u: Addr, k: Key)
    requires Delivering(topo, net, i, pick) && u in net.nodes && Covered(net, u, k)
    ensures u in Apply(topo, net, Deliver(i, pick)).nodes && Covered(Apply(topo, net, Deliver(i, pick)), u, k)
  {
    DeliverEffect(topo, net, i, pick);
  }

  lemma DeliverReaches(topo: Topo, net: Net, i: nat, pick: seq<Addr>, v: Addr, k: Key)
    requires Delivering(topo, net, i, pick) && v in net.nodes
    ensures v in Apply(topo, net, Deliver(i, pick)).nodes && Reaches(topo, Apply(topo, net, Deliver(i, pick)), v, k)
  {
    DeliverEffect(topo, net, i, pick);
    var net', m := Apply(topo, net, Deliver(i, pick)), net.inflight[i];
    if k in net'.nodes[v].mc && k in net'.gids {
      forall u | u in Peers(topo, v, net.gids[k]) && u in net.nodes ensures Covered(net', u, k) {
        if k in net.nodes[v].mc {
          assert Reaches(topo, net, v, k);
          DeliverCovers(topo, net, i, pick, u, k);
        } else {
          NewForwarderSends(topo, net, i, pick, u);
        }
      }
    }
  }

  /** A node that forwards sends to every group peer but the one it received from. */
  lemma NewForwarderSends(topo: Topo, net: Net, i: nat, pick: seq<Addr>, u: Addr)
    requires Delivering(topo, net, i, pick) && u in net.nodes
    requires var m := net.inflight[i]; m.info.key !in net.nodes[m.to].mc && u in Peers(topo, m.to, m.info.gid)
    ensures u in Apply(topo, net, Deliver(i, pick)).nodes
        && Covered(Apply(topo, net, Deliver(i, pick)), u, net.inflight[i].info.key)
  {
    DeliverEffect(topo, net, i, pick);
    var net', m := Apply(topo, net, Deliver(i, pick)), net.inflight[i];
    assert NodeOk(topo, net, m.to, m.info.key);
    if u != m.from {
      var o := Receive(topo, m.to, net.nodes[m.to], m.from, m.info, pick);
      assert u in o.out;
      var j :| 0 <= j < |o.out| && o.out[j] == u;
      assert Sends(m.to, o.out, m.info)[j] in net'.inflight;
    }
  }

  lemma DeliverLogs(topo: Topo, net: Net, i: nat, pick: seq<Addr>)
    requires Delivering(topo, net, i, pick)
    ensures var net' := Apply(topo, net, Deliver(i, pick));
            && NoDup(net'.notified) && NoDup(net'.forwarded)
            && forall e :: e in net'.notified || e in net'.forwarded ==> e.0 in net'.nodes
  {
    DeliverEffect(topo, net, i, pick);
    var m := net.inflight[i];
    assert NodeOk(topo, net, m.to, m.info.key);
  }

  lemma DeliverKeeps(topo: Topo, net: Net, i: nat, pick: seq<Addr>)
    requires Delivering(topo, net, i, pick)
    ensures Inv(topo, Apply(topo, net, Deliver(i, pick)))
  {
    DeliverEffect(topo, net, i, pick);
    DeliverLogs(topo, net, i, pick);
    var net', m := Apply(topo, net, Deliver(i, pick)), net.inflight[i];
    forall x | x in net'.inflight ensures MsgOk(topo, net', x) {
      if x in net.inflight { assert MsgOk(topo, net, x); }
    }
    forall v, k | v in net'.nodes ensures NodeOk(topo, net', v, k) {
      DeliverNode(topo, net, i, pick, v, k);
    }
    forall v, k | v in net'.nodes ensures Reaches(topo, net', v, k) {
      DeliverReaches(topo, net, i, pick, v, k);
    }
  }

  // ---------------------------------------------------------------- a new message

  ghost predicate Originating(topo: Topo, net: Net, st: Step) {
    Inv(topo, net) && st.Originate? && Enabled(topo, net, st)
  }

  function NewKey(net: Net, st: Step): Key
    requires st.Originate? && st.v in net.nodes
  {
    Key(st.v, net.nodes[st.v].msgSeq + 1)
  }

  lemma OriginateEffect(topo: Topo, net: Net, st: Step)
    requires Originating(topo, net, st)
    ensures var net', k, v := Apply(topo, net, st), NewKey(net, st), st.v;
            && k !in net.gids && (forall u :: u in net.nodes ==> k !in net.nodes[u].mc && k !in net.nodes[u].om)
            && net'.gids == net.gids[k := st.gid] && net'.nodes.Keys == net.nodes.Keys
            && (forall u :: u in net.nodes && u != v ==> net'.nodes[u] == net.nodes[u])
            && net'.nodes[v] == net.nodes[v].(mc := net.nodes[v].mc + {k}, msgSeq := net.nodes[v].msgSeq + 1)
            && net'.inflight == net.inflight + Sends(v, Targets(topo, v, st.gid, [], st.pick), Info(k, st.gid))
            && net'.notified == net.notified && net'.forwarded == net.forwarded + [(v, k)]
            && (forall u :: u in Targets(topo, v, st.gid, [], st.pick) ==> u in topo.nodes)
  {
    var k := NewKey(net, st);
    forall u | u in net.nodes ensures k !in net.nodes[u].mc && k !in net.nodes[u].om {
      assert NodeOk(topo, net, u, k);
    }
  }

  lemma OriginateReaches(topo: Topo, net: Net, st: Step, v: Addr, k: Key)
    requires Originating(topo, net, st) && v in net.nodes
    ensures v in Apply(topo, net, st).nodes && Reaches(topo, Apply(topo, net, st), v, k)
  {
    OriginateEffect(topo, net, st);
    var net', k0 := Apply(topo, net, st), NewKey(net, st);
    if k in net'.nodes[v].mc && k in net'.gids {
      forall u | u in Peers(topo, v, net'.gids[k]) && u in net'.nodes ensures Covered(net', u, k) {
        if k == k0 {
          var out := Targets(topo, v, st.gid, [], st.pick);
          assert u in out;
          var j :| 0 <= j < |out| && out[j] == u;
          assert Sends(v, out, Info(k, st.gid))[j] in net'.inflight;
        } else {
          assert Reaches(topo, net, v, k);
          assert Covered(net, u, k);
        }
      }
    }
  }

  lemma OriginateNode(topo: Topo, net: Net, st: Step, v: Addr, k: Key)
    requires Originating(topo, net, st) && v in net.nodes
    ensures v in Apply(topo, net, st).nodes && NodeOk(topo, Apply(topo, net, st), v, k)
  {
    OriginateEffect(topo, net, st);
    assert NodeOk(topo, net, v, k);
  }

  lemma OriginateKeeps(topo: Topo, net: Net, st: Step)
    requires Originating(topo, net, st)
    ensures Inv(topo, Apply(topo, net, st))
  {
    OriginateEffect(topo, net, st);
    var net' := Apply(topo, net, st);
    forall x | x in net'.inflight ensures MsgOk(topo, net', x) {
      if x in net.inflight { assert MsgOk(topo, net, x); }
    }
    forall v, k | v in net'.nodes ensures NodeOk(topo, net', v, k) {
      OriginateNode(topo, net, st, v, k);
    }
    forall v, k | v in net'.nodes ensures Reaches(topo, net', v, k) {
      OriginateReaches(topo, net, st, v, k);
    }
    assert NoDup(net'.forwarded) by { assert NodeOk(topo, net, st.v, NewKey(net, st)); }
  }

  lemma {:induction false} FloodInvariant(topo: Topo, net: Net, steps: seq<Step>)
    requires Initial(topo, net) && ValidRun(topo, net, steps)
    ensures Inv(topo, Exec(topo, net, steps))
    decreases |steps|
  {
    if steps != [] {
      var before := steps[..|steps| - 1];
      FloodInvariant(topo, net, before);
      var st := steps[|steps| - 1];
      match st
      case Originate(_, _, _) => OriginateKeeps(topo, Exec(topo, net, before), st);
      case Deliver(i, pick) => DeliverKeeps(topo, Exec(topo, net, before), i, pick);
    }
  }

  // ---------------------------------------------------------------- at most once, and everywhere

  /** In every run each node notifies and forwards a message at most once, and only nodes that
      joined the group notify, the origin never. */
  lemma AtMostOnce(topo: Topo, net: Net, steps: seq<Step>)
    requires Initial(topo, net) && ValidRun(topo, net, steps)
    ensures var s := Exec(topo, net, steps);
            && NoDup(s.notified) && NoDup(s.forwarded)
            && forall e :: e in s.notified ==> e.0 != e.1.origin && e.1 in s.gids && Joined(topo, e.0, s.gids[e.1])
  {
    FloodInvariant(topo, net, steps);
    var s := Exec(topo, net, steps);
    forall e | e in s.notified ensures e.0 != e.1.origin && e.1 in s.gids && Joined(topo, e.0, s.gids[e.1]) {
      assert NodeOk(topo, s, e.0, e.1);
    }
  }

  /** Each node on the path knows the group and has the next one as a group peer. */
  ghost predicate GroupPath(topo: Topo, gid: nat, path: seq<Addr>) {
    path != [] && forall i :: 0 <= i < |path| - 1 ==> path[i + 1] in Peers(topo, path[i], gid)
  }

  ghost predicate Quiet(net: Net, k: Key) {
    forall m :: m in net.inflight ==> m.info.key != k
  }

  lemma {:induction false} PathIsForwarded(topo: Topo, net: Net, k: Key, path: seq<Addr>)
    requires Inv(topo, net) && k in net.gids && Quiet(net, k)
    requires GroupPath(topo, net.gids[k], path) && path[0] == k.origin
    ensures var v := path[|path| - 1]; v in net.nodes && k in net.nodes[v].mc
    decreases |path|
  {
    if |path| > 1 {
      var before := path[..|path| - 1];
      PathIsForwarded(topo, net, k, before);
      var v := before[|before| - 1];
      assert path[|path| - 2 + 1] in Peers(topo, v, net.gids[k]);
      assert Reaches(topo, net, v, k);
    }
  }

  /** When no copy of a message is in flight, every node reachable from its origin over
      group-peer links has handled it, and notified if it joined the group. */
  lemma ReachableNodesHandle(topo: Topo, net: Net, steps: seq<Step>, k: Key, path: seq<Addr>)
    requires Initial(topo, net) && ValidRun(topo, net, steps)
    requires var s := Exec(topo, net, steps); k in s.gids && Quiet(s, k) && GroupPath(topo, s.gids[k], path)
    requires path[0] == k.origin
    ensures var s, v := Exec(topo, net, steps), path[|path| - 1];
            && v in s.nodes && k in s.nodes[v].mc && (v, k) in s.forwarded
            && (v != k.origin ==> k in s.nodes[v].om && (Joined(topo, v, s.gids[k]) ==> (v, k) in s.notified))
  {
    FloodInvariant(topo, net, steps);
    var s, v := Exec(topo, net, steps), path[|path| - 1];
    PathIsForwarded(topo, s, k, path);
    assert NodeOk(topo, s, v, k);
  }

  // ---------------------------------------------------------------- the flood ends

  function Fanout(topo: Topo, v: Addr, gid: nat): nat {
    if Peers(topo, v, gid) == [] then topo.limit else |Peers(topo, v, gid)|
  }

  function CopiesOf(q: seq<Msg>, k: Key): nat {
    if q == [] then 0 else (if q[0].info.key == k then 1 else 0) + CopiesOf(q[1..], k)
  }

  lemma {:induction false} CopiesConcat(a: seq<Msg>, b: seq<Msg>, k: Key)
    ensures CopiesOf(a + b, k) == CopiesOf(a, k) + CopiesOf(b, k)
  {
    if a == [] {
      assert a + b == b;
    } else {
      assert (a + b)[1..] == a[1..] + b;
      CopiesConcat(a[1..], b, k);
    }
  }

  lemma {:induction false} CopiesBound(q: seq<Msg>, k: Key)
    ensures CopiesOf(q, k) <= |q| && ((forall m :: m in q ==> m.info.key != k) ==> CopiesOf(q, k) == 0)
  {
    if q != [] { CopiesBound(q[1..], k); }
  }

  /** The sends still possible at nodes that have not forwarded the message. */
  function Unspent(topo: Topo, net: Net, vs: seq<Addr>, k: Key, gid: nat): nat {
    if vs == [] then 0
    else
      var head := if vs[0] in net.nodes && k in net.nodes[vs[0]].mc then 0 else Fanout(topo, vs[0], gid);
      head + Unspent(topo, net, vs[1..], k, gid)
  }

  /** Forwarding at `v` uses up its share. */
  lemma {:induction false} UnspentDrops(topo: Topo, net: Net, net': Net, vs: seq<Addr>, k: Key, gid: nat, v: Addr)
    requires v in net.nodes && v in net'.nodes && net'.nodes.Keys == net.nodes.Keys
    requires forall u :: u in net.nodes && k in net.nodes[u].mc ==> k in net'.nodes[u].mc
    ensures Unspent(topo, net', vs, k, gid) <= Unspent(topo, net, vs, k, gid)
    ensures v in vs && k !in net.nodes[v].mc && k in net'.nodes[v].mc ==>
              Unspent(topo, net', vs, k, gid) + Fanout(topo, v, gid) <= Unspent(topo, net, vs, k, gid)
  {
    if vs != [] { UnspentDrops(topo, net, net', vs[1..], k, gid, v); }
  }

  /** Deliveries of a message that can still happen. */
  function Budget(topo: Topo, net: Net, k: Key): nat
    requires k in net.gids
  {
    CopiesOf(net.inflight, k) + Unspent(topo, net, topo.nodes, k, net.gids[k])
  }

  lemma RemoveCopies(q: seq<Msg>, i: nat, k: Key)
    requires i < |q|
    ensures CopiesOf(q, k) == CopiesOf(q[..i] + q[i + 1..], k) + (if q[i].info.key == k then 1 else 0)
  {
    assert q == q[..i] + ([q[i]] + q[i + 1..]);
    CopiesConcat(q[..i], [q[i]] + q[i + 1..], k);
    CopiesConcat([q[i]], q[i + 1..], k);
    CopiesConcat(q[..i], q[i + 1..], k);
  }

  lemma TargetsBounded(topo: Topo, v: Addr, gid: nat, skip: seq<Addr>, pick: seq<Addr>)
    requires |pick| <= topo.limit
    ensures |Targets(topo, v, gid, skip, pick)| <= Fanout(topo, v, gid)
  {
  }

  lemma DeliverSpends(topo: Topo, net: Net, i: nat, pick: seq<Addr>, k: Key)
    requires Delivering(topo, net, i, pick) && k in net.gids
    ensures k in Apply(topo, net, Deliver(i, pick)).gids
    ensures Budget(topo, Apply(topo, net, Deliver(i, pick)), k)
        + (if net.inflight[i].info.key == k then 1 else 0) <= Budget(topo, net, k)
  {
    DeliverEffect(topo, net, i, pick);
    var net', m := Apply(topo, net, Deliver(i, pick)), net.inflight[i];
    var o := Receive(topo, m.to, net.nodes[m.to], m.from, m.info, pick);
    var rest, sends := net.inflight[..i] + net.inflight[i + 1..], Sends(m.to, o.out, m.info);
    RemoveCopies(net.inflight, i, k);
    CopiesConcat(rest, sends, k);
    CopiesBound(sends, k);
    UnspentDrops(topo, net, net', topo.nodes, k, net.gids[k], m.to);
    TargetsBounded(topo, m.to, m.info.gid, [m.from], pick);
    assert NodeOk(topo, net, m.to, m.info.key);
  }

  lemma OriginateSpendsNothing(topo: Topo, net: Net, st: Step, k: Key)
    requires Originating(topo, net, st) && k in net.gids
    ensures k in Apply(topo, net, st).gids && Apply(topo, net, st).gids[k] == net.gids[k]
    ensures Budget(topo, Apply(topo, net, st), k) <= Budget(topo, net, k)
  {
    OriginateEffect(topo, net, st);
    var net' := Apply(topo, net, st);
    var sends := Sends(st.v, Targets(topo, st.v, st.gid, [], st.pick), Info(NewKey(net, st), st.gid));
    CopiesConcat(net.inflight, sends, k);
    CopiesBound(sends, k);
    UnspentDrops(topo, net, net', topo.nodes, k, net.gids[k], st.v);
  }

  /** How often a message is delivered in a run. */
  ghost function Deliveries(topo: Topo, net: Net, steps: seq<Step>, k: Key): nat
    requires ValidRun(topo, net, steps)
    decreases |steps|
  {
    if steps == [] then 0
    else
      var before := steps[..|steps| - 1];
      var st := steps[|steps| - 1];
      Deliveries(topo, net, before, k)
          + (if st.Deliver? && Exec(topo, net, before).inflight[st.i].info.key == k then 1 else 0)
  }

  /** Every flood ends: from any point of any run, a message is delivered at most as
      often as its budget says, whatever else is sent meanwhile. */
  lemma {:induction false} FloodEnds(topo: Topo, net: Net, steps: seq<Step>, k: Key)
    requires Inv(topo, net) && k in net.gids && ValidRun(topo, net, steps)
    ensures Inv(topo, Exec(topo, net, steps)) && k in Exec(topo, net, steps).gids
    ensures Deliveries(topo, net, steps, k) + Budget(topo, Exec(topo, net, steps), k) <= Budget(topo, net, k)
    decreases |steps|
  {
    if steps != [] {
      var before := steps[..|steps| - 1];
      FloodEnds(topo, net, before, k);
      var s, st := Exec(topo, net, before), steps[|steps| - 1];
      match st
      case Originate(_, _, _) => OriginateKeeps(topo, s, st); OriginateSpendsNothing(topo, s, st, k);
      case Deliver(i, pick) => DeliverKeeps(topo, s, i, pick); DeliverSpends(topo, s, i, pick, k);
    }
  }
}
