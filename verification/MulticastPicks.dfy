/** Whom a node chooses to send a message to: its group peers, or the nodes picked where it
    has none. All of them get it. */
module MulticastPicks {
  import opened Basics
  import opened Multicast
  import opened MulticastProof

  function Wanted(topo: Topo, v: Addr, gid: nat, pick: seq<Addr>): seq<Addr> {
    if Peers(topo, v, gid) == [] then pick else Peers(topo, v, gid)
  }

  /** Whoever is wanted when a node first sees a message has it, or a copy is on its way. */
  lemma DeliverSends(topo: Topo, net: Net, i: nat, pick: seq<Addr>, u: Addr)
    requires Delivering(topo, net, i, pick) && u in net.nodes
    requires var m := net.inflight[i]; m.info.key !in net.nodes[m.to].mc && u in Wanted(topo, m.to, m.info.gid, pick)
    ensures u in Apply(topo, net, Deliver(i, pick)).nodes
        && Covered(Apply(topo, net, Deliver(i, pick)), u, net.inflight[i].info.key)
  {
    DeliverEffect(topo, net, i, pick);
    var net', m := Apply(topo, net, Deliver(i, pick)), net.inflight[i];
    assert NodeOk(topo, net, m.to, m.info.key);
    if u != m.from {
      var o := Receive(topo, m.to, net.nodes[m.to], m.from, m.info, pick);
      assert u in o.out;
      var j :| 0 <= j < |o.out| && o.out[j] == u;
      assert Sends(m.to, o.out, m.info)[j] in net'.inflight;
    }
  }

  lemma OriginateSends(topo: Topo, net: Net, st: Step, u: Addr)
    requires Originating(topo, net, st) && u in net.nodes && u in Wanted(topo, st.v, st.gid, st.pick)
    ensures u in Apply(topo, net, st).nodes && Covered(Apply(topo, net, st), u, NewKey(net, st))
  {
    OriginateEffect(topo, net, st);
    var out := Targets(topo, st.v, st.gid, [], st.pick);
    assert u in out;
    var j :| 0 <= j < |out| && out[j] == u;
    assert Sends(st.v, out, Info(NewKey(net, st), st.gid))[j] in Apply(topo, net, st).inflight;
  }

  lemma OriginateCovers(topo: Topo, net: Net, st: Step, u: Addr, k: Key)
    requires Originating(topo, net, st) && u in net.nodes && Covered(net, u, k)
    ensures u in Apply(topo, net, st).nodes && Covered(Apply(topo, net, st), u, k)
  {
    OriginateEffect(topo, net, st);
  }

  // ---------------------------------------------------------------- every run

  /** In this step `v` first sees the message, and `u` is wanted. */
  ghost predicate ChoseNow(topo: Topo, net: Net, st: Step, v: Addr, u: Addr, k: Key)
    requires Enabled(topo, net, st)
  {
    match st
    case Originate(w, gid, pick) => v == w && k == NewKey(net, st) && u in Wanted(topo, v, gid, pick)
    case Deliver(i, pick) =>
      var m := net.inflight[i];
      v == m.to && k == m.info.key && k !in net.nodes[v].mc && u in Wanted(topo, v, m.info.gid, pick)
  }

  ghost predicate Chose(topo: Topo, net: Net, steps: seq<Step>, v: Addr, u: Addr, k: Key)
    requires ValidRun(topo, net, steps)
    decreases |steps|
  {
    steps != [] &&
    var before, st := steps[..|steps| - 1], steps[|steps| - 1];
    Chose(topo, net, before, v, u, k) || ChoseNow(topo, Exec(topo, net, before), st, v, u, k)
  }

  lemma {:induction false} ChosenAreCovered(topo: Topo, net: Net, steps: seq<Step>, v: Addr, u: Addr, k: Key)
    requires Initial(topo, net) && ValidRun(topo, net, steps) && Chose(topo, net, steps, v, u, k)
    ensures u in Exec(topo, net, steps).nodes && Covered(Exec(topo, net, steps), u, k)
    decreases |steps|
  {
    var before, st := steps[..|steps| - 1], steps[|steps| - 1];
    FloodInvariant(topo, net, before);
    var s := Exec(topo, net, before);
    if Chose(topo, net, before, v, u, k) {
      ChosenAreCovered(topo, net, before, v, u, k);
      if st.Originate? { OriginateCovers(topo, s, st, u, k); } else { DeliverCovers(topo, s, st.i, st.pick, u, k); }
    } else {
      ChosenExist(topo, s, st, v, u, k);
      if st.Originate? { OriginateSends(topo, s, st, u); } else { DeliverSends(topo, s, st.i, st.pick, u); }
    }
  }

  lemma ChosenExist(topo: Topo, net: Net, st: Step, v: Addr, u: Addr, k: Key)
    requires Inv(topo, net) && Enabled(topo, net, st) && ChoseNow(topo, net, st, v, u, k)
    ensures u in net.nodes
  {
  }

  /** When no copy of a message is in flight, everybody whom a node chose for it has handled
      it, and notified if it joined the group. */
  lemma ChosenNodesHandle(topo: Topo, net: Net, steps: seq<Step>, v: Addr, u: Addr, k: Key)
    requires Initial(topo, net) && ValidRun(topo, net, steps) && Chose(topo, net, steps, v, u, k)
    requires Quiet(Exec(topo, net, steps), k)
    ensures var s := Exec(topo, net, steps);
            && u in s.nodes && k in s.nodes[u].mc && (u, k) in s.forwarded && k in s.gids
            && (u != k.origin ==> k in s.nodes[u].om && (Joined(topo, u, s.gids[k]) ==> (u, k) in s.notified))
  {
    ChosenAreCovered(topo, net, steps, v, u, k);
    FloodInvariant(topo, net, steps);
    assert NodeOk(topo, Exec(topo, net, steps), u, k);
  }

  /** Where the group is known, a message never goes straight back. */
  lemma NeverBack(topo: Topo, v: Addr, n: Node, from: Addr, info: Info, pick: seq<Addr>)
    requires (v, info.gid) in topo.groups || from !in pick
    ensures from !in Receive(topo, v, n, from, info, pick).out
  {
  }
}
