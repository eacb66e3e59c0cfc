/** Multicast flooding: every node keeps two caches of message keys, sends a message it
    sees for the first time to its group peers, and drops it afterwards. Peer sets are
    fixed, links deliver every message once in any order, and cache entries outlive the
    flood. */
module Multicast {
  import opened Basics

  type Addr = nat

  datatype Key = Key(origin: Addr, id: nat)
  datatype Info = Info(key: Key, gid: nat)
  datatype Msg = Msg(from: Addr, to: Addr, info: Info)

  datatype Group = Group(joined: bool, connected: seq<Addr>, keep: seq<Addr>)

  /** The nodes, the groups they know, and the number of nodes a message is forwarded
      to where the group is not known or has no peers. */
  datatype Topo = Topo(nodes: seq<Addr>, groups: map<(Addr, nat), Group>, limit: nat)

  /** One node: the "Multicast" cache, the "onMulticast" cache, and the sequence number. */
  datatype Node = Node(mc: set<Key>, om: set<Key>, msgSeq: nat)

  function Peers(topo: Topo, v: Addr, gid: nat): seq<Addr> {
    if (v, gid) in topo.groups then topo.groups[(v, gid)].connected + topo.groups[(v, gid)].keep else []
  }

  ghost predicate ValidTopo(topo: Topo) {
    && NoDup(topo.nodes)
    && forall v, gid, u :: u in Peers(topo, v, gid) ==> u in topo.nodes
  }

  // ---------------------------------------------------------------- one node

  function Except(s: seq<Addr>, skip: seq<Addr>): (r: seq<Addr>)
    ensures |r| <= |s| && forall a :: a in r <==> a in s && a !in skip
  {
    if s == [] then [] else (if s[0] in skip then [] else [s[0]]) + Except(s[1..], skip)
  }

  lemma {:induction false} ExceptConcat(a: seq<Addr>, b: seq<Addr>, skip: seq<Addr>)
    ensures Except(a + b, skip) == Except(a, skip) + Except(b, skip)
  {
    if a == [] {
      assert a + b == b;
    } else {
      assert (a + b)[1..] == a[1..] + b;
      ExceptConcat(a[1..], b, skip);
    }
  }

  lemma ExceptOneMore(s: seq<Addr>, i: nat, skip: seq<Addr>)
    requires i < |s|
    ensures Except(s[..i + 1], skip) == Except(s[..i], skip) + Except([s[i]], skip)
  {
    ExceptConcat(s[..i], [s[i]], skip);
    assert s[..i + 1] == s[..i] + [s[i]];
  }

  /** To whom a first-seen message goes; `pick` are the nodes found by discovery for a group
      without peers, and the forward nodes where the group is not known. */
  function Targets(topo: Topo, v: Addr, gid: nat, skip: seq<Addr>, pick: seq<Addr>): seq<Addr> {
    if (v, gid) !in topo.groups then pick
    else Except(if Peers(topo, v, gid) == [] then pick else Peers(topo, v, gid), skip)
  }

  datatype Outcome = Outcome(node: Node, out: seq<Addr>, forwarded: bool, notified: bool)

  /** Multicast */
  function Spread(topo: Topo, v: Addr, n: Node, info: Info, skip: seq<Addr>, pick: seq<Addr>): Outcome {
    if info.key in n.mc then Outcome(n, [], false, false)
    else Outcome(n.(mc := n.mc + {info.key}), Targets(topo, v, info.gid, skip, pick), true, false)
  }

  predicate Joined(topo: Topo, v: Addr, gid: nat) {
    (v, gid) in topo.groups && topo.groups[(v, gid)].joined
  }

  /** onMulticast */
  function Receive(topo: Topo, v: Addr, n: Node, from: Addr, info: Info, pick: seq<Addr>): Outcome {
    if info.key in n.om then Outcome(n, [], false, false)
    else
      var n1 := n.(om := n.om + {info.key});
      if info.key.origin == v then Outcome(n1, [], false, false)
      else Spread(topo, v, n1, info, [from], pick).(notified := Joined(topo, v, info.gid))
  }

  /** The node as it runs. */
  class Service {
    const topo: Topo
    const self: Addr
    var mc: set<Key>
    var om: set<Key>
    var msgSeq: nat

    function View(): Node
      reads this
    {
      Node(mc, om, msgSeq)
    }

    constructor (topo: Topo, self: Addr)
      ensures View() == Node({}, {}, 0) && this.topo == topo && this.self == self
    {
      this.topo, this.self := topo, self;
      mc, om, msgSeq := {}, {}, 0;
    }

    /** The send loop over one peer set. */
    method EachPeer(peers: seq<Addr>, skip: seq<Addr>, sent: seq<Addr>) returns (out: seq<Addr>)
      ensures out == sent + Except(peers, skip)
    {
      out := sent;
      ghost var done: seq<Addr> := [];
      for i := 0 to |peers|
        invariant out == sent + done && done == Except(peers[..i], skip)
      {
        ExceptOneMore(peers, i, skip);
        if peers[i] !in skip {
          assert Except([peers[i]], skip) == [peers[i]];
          out := out + [peers[i]];
          done := done + [peers[i]];
        }
      }
      assert peers[..|peers|] == peers;
    }

    /** Both peer sets of a group, the connected ones first; a group without peers is looked
        for, and `found` are the peer sets it then has. */
    method ToGroup(gid: nat, skip: seq<Addr>, found: Group) returns (out: seq<Addr>)
      requires (self, gid) in topo.groups
      ensures out == Targets(topo, self, gid, skip, found.connected + found.keep)
    {
      var g := topo.groups[(self, gid)];
      if |g.connected| == 0 && |g.keep| == 0 { g := found; }
      ExceptConcat(g.connected, g.keep, skip);
      if |g.connected| == 0 && |g.keep| == 0 { return []; }
      out := EachPeer(g.connected, skip, []);
      assert out == Except(g.connected, skip);
      out := EachPeer(g.keep, skip, out);
    }

    /** An empty origin means a new message of this node. */
    method Multicast(info: Option<Info>, gid: nat, skip: seq<Addr>, pick: seq<Addr>)
      returns (out: seq<Addr>, used: Info)
      requires info.Some? ==> info.value.gid == gid
      modifies this
      ensures var n := if info.Some? then old(View()) else old(View()).(msgSeq := old(msgSeq) + 1);
              && used == (if info.Some? then info.value else Info(Key(self, n.msgSeq), gid))
              && var o := Spread(topo, self, n, used, skip, pick);
                 View() == o.node && out == o.out
    {
      if info.None? {
        msgSeq := msgSeq + 1;
        used := Info(Key(self, msgSeq), gid);
      } else {
        used := info.value;
      }
      if used.key in mc { return [], used; }
      mc := mc + {used.key};
      if (self, gid) in topo.groups {
        out := ToGroup(gid, skip, Group(true, pick, []));
        assert pick + [] == pick;
        return;
      }
      out := pick;
    }

    method OnMulticast(from: Addr, info: Info, pick: seq<Addr>) returns (out: seq<Addr>, notified: bool)
      modifies this
      ensures var o := Receive(topo, self, old(View()), from, info, pick);
              View() == o.node && out == o.out && notified == o.notified
    {
      if info.key in om { return [], false; }
      om := om + {info.key};
      if info.key.origin == self { return [], false; }
      notified := (self, info.gid) in topo.groups && topo.groups[(self, info.gid)].joined;
      var used;
      out, used := Multicast(Some(info), info.gid, [from], pick);
    }
  }

  // ---------------------------------------------------------------- the network

  /** Messages in flight, and a log of who notified and who forwarded what. `gids` records
      the group of every message originated. */
  datatype Net = Net(nodes: map<Addr, Node>, inflight: seq<Msg>, gids: map<Key, nat>,
                     notified: seq<(Addr, Key)>, forwarded: seq<(Addr, Key)>)

  datatype Step =
    | Originate(v: Addr, gid: nat, pick: seq<Addr>)
    | Deliver(i: nat, pick: seq<Addr>)

  ghost predicate PickOk(topo: Topo, pick: seq<Addr>) {
    |pick| <= topo.limit && forall a :: a in pick ==> a in topo.nodes
  }

  ghost predicate Enabled(topo: Topo, net: Net, st: Step) {
    && PickOk(topo, st.pick)
    && match st
       case Originate(v, _, _) => v in net.nodes
       case Deliver(i, _) => i < |net.inflight| && net.inflight[i].to in net.nodes
  }

  function Sends(from: Addr, out: seq<Addr>, info: Info): (r: seq<Msg>)
    ensures |r| == |out| && forall i :: 0 <= i < |r| ==> r[i] == Msg(from, out[i], info)
  {
    seq(|out|, i requires 0 <= i < |out| => Msg(from, out[i], info))
  }

  function Log(log: seq<(Addr, Key)>, yes: bool, v: Addr, k: Key): seq<(Addr, Key)> {
    if yes then log + [(v, k)] else log
  }

  function Commit(net: Net, v: Addr, info: Info, o: Outcome): Net {
    net.(nodes := net.nodes[v := o.node], inflight := net.inflight + Sends(v, o.out, info),
         notified := Log(net.notified, o.notified, v, info.key),
         forwarded := Log(net.forwarded, o.forwarded, v, info.key))
  }

  ghost function Apply(topo: Topo, net: Net, st: Step): Net
    requires Enabled(topo, net, st)
  {
    match st
    case Originate(v, gid, pick) =>
      var n := net.nodes[v].(msgSeq := net.nodes[v].msgSeq + 1);
      var info := Info(Key(v, n.msgSeq), gid);
      Commit(net.(gids := net.gids[info.key := gid]), v, info, Spread(topo, v, n, info, [], pick))
    case Deliver(i, pick) =>
      var m := net.inflight[i];
      Commit(net.(inflight := net.inflight[..i] + net.inflight[i + 1..]), m.to, m.info,
             Receive(topo, m.to, net.nodes[m.to], m.from, m.info, pick))
  }

  ghost predicate Initial(topo: Topo, net: Net) {
    && ValidTopo(topo)
    && (forall v :: v in net.nodes <==> v in topo.nodes)
    && (forall v :: v in net.nodes ==> net.nodes[v] == Node({}, {}, 0))
    && net.inflight == [] && net.gids == map[] && net.notified == [] && net.forwarded == []
  }

  ghost predicate ValidRun(topo: Topo, net: Net, steps: seq<Step>)
    decreases |steps|, 0
  {
    steps == [] || (ValidRun(topo, net, steps[..|steps| - 1])
        && Enabled(topo, Exec(topo, net, steps[..|steps| - 1]), steps[|steps| - 1]))
  }

  ghost function Exec(topo: Topo, net: Net, steps: seq<Step>): Net
    requires ValidRun(topo, net, steps)
    decreases |steps|, 1
  {
    if steps == [] then net else Apply(topo, Exec(topo, net, steps[..|steps| - 1]), steps[|steps| - 1])
  }
}
