/** The pull queue of one file: nodes still to be asked, being asked, and asked. The object
    and its operations, each under the queue's lock. */
module PullQueue {
  import opened Basics

  const PULL_MAX: nat := 200
  const PULLING_MAX: nat := 10
  const PULLER_MAX: nat := 1000

  datatype Pull = UnPull | Pulling | Pulled

  // ---------------------------------------------------------------- popNode

  /** What popNode leaves: after removing a copy it steps over the element that slid into
      its place. */
  function Skim(s: seq<Bytes>, x: Bytes): seq<Bytes> {
    if s == [] then []
    else if s[0] != x then [s[0]] + Skim(s[1..], x)
    else if |s| == 1 then []
    else [s[1]] + Skim(s[2..], x)
  }

  predicate NoNeighbours(s: seq<Bytes>, x: Bytes) {
    forall i :: 0 <= i < |s| - 1 ==> s[i] != x || s[i + 1] != x
  }

  /** The node is gone afterwards exactly when no two copies stood side by side. */
  lemma {:induction false} SkimRemovesIff(s: seq<Bytes>, x: Bytes)
    ensures x !in Skim(s, x) <==> NoNeighbours(s, x)
  {
    if |s| > 1 {
      if s[0] != x {
        SkimRemovesIff(s[1..], x);
        assert NoNeighbours(s, x) <==> NoNeighbours(s[1..], x) by { NeighboursOfTail(s, x, 1); }
      } else if s[1] != x {
        SkimRemovesIff(s[2..], x);
        NeighboursOfTail(s, x, 2);
      } else {
        assert s[0] == x && s[0 + 1] == x;
      }
    }
  }

  /** Of two copies side by side one stays. */
  lemma SkimLeavesOne(x: Bytes)
    ensures Skim([x, x], x) == [x]
  {
    assert [x, x][2..] == [];
  }

  lemma NeighboursOfTail(s: seq<Bytes>, x: Bytes, k: nat)
    requires 1 <= k < |s| || k == |s| == 2
    requires s[k - 1] != x && k <= 2
    ensures NoNeighbours(s, x) <==> NoNeighbours(s[k..], x)
  {
  }

  /** Nothing else is lost, and a node that was there leaves at least one copy less. */
  lemma {:induction false} SkimKeepsOthers(s: seq<Bytes>, x: Bytes)
    ensures forall y :: y != x ==> multiset(Skim(s, x))[y] == multiset(s)[y]
    ensures if x in s then |Skim(s, x)| < |s| else Skim(s, x) == s
  {
    if s != [] {
      assert s == [s[0]] + s[1..];
      if s[0] != x {
        SkimKeepsOthers(s[1..], x);
      } else if |s| > 1 {
        SkimKeepsOthers(s[2..], x);
        assert s == [s[0], s[1]] + s[2..];
      }
    }
  }

  lemma SkimBegins(qu: seq<Bytes>, x: Bytes)
    ensures qu[..0] + Skim(qu[0..], x) == Skim(qu, x) && qu[..|qu|] + Skim(qu[|qu|..], x) == qu
  {
    assert qu[0..] == qu && qu[|qu|..] == [] && qu[..|qu|] == qu;
  }

  /** The loop, from where it stands. */
  lemma SkimFrom(qu: seq<Bytes>, i: nat, x: Bytes)
    requires i < |qu|
    ensures qu[i] != x ==> qu[..i] + Skim(qu[i..], x) == qu[..i + 1] + Skim(qu[i + 1..], x)
    ensures qu[i] == x ==>
      var cut := qu[..i] + qu[i + 1..];
      if i < |cut| then qu[..i] + Skim(qu[i..], x) == cut[..i + 1] + Skim(cut[i + 1..], x)
      else qu[..i] + Skim(qu[i..], x) == cut
  {
    assert qu[i..][1..] == qu[i + 1..];
    if qu[i] == x && i + 1 < |qu| {
      var cut := qu[..i] + qu[i + 1..];
      assert qu[i..][2..] == cut[i + 1..];
      assert cut[..i + 1] == qu[..i] + [qu[i + 1]];
    }
  }

  /** How many nodes one undisturbed call moves, from the lengths of the three lists. */
  function Turn(unPull: nat, pulling: nat, pulled: nat): (n: nat)
    ensures n <= unPull && (n > 0 ==> pulling + n <= PULLING_MAX && pulled + pulling < PULL_MAX)
    ensures n == unPull || pulling + n >= PULLING_MAX || pulled + pulling >= PULL_MAX
  {
    if pulled + pulling >= PULL_MAX || pulling >= PULLING_MAX then 0 else Min(PULLING_MAX - pulling, unPull)
  }

  // ---------------------------------------------------------------- the operations on values

  datatype Lists = Lists(unPull: seq<Bytes>, pulling: seq<Bytes>, pulled: seq<Bytes>)

  predicate Knows(l: Lists, n: Bytes) {
    n in l.unPull || n in l.pulling || n in l.pulled
  }

  /** queueProcess, undisturbed */
  function Moved(l: Lists): Lists {
    var n := Turn(|l.unPull|, |l.pulling|, |l.pulled|);
    Lists(l.unPull[n..], l.pulling + l.unPull[..n], l.pulled)
  }

  /** The loop of updateQueue: unknown nodes join until the list is full. */
  function Joined(l: Lists, self: Bytes, infos: seq<Bytes>): Lists
    decreases |infos|
  {
    if infos == [] then l
    else if infos[0] == self then Joined(l, self, infos[1..])
    else if |l.unPull| >= PULLER_MAX then l
    else if Knows(l, infos[0]) then Joined(l, self, infos[1..])
    else Joined(l.(unPull := l.unPull + [infos[0]]), self, infos[1..])
  }

  /** The nodes that join are new, each once, and all new ones join while there is room. */
  ghost predicate JoinedWell(l: Lists, j: Lists, self: Bytes, infos: seq<Bytes>) {
    && j.pulling == l.pulling && j.pulled == l.pulled && l.unPull <= j.unPull
    && |j.unPull| <= (if |l.unPull| <= PULLER_MAX then PULLER_MAX else |l.unPull|)
    && (forall i :: |l.unPull| <= i < |j.unPull| ==>
        j.unPull[i] in infos && j.unPull[i] != self && !Knows(l, j.unPull[i]))
    && (forall i, k :: |l.unPull| <= i < k < |j.unPull| ==> j.unPull[i] != j.unPull[k])
    && (|j.unPull| < PULLER_MAX ==> forall n :: n in infos && n != self ==> Knows(j, n))
  }

  lemma {:induction false} JoinsWell(l: Lists, self: Bytes, infos: seq<Bytes>)
    ensures JoinedWell(l, Joined(l, self, infos), self, infos)
    decreases |infos|
  {
    if infos != [] && (infos[0] == self || |l.unPull| < PULLER_MAX) {
      var more := if infos[0] == self || Knows(l, infos[0]) then l else l.(unPull := l.unPull + [infos[0]]);
      JoinsWell(more, self, infos[1..]);
      JoinedFrom(l, more, Joined(l, self, infos), self, infos);
    }
  }

  lemma JoinedFrom(l: Lists, more: Lists, j: Lists, self: Bytes, infos: seq<Bytes>)
    requires infos != [] && JoinedWell(more, j, self, infos[1..])
    requires if infos[0] == self || Knows(l, infos[0]) then more == l
             else |l.unPull| < PULLER_MAX && more == l.(unPull := l.unPull + [infos[0]])
    ensures JoinedWell(l, j, self, infos)
  {
    assert infos == [infos[0]] + infos[1..];
    assert forall n :: Knows(more, n) ==> Knows(j, n);
  }

  /** updateQueue */
  function Updated(l: Lists, self: Bytes, node: Bytes, infos: seq<Bytes>): Lists {
    var j := Joined(l, self, infos);
    Lists(j.unPull, Skim(j.pulling, node), j.pulled + [node])
  }

  /** The loop of findChunkInfo. */
  function Enlisted(l: Lists, nodes: seq<Bytes>): Lists
    decreases |nodes|
  {
    if nodes == [] then l
    else Enlisted(if Knows(l, nodes[0]) then l else l.(unPull := l.unPull + [nodes[0]]), nodes[1..])
  }

  /** Every node a search names is known afterwards: new ones are queued, each once and behind
      what was there, and nothing else changes. */
  lemma {:induction false} EnlistsAll(l: Lists, nodes: seq<Bytes>)
    ensures var e := Enlisted(l, nodes);
            && e.pulling == l.pulling && e.pulled == l.pulled && l.unPull <= e.unPull
            && (forall n :: Knows(e, n) <==> Knows(l, n) || n in nodes)
            && (forall i :: |l.unPull| <= i < |e.unPull| ==> !Knows(l, e.unPull[i]))
            && (forall i, k :: |l.unPull| <= i < k < |e.unPull| ==> e.unPull[i] != e.unPull[k])
    decreases |nodes|
  {
    if nodes != [] {
      var more := if Knows(l, nodes[0]) then l else l.(unPull := l.unPull + [nodes[0]]);
      EnlistsAll(more, nodes[1..]);
      assert nodes == [nodes[0]] + nodes[1..];
      assert forall n :: Knows(more, n) <==> Knows(l, n) || n == nodes[0];
    }
  }

  /** A node that did not answer in time. */
  function TimedOut(l: Lists, node: Bytes): Lists {
    Lists(l.unPull + [node], Skim(l.pulling, node), l.pulled)
  }

  // ---------------------------------------------------------------- the object

  class Queue {
    var unPull: seq<Bytes>
    var pulling: seq<Bytes>
    var pulled: seq<Bytes>

    constructor ()
      ensures unPull == [] && pulling == [] && pulled == []
    {
      unPull, pulling, pulled := [], [], [];
    }

    function View(): Lists
      reads this
    {
      Lists(unPull, pulling, pulled)
    }

    function Get(pull: Pull): seq<Bytes>
      reads this
    {
      match pull
      case UnPull => unPull
      case Pulling => pulling
      case Pulled => pulled
    }

    method Update(pull: Pull, qu: seq<Bytes>)
      modifies this
      ensures Get(pull) == qu && forall p :: p != pull ==> Get(p) == old(Get(p))
    {
      match pull
      case UnPull => unPull := qu;
      case Pulling => pulling := qu;
      case Pulled => pulled := qu;
    }

    /** Popping an empty list would be an index error. */
    method Pop(pull: Pull) returns (v: Bytes)
      requires Get(pull) != []
      modifies this
      ensures old(Get(pull)) == [v] + Get(pull)
      ensures forall p :: p != pull ==> Get(p) == old(Get(p))
    {
      var qu := Get(pull);
      v := qu[0];
      Update(pull, qu[1..]);
    }

    method PopNode(pull: Pull, overlay: Bytes)
      modifies this
      ensures Get(pull) == Skim(old(Get(pull)), overlay)
      ensures forall p :: p != pull ==> Get(p) == old(Get(p))
    {
      var qu := SkimLoop(Get(pull), overlay);
      Update(pull, qu);
    }

    static method SkimLoop(all: seq<Bytes>, overlay: Bytes) returns (qu: seq<Bytes>)
      ensures qu == Skim(all, overlay)
    {
      qu := all;
      var i := 0;
      SkimBegins(qu, overlay);
      while i < |qu|
        invariant i <= |qu| && qu[..i] + Skim(qu[i..], overlay) == Skim(all, overlay)
        decreases |qu| - i
      {
        SkimFrom(qu, i, overlay);
        if qu[i] == overlay {
          qu := qu[..i] + qu[i + 1..];
          if i == |qu| { return; }
        }
        i := i + 1;
      }
      SkimBegins(qu, overlay);
    }

    method Push(pull: Pull, overlay: Bytes)
      modifies this
      ensures Get(pull) == old(Get(pull)) + [overlay]
      ensures forall p :: p != pull ==> Get(p) == old(Get(p))
    {
      Update(pull, Get(pull) + [overlay]);
    }

    method IsExists(pull: Pull, overlay: Bytes) returns (b: bool)
      ensures b <==> overlay in Get(pull)
    {
      var pullNodes := Get(pull);
      for i := 0 to |pullNodes|
        invariant overlay !in pullNodes[..i]
      {
        if pullNodes[i] == overlay { return true; }
      }
      return false;
    }

    /** Without interference: moves as many nodes as there is room for, in order, and asks
        each of them. `finder` says whether the file is still being looked for. */
    method QueueProcess(finder: bool) returns (asked: seq<Bytes>)
      modifies this
      ensures |asked| == if finder then Turn(|old(unPull)|, |old(pulling)|, |old(pulled)|) else 0
      ensures pulling == old(pulling) + asked && asked + unPull == old(unPull) && pulled == old(pulled)
      ensures |old(pulling)| <= PULLING_MAX ==> |pulling| <= PULLING_MAX
      ensures View() == if finder then Moved(old(View())) else old(View())
    {
      asked := [];
      if !finder || |pulled| + |pulling| >= PULL_MAX { return; }
      var pullingLen := |pulling|;
      if pullingLen >= PULLING_MAX { return; }
      var n := PULLING_MAX - pullingLen;
      if n > |unPull| { n := |unPull|; }
      for i := 0 to n
        invariant |asked| == i && pulling == old(pulling) + asked && pulled == old(pulled)
        invariant asked + unPull == old(unPull)
      {
        assert |Get(UnPull)| == |old(unPull)| - i;
        ghost var before := Get(UnPull);
        var unNode := Pop(UnPull);
        assert before == [unNode] + Get(UnPull);
        ghost var mid := Get(Pulling);
        Push(Pulling, unNode);
        assert Get(Pulling) == mid + [unNode] && Get(Pulled) == old(pulled);
        asked := asked + [unNode];
        assert asked + unPull == asked[..i] + before;
      }
    }

    /** A search names nodes: those not yet known are queued. */
    method Enlist(overlays: seq<Bytes>)
      modifies this
      ensures View() == Enlisted(old(View()), overlays)
    {
      assert overlays[0..] == overlays;
      for k := 0 to |overlays|
        invariant Enlisted(View(), overlays[k..]) == Enlisted(old(View()), overlays)
      {
        assert overlays[k..][1..] == overlays[k + 1..];
        var isUnPull := IsExists(UnPull, overlays[k]);
        var isPulling := IsExists(Pulling, overlays[k]);
        var isPulled := IsExists(Pulled, overlays[k]);
        if isUnPull || isPulling || isPulled { continue; }
        ghost var before := View();
        Push(UnPull, overlays[k]);
        assert Get(UnPull) == before.unPull + [overlays[k]];
        assert Get(Pulling) == before.pulling && Get(Pulled) == before.pulled;
      }
    }

    /** The loop over the nodes a node knows of. */
    method Join(self: Bytes, chunkInfo: seq<Bytes>)
      modifies this
      ensures View() == Joined(old(View()), self, chunkInfo)
    {
      assert chunkInfo[0..] == chunkInfo;
      for k := 0 to |chunkInfo|
        invariant Joined(View(), self, chunkInfo[k..]) == Joined(old(View()), self, chunkInfo)
      {
        var n := chunkInfo[k];
        assert chunkInfo[k..][1..] == chunkInfo[k + 1..];
        if n == self { continue; }
        if |unPull| >= PULLER_MAX { return; }
        var isPulled := IsExists(Pulled, n);
        var isPulling := IsExists(Pulling, n);
        var isUnPull := IsExists(UnPull, n);
        if isPulled || isPulling || isUnPull { continue; }
        ghost var before := View();
        Push(UnPull, n);
        assert Get(UnPull) == before.unPull + [n] && Get(Pulling) == before.pulling && Get(Pulled) == before.pulled;
      }
    }

    /** A node has answered with the nodes it knows of: new ones join the queue up to its
        limit, the node itself is done. */
    method UpdateQueue(self: Bytes, overlay: Bytes, chunkInfo: seq<Bytes>)
      modifies this
      ensures View() == Updated(old(View()), self, overlay, chunkInfo)
      ensures pulled == old(pulled) + [overlay] && pulling == Skim(old(pulling), overlay)
      ensures JoinedWell(old(View()), old(View()).(unPull := unPull), self, chunkInfo)
    {
      Join(self, chunkInfo);
      ghost var mid := View();
      JoinsWell(old(View()), self, chunkInfo);
      PopNode(Pulling, overlay);
      assert Get(UnPull) == mid.unPull && Get(Pulled) == mid.pulled;
      Push(Pulled, overlay);
      assert Get(UnPull) == mid.unPull && Get(Pulling) == Skim(mid.pulling, overlay);
    }

    /** The timeout tick: a node that did not answer in time is to be asked again. */
    method TimeOut(overlay: Bytes)
      modifies this
      ensures pulling == Skim(old(pulling), overlay) && unPull == old(unPull) + [overlay]
      ensures pulled == old(pulled) && View() == TimedOut(old(View()), overlay)
    {
      PopNode(Pulling, overlay);
      assert Get(UnPull) == old(unPull) && Get(Pulled) == old(pulled) && Get(Pulling) == Skim(old(pulling), overlay);
      Push(UnPull, overlay);
      assert Get(Pulled) == old(pulled) && Get(Pulling) == Skim(old(pulling), overlay);
    }
  }
}
