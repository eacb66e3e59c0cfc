/** The handler's table of pending requests, as its loops update it. */
module RpcHandler {
  import opened Basics
  import Rpc

  type OpId = Rpc.OpId
  type Id = Rpc.Id
  type Err = nat
  type SubId = nat

  /** What a response to a subscription says: an error, an id, or something unreadable. */
  datatype Result = Refused(e: Err) | Started(subid: SubId) | Garbled(e: Err)

  /** Requests live outside the handler, which holds references to those it waits for. */
  class Handler {
    var ops: map<OpId, Rpc.Op>
    var errs: map<OpId, Err>
    var respWait: map<Id, OpId>
    var clientSubs: map<SubId, OpId>

    ghost predicate Valid()
      reads this
    {
      forall id :: id in respWait ==> respWait[id] in ops
    }

    constructor (ops: map<OpId, Rpc.Op>)
      ensures Valid() && this.ops == ops && errs == map[] && respWait == map[] && clientSubs == map[]
    {
      this.ops := ops;
      errs, respWait, clientSubs := map[], map[], map[];
    }

    method AddRequestOp(op: OpId, ids: seq<Id>)
      requires Valid() && op in ops
      modifies this`respWait
      ensures Valid() && respWait == Rpc.Register(old(respWait), (set id | id in ids), op)
    {
      for i := 0 to |ids|
        invariant respWait == Rpc.Register(old(respWait), (set id | id in ids[..i]), op)
      {
        assert ids[..i + 1] == ids[..i] + [ids[i]];
        respWait := respWait[ids[i] := op];
      }
      assert ids[..|ids|] == ids;
    }

    method RemoveRequestOp(ids: seq<Id>)
      requires Valid()
      modifies this`respWait
      ensures Valid() && respWait == old(respWait) - set id | id in ids
    {
      for i := 0 to |ids|
        invariant respWait == old(respWait) - set id | id in ids[..i]
      {
        assert ids[..i + 1] == ids[..i] + [ids[i]];
        respWait := respWait - {ids[i]};
      }
      assert ids[..|ids|] == ids;
    }

    /** The walk over the waiting requests, in any order: every one but the one in flight gets
        the error and is closed exactly once. */
    static method Cancel(ops: map<OpId, Rpc.Op>, errs: map<OpId, Err>, w: map<Id, OpId>, err: Err,
        inflight: Option<OpId>)
      returns (ops': map<OpId, Rpc.Op>, errs': map<OpId, Err>)
      requires forall id :: id in w ==> w[id] in ops
      ensures ops' == Rpc.CloseOps(ops, w, inflight) && errs' == Told(errs, Others(w, inflight), err)
    {
      var didClose: set<OpId> := if inflight.Some? then {inflight.value} else {};
      ghost var closed: set<OpId> := {};
      ops', errs' := ops, errs;
      NoneClosed(ops, errs, err);
      var left := w;
      while left != map[]
        invariant Walked(w, left, inflight, didClose, closed)
        invariant ops' == Closed(ops, closed) && errs' == Told(errs, closed, err)
        decreases |left|
      {
        var id :| id in left;
        var op := left[id];
        WalkStep(w, left, id, inflight, didClose, closed);
        left := left - {id};
        if op !in didClose {
          CloseOneMore(ops, errs, closed, op, err);
          errs' := errs'[op := err];
          ops' := CloseIn(ops', op);
          didClose := didClose + {op};
          closed := closed + {op};
        }
      }
      AllClosed(ops, w, inflight, closed);
    }

    /** All waiting requests but the one in flight fail, and every subscription ends. */
    method CancelAllRequests(err: Err, inflight: Option<OpId>) returns (ended: set<OpId>)
      requires Valid()
      modifies this
      ensures Valid() && respWait == map[] && ops == Rpc.CloseOps(old(ops), old(respWait), inflight)
      ensures errs == Told(old(errs), Others(old(respWait), inflight), err)
      ensures clientSubs == map[] && ended == old(clientSubs).Values
    {
      ops, errs := Cancel(ops, errs, respWait, err, inflight);
      respWait := map[];
      ended := {};
      var left := clientSubs;
      while left != map[]
        invariant forall id :: id in left ==> id in clientSubs && left[id] == clientSubs[id]
        invariant ended == set id | id in clientSubs && id !in left :: clientSubs[id]
        invariant clientSubs == old(clientSubs)
        invariant respWait == map[] && ops == Rpc.CloseOps(old(ops), old(respWait), inflight)
        invariant errs == Told(old(errs), Others(old(respWait), inflight), err)
        decreases |left|
      {
        var id :| id in left;
        ended := ended + {left[id]};
        assert (left - {id}).Keys == left.Keys - {id};
        left := left - {id};
      }
      clientSubs := map[];
    }

    /** An answer goes to the request that waits for its id, which then no longer does: a plain
        one is forwarded, a subscription is unblocked and, if it started, entered. */
    method HandleResponse(id: Id, msg: Result)
      requires Valid()
      modifies this
      ensures Valid() && respWait == old(respWait) - {id}
      ensures id !in old(respWait) ==> ops == old(ops) && errs == old(errs) && clientSubs == old(clientSubs)
      ensures id in old(respWait) ==>
        var o := old(respWait)[id];
        var started := old(ops)[o].sub && msg.Started?;
        && ops == old(ops)[o := Rpc.DeliverTo(old(ops)[o], id)]
        && clientSubs == (if started then old(clientSubs)[msg.subid := o] else old(clientSubs))
        && errs == (if old(ops)[o].sub && !msg.Started? then old(errs)[o := msg.e] else old(errs))
    {
      if id !in respWait { return; }
      var o := respWait[id];
      respWait := respWait - {id};
      if !ops[o].sub {
        ops := ops[o := ops[o].(delivered := ops[o].delivered + {id}, sends := ops[o].sends + 1)];
        return;
      }
      match msg {
        case Refused(e) => errs := errs[o := e];
        case Garbled(e) => errs := errs[o := e];
        case Started(subid) => clientSubs := clientSubs[subid := o];
      }
      ops := ops[o := ops[o].(closes := ops[o].closes + 1)];
    }
  }

  function CloseIn(ops: map<OpId, Rpc.Op>, o: OpId): map<OpId, Rpc.Op>
    requires o in ops
  {
    ops[o := ops[o].(closes := ops[o].closes + 1)]
  }

  /** The requests after those in a set were closed once each. */
  function Closed(ops: map<OpId, Rpc.Op>, closed: set<OpId>): map<OpId, Rpc.Op> {
    map o | o in ops :: if o in closed then ops[o].(closes := ops[o].closes + 1) else ops[o]
  }

  function Told(errs: map<OpId, Err>, closed: set<OpId>, err: Err): map<OpId, Err> {
    map o | o in errs.Keys + closed :: if o in closed then err else errs[o]
  }

  /** The waiting requests but the one in flight. */
  function Others(w: map<Id, OpId>, inflight: Option<OpId>): set<OpId> {
    set o | o in w.Values && Some(o) != inflight
  }

  /** Half-way through the map: `left` is still to be visited, the others are closed or spared. */
  ghost predicate Walked(w: map<Id, OpId>, left: map<Id, OpId>, inflight: Option<OpId>, didClose: set<OpId>,
      closed: set<OpId>)
  {
    && (forall id :: id in left ==> id in w && left[id] == w[id])
    && (forall id :: id in w && id !in left ==> w[id] in didClose)
    && (forall o :: o in didClose <==> o in closed || Some(o) == inflight)
    && closed <= Others(w, inflight)
  }

  lemma WalkStep(w: map<Id, OpId>, left: map<Id, OpId>, id: Id, inflight: Option<OpId>, didClose: set<OpId>,
      closed: set<OpId>)
    requires Walked(w, left, inflight, didClose, closed) && id in left
    ensures var op := left[id];
            if op in didClose then Walked(w, left - {id}, inflight, didClose, closed)
            else op !in closed && op in w.Values && Walked(w, left - {id}, inflight, didClose + {op}, closed + {op})
    ensures |left - {id}| < |left|
  {
    assert left[id] in w.Values by { assert w[id] == left[id]; }
    assert (left - {id}).Keys == left.Keys - {id};
  }

  lemma NoneClosed(ops: map<OpId, Rpc.Op>, errs: map<OpId, Err>, err: Err)
    ensures Closed(ops, {}) == ops && Told(errs, {}, err) == errs
  {
  }

  lemma CloseOneMore(ops: map<OpId, Rpc.Op>, errs: map<OpId, Err>, closed: set<OpId>, o: OpId, err: Err)
    requires o in ops && o !in closed
    ensures Closed(ops, closed + {o}) == CloseIn(Closed(ops, closed), o)
    ensures Told(errs, closed + {o}, err) == Told(errs, closed, err)[o := err]
  {
  }

  lemma AllClosed(ops: map<OpId, Rpc.Op>, w: map<Id, OpId>, inflight: Option<OpId>, closed: set<OpId>)
    requires closed <= Others(w, inflight)
    requires forall id :: id in w ==> w[id] in closed || Some(w[id]) == inflight
    ensures closed == Others(w, inflight) && Closed(ops, closed) == Rpc.CloseOps(ops, w, inflight)
  {
  }
}
