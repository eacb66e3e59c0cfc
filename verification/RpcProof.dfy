/** The write lock, reconnection and response routing of the RPC client over every run. */
module RpcProof {
  import opened Basics
  import opened Rpc

  ghost predicate Can(s: State, a: Action) {
    Inv(s) && Enabled(s, a)
  }

  lemma DistinctKept(s: State, s': State)
    requires DistinctIds(s) && s'.ops.Keys == s.ops.Keys
    requires forall o :: o in s'.ops ==> s'.ops[o].ids == s.ops[o].ids && s'.ops[o].sub == s.ops[o].sub
    ensures DistinctIds(s')
  {
  }

  /** Requests only move on, and nobody new is waited for. */
  ghost predicate OnlyMoves(s: State, s': State) {
    && s'.ops.Keys == s.ops.Keys
    && (forall o :: o in s.ops ==>
        s'.ops[o] == s.ops[o].(pc := s'.ops[o].pc) && (s'.ops[o].pc == New ==> s.ops[o].pc == New))
    && (forall id :: id in s'.respWait ==> id in s.respWait && s'.respWait[id] == s.respWait[id])
  }

  lemma MovesKeep(s: State, s': State)
    requires OnlyMoves(s, s') && WaitInv(s) && DistinctIds(s)
    ensures WaitInv(s') && DistinctIds(s')
  {
    DistinctKept(s, s');
  }

  /** One request moves on. */
  lemma OneMoves(s: State, s': State, o: OpId, pc: Pc)
    requires o in s.ops && pc != New && s'.ops == s.ops[o := s.ops[o].(pc := pc)]
    requires s'.respWait == s.respWait || exists ids: set<Id> :: s'.respWait == s.respWait - ids
    ensures OnlyMoves(s, s')
  {
  }

  lemma AcceptKeeps(s: State, a: Action)
    requires a.Accept? && Can(s, a)
    ensures Inv(Apply(s, a))
  {
    var s' := Apply(s, a);
    assert OpInv(s, a.o);
    forall o | o in s'.ops ensures OpInv(s', o) { assert OpInv(s, o); }
  }

  lemma WriteKeepsOp(s: State, a: Action, o: OpId)
    requires (a.WriteOk? || a.WriteFail?) && Can(s, a) && o in s.ops
    ensures o in Apply(s, a).ops && OpInv(Apply(s, a), o)
  {
    assert OpInv(s, o);
  }

  lemma WriteKeepsLock(s: State, a: Action)
    requires (a.WriteOk? || a.WriteFail?) && Can(s, a)
    ensures LockInv(Apply(s, a)) && ConnInv(Apply(s, a))
  {
    assert OpInv(s, a.o);
  }

  lemma WriteKeeps(s: State, a: Action)
    requires (a.WriteOk? || a.WriteFail?) && Can(s, a)
    ensures Inv(Apply(s, a))
  {
    var s' := Apply(s, a);
    OneMoves(s, s', a.o, s'.ops[a.o].pc);
    MovesKeep(s, s');
    WriteKeepsLock(s, a);
    forall o | o in s'.ops ensures OpInv(s', o) { WriteKeepsOp(s, a, o); }
  }

  lemma DialKeepsOp(s: State, a: Action, o: OpId)
    requires (a.DialFail? || a.DialOk? || a.ReconnectQuit?) && Can(s, a) && o in s.ops
    ensures o in Apply(s, a).ops && OpInv(Apply(s, a), o)
  {
    assert OpInv(s, o);
  }

  lemma DialKeepsLock(s: State, a: Action)
    requires (a.DialFail? || a.DialOk? || a.ReconnectQuit?) && Can(s, a)
    ensures LockInv(Apply(s, a)) && ConnInv(Apply(s, a))
  {
    assert OpInv(s, a.o);
  }

  lemma DialKeeps(s: State, a: Action)
    requires (a.DialFail? || a.DialOk? || a.ReconnectQuit?) && Can(s, a)
    ensures Inv(Apply(s, a))
  {
    var s' := Apply(s, a);
    OneMoves(s, s', a.o, s'.ops[a.o].pc);
    MovesKeep(s, s');
    DialKeepsLock(s, a);
    forall o | o in s'.ops ensures OpInv(s', o) { DialKeepsOp(s, a, o); }
  }

  /** Whoever offers a new connection is lastOp, the holder of the write lock. */
  lemma OfferedByLastOp(s: State, o: OpId)
    requires LockInv(s) && Enabled(s, Reconnected(o))
    ensures s.locked && s.lastOp == Some(o) && s.reqSent == None
  {
  }

  lemma ReconnectedOp(s: State, a: Action, o: OpId)
    requires a.Reconnected? && Can(s, a) && o in s.ops
    ensures o in Apply(s, a).ops && OpInv(Apply(s, a), o)
  {
    OfferedByLastOp(s, a.o);
    assert OpInv(s, o) && OpInv(s, a.o);
  }

  lemma ReconnectedConn(s: State, a: Action)
    requires a.Reconnected? && Can(s, a)
    ensures LockInv(Apply(s, a)) && ConnInv(Apply(s, a))
  {
  }

  /** Registering the in-flight request again is right exactly when it has not been
      answered: otherwise its ids would be routed to it a second time. */
  lemma ReRegisterIsSafeIff(s: State, o: OpId)
    requires LockInv(s) && Enabled(s, Reconnected(o)) && s.ops[o].delivered <= s.ops[o].ids
    ensures WaitInv(Apply(s, Reconnected(o)))
        <==> (s.ops[o].ids == {} || (s.ops[o].delivered == {} && s.ops[o].closes == 0))
  {
    OfferedByLastOp(s, o);
    var s' := Apply(s, Reconnected(o));
    assert forall id :: id in s'.respWait <==> id in s.ops[o].ids;
    if WaitInv(s') && s.ops[o].ids != {} {
      var id :| id in s.ops[o].ids;
      assert id in s'.respWait;
      assert s.ops[o].delivered == {};
    }
  }

  lemma ReconnectedShape(s: State, a: Action)
    requires a.Reconnected? && Can(s, a)
    ensures WaitInv(Apply(s, a)) && DistinctIds(Apply(s, a)) && Apply(s, a).ops.Keys == s.ops.Keys
  {
    assert OpInv(s, a.o);
    ReRegisterIsSafeIff(s, a.o);
    DistinctKept(s, Apply(s, a));
  }

  lemma ReconnectedKeeps(s: State, a: Action)
    requires a.Reconnected? && Can(s, a)
    ensures Inv(Apply(s, a))
  {
    ReconnectedConn(s, a);
    ReconnectedShape(s, a);
    forall o | o in Apply(s, a).ops ensures OpInv(Apply(s, a), o) { ReconnectedOp(s, a, o); }
  }

  lemma SentKeepsOp(s: State, a: Action, o: OpId)
    requires (a.PushSent? || a.TakeSent? || a.Timeout? || a.Abandon?) && Can(s, a) && o in s.ops
    ensures o in Apply(s, a).ops && OpInv(Apply(s, a), o)
  {
    assert OpInv(s, o);
  }

  lemma SentKeepsLock(s: State, a: Action)
    requires (a.PushSent? || a.TakeSent? || a.Timeout? || a.Abandon?) && Can(s, a)
    ensures LockInv(Apply(s, a)) && ConnInv(Apply(s, a))
  {
  }

  lemma SentKeeps(s: State, a: Action)
    requires (a.PushSent? || a.TakeSent? || a.Timeout? || a.Abandon?) && Can(s, a)
    ensures Inv(Apply(s, a))
  {
    var s' := Apply(s, a);
    if !a.TakeSent? { OneMoves(s, s', a.o, s'.ops[a.o].pc); }
    MovesKeep(s, s');
    SentKeepsLock(s, a);
    forall o | o in s'.ops ensures OpInv(s', o) { SentKeepsOp(s, a, o); }
  }

  lemma DeliverKeepsOp(s: State, r: Conn, id: Id, o: OpId)
    requires Can(s, Response(r, id)) && id in s.respWait && o in s.ops
    ensures o in Apply(s, Response(r, id)).ops && OpInv(Apply(s, Response(r, id)), o)
  {
    assert OpInv(s, o);
    assert r == s.conn;
    var s' := Apply(s, Response(r, id));
    assert s'.ops[o] == if s.respWait[id] == o then DeliverTo(s.ops[o], id) else s.ops[o];
  }

  lemma DeliverKeepsWait(s: State, r: Conn, id: Id)
    requires Can(s, Response(r, id)) && id in s.respWait
    ensures WaitInv(Apply(s, Response(r, id)))
  {
  }

  lemma DeliverKeepsConn(s: State, r: Conn, id: Id)
    requires Can(s, Response(r, id))
    ensures LockInv(Apply(s, Response(r, id))) && ConnInv(Apply(s, Response(r, id)))
  {
  }

  lemma ResponseKeeps(s: State, a: Action)
    requires a.Response? && Can(s, a)
    ensures Inv(Apply(s, a))
  {
    var s' := Apply(s, a);
    if a.id in s.respWait {
      DeliverKeepsConn(s, a.r, a.id);
      DeliverKeepsWait(s, a.r, a.id);
      forall o | o in s'.ops ensures OpInv(s', o) { DeliverKeepsOp(s, a.r, a.id, o); }
      DistinctKept(s, s');
    } else {
      UnknownKeeps(s, a.r, a.id);
    }
  }

  /** A response nobody waits for changes only what has been answered. */
  lemma UnknownKeeps(s: State, r: Conn, id: Id)
    requires Can(s, Response(r, id)) && id !in s.respWait
    ensures Inv(Apply(s, Response(r, id)))
  {
    var s' := s.(answered := Answered(s, r, id));
    forall o | o in s'.ops ensures OpInv(s', o) { assert OpInv(s, o); }
    DistinctKept(s, s');
  }

  /** `s'` is `s` with the waiting requests closed, all but one in flight. */
  ghost predicate Cancelled(s: State, s': State, inflight: Option<OpId>) {
    && Inv(s)
    && s' == s.(ops := CloseOps(s.ops, s.respWait, inflight), respWait := map[], running := s'.running,
                reading := s'.reading, readers := s'.readers)
    && (s'.running ==> s.running && inflight == s.lastOp)
  }

  lemma CancelKeepsOp(s: State, s': State, inflight: Option<OpId>, o: OpId)
    requires Cancelled(s, s', inflight) && o in s'.ops
    ensures OpInv(s', o)
  {
    assert OpInv(s, o);
  }

  /** Closing changes neither who is where nor whose id is whose. */
  lemma CancelKeepsLock(s: State, s': State, inflight: Option<OpId>)
    requires Cancelled(s, s', inflight)
    ensures LockInv(s') && DistinctIds(s')
  {
  }

  lemma CancelKeeps(s: State, s': State, inflight: Option<OpId>)
    requires Cancelled(s, s', inflight)
    ensures LockInv(s') && WaitInv(s') && DistinctIds(s') && forall o :: o in s'.ops ==> OpInv(s', o)
  {
    forall o | o in s'.ops ensures OpInv(s', o) { CancelKeepsOp(s, s', inflight, o); }
    CancelKeepsLock(s, s', inflight);
  }

  lemma ReadErrKeeps(s: State, a: Action)
    requires a.ReadErr? && Can(s, a)
    ensures Inv(Apply(s, a))
  {
    CancelKeeps(s, Apply(s, a), s.lastOp);
  }

  lemma CloseKeeps(s: State, a: Action)
    requires a.Close? && Can(s, a)
    ensures Inv(Apply(s, a))
  {
    var s' := Apply(s, a);
    if s.reading {
      CancelKeeps(s, s', None);
    } else {
      forall o | o in s'.ops ensures OpInv(s', o) { assert OpInv(s, o); }
    }
  }

  // ---------------------------------------------------------------- every run

  lemma StepKeeps(s: State, a: Action)
    requires Can(s, a)
    ensures Inv(Apply(s, a))
  {
    match a
    case Accept(_) => AcceptKeeps(s, a);
    case WriteOk(_) => WriteKeeps(s, a);
    case WriteFail(_) => WriteKeeps(s, a);
    case DialFail(_) => DialKeeps(s, a);
    case DialOk(_) => DialKeeps(s, a);
    case Reconnected(_) => ReconnectedKeeps(s, a);
    case ReconnectQuit(_) => DialKeeps(s, a);
    case PushSent(_) => SentKeeps(s, a);
    case TakeSent => SentKeeps(s, a);
    case Response(_, _) => ResponseKeeps(s, a);
    case ReadErr(_) => ReadErrKeeps(s, a);
    case Timeout(_) => SentKeeps(s, a);
    case Abandon(_) => SentKeeps(s, a);
    case Close => CloseKeeps(s, a);
  }

  predicate ValidRun(s: State, acts: seq<Action>)
    decreases |acts|, 0
  {
    acts == [] || (ValidRun(s, acts[..|acts| - 1]) && Enabled(Exec(s, acts[..|acts| - 1]), acts[|acts| - 1]))
  }

  function Exec(s: State, acts: seq<Action>): State
    requires ValidRun(s, acts)
    decreases |acts|, 1
  {
    if acts == [] then s else Apply(Exec(s, acts[..|acts| - 1]), acts[|acts| - 1])
  }

  lemma {:induction false} RunInv(s: State, acts: seq<Action>)
    requires Initial(s) && ValidRun(s, acts)
    ensures Inv(Exec(s, acts))
    decreases |acts|
  {
    if acts == [] {
      forall o | o in s.ops ensures OpInv(s, o) {}
    } else {
      RunInv(s, acts[..|acts| - 1]);
      StepKeeps(Exec(s, acts[..|acts| - 1]), acts[|acts| - 1]);
    }
  }

  /** At most one sender is ever between acceptance on reqInit and its push to reqSent;
      a connection is only ever offered by it, while it is lastOp; the push finds the
      one-place channel empty; and lastOp is there when a failed send is removed. */
  lemma WriteLockIsExclusive(s0: State, acts: seq<Action>, o: OpId, p: OpId)
    requires Initial(s0) && ValidRun(s0, acts)
    ensures var s := Exec(s0, acts);
            && (o in s.ops && p in s.ops && Holds(s.ops[o]) && Holds(s.ops[p]) ==> o == p)
            && (Enabled(s, Reconnected(o)) ==> s.lastOp == Some(o) && s.locked)
            && (Enabled(s, PushSent(o)) ==> s.reqSent == None)
            && (Enabled(s, TakeSent) ==> s.lastOp.Some? && s.lastOp.value in s.ops)
  {
    RunInv(s0, acts);
  }

  /** Responses come from the connection in use; each id is delivered at most once, to
      its own request; op.resp is closed at most once and not used afterwards; and there
      is always room for one more plain response, read or not. */
  lemma ResponsesAreRouted(s0: State, acts: seq<Action>, r: Conn, id: Id)
    requires Initial(s0) && ValidRun(s0, acts)
    ensures var s := Exec(s0, acts);
            && (forall o :: o in s.ops ==>
                s.ops[o].sends == |s.ops[o].delivered| && s.ops[o].delivered <= s.ops[o].ids && s.ops[o].closes <= 1)
            && (Enabled(s, Response(r, id)) ==> r == s.conn)
            && (Enabled(s, Response(r, id)) && id in s.respWait ==>
                  && s.respWait[id] in s.ops
                  && var op := s.ops[s.respWait[id]];
                     && id in op.ids && id !in op.delivered && op.closes == 0
                     && op.sends < |op.ids|)
  {
    RunInv(s0, acts);
    var s := Exec(s0, acts);
    forall o | o in s.ops
      ensures s.ops[o].sends == |s.ops[o].delivered| && s.ops[o].delivered <= s.ops[o].ids && s.ops[o].closes <= 1
    {
      assert OpInv(s, o);
    }
    if id in s.respWait {
      var op := s.ops[s.respWait[id]];
      assert op.delivered < op.ids;
      SmallerSet(op.delivered, op.ids);
    }
  }

  lemma SmallerSet(a: set<Id>, b: set<Id>)
    requires a < b
    ensures |a| < |b|
  {
    assert b == a + (b - a);
  }
}
