/** The RPC client: the dispatch loop, the goroutines that send requests, and the server,
    as a state machine. Each action is one channel rendezvous or one step of a sender. */
module Rpc {
  import opened Basics

  type OpId = nat
  type Id = nat
  type Conn = nat

  /** Where the goroutine that called send is. */
  datatype Pc =
    | New                                // not yet accepted on reqInit
    | Writing(retry: bool)               // holds the write lock, inside write
    | Dialing(retry: bool, c: Conn)      // holds the lock, offers a new connection
    | Sent(err: bool)                    // holds the lock, about to push to reqSent
    | Waiting                            // in op.wait
    | Failed                             // the call returned an error

  /** A request: its ids, whether it subscribes, and the history of op.resp. */
  datatype Op = Op(ids: set<Id>, sub: bool, pc: Pc, delivered: set<Id>, sends: nat, closes: nat)

  datatype State = State(
    ops: map<OpId, Op>,
    running: bool,                       // dispatch has not quit
    lastOp: Option<OpId>,
    locked: bool,                        // reqInitLock is nil
    conn: Conn, reading: bool, readers: set<Conn>,
    respWait: map<Id, OpId>,             // of the current handler
    reqSent: Option<bool>,               // the one-place channel
    writeConn: Option<Conn>, nextConn: Conn,
    written: set<(Conn, OpId)>,          // history: writes that succeeded
    answered: set<(Conn, OpId)>)         // history: requests the server has answered

  datatype Action =
    | Accept(o: OpId)
    | WriteOk(o: OpId) | WriteFail(o: OpId)
    | DialFail(o: OpId) | DialOk(o: OpId)
    | Reconnected(o: OpId) | ReconnectQuit(o: OpId)
    | PushSent(o: OpId) | TakeSent
    | Response(r: Conn, id: Id)
    | ReadErr(r: Conn)
    | Timeout(o: OpId)                   // the caller gives up, and dispatch removes its ids
    | Abandon(o: OpId)                   // the caller gives up after dispatch has quit
    | Close

  // ---------------------------------------------------------------- the handler's map

  function Register(w: map<Id, OpId>, ids: set<Id>, o: OpId): map<Id, OpId> {
    map id | id in w.Keys + ids :: if id in ids then o else w[id]
  }

  function CloseOps(ops: map<OpId, Op>, w: map<Id, OpId>, inflight: Option<OpId>): map<OpId, Op> {
    map o | o in ops :: if o in w.Values && Some(o) != inflight then ops[o].(closes := ops[o].closes + 1) else ops[o]
  }

  // ---------------------------------------------------------------- steps

  predicate Holds(op: Op) {
    op.pc.Writing? || op.pc.Dialing? || op.pc.Sent?
  }

  /** The server answers a request on a connection only if the request is being written
      there or was written there. */
  predicate MayAnswer(s: State, r: Conn, o: OpId)
    requires o in s.ops
  {
    (r, o) in s.written || (s.ops[o].pc.Writing? && s.writeConn == Some(r))
  }

  predicate Enabled(s: State, a: Action) {
    match a
    case Accept(o) => s.running && !s.locked && o in s.ops && s.ops[o].pc == New
    case WriteOk(o) => o in s.ops && s.ops[o].pc.Writing? && s.writeConn.Some?
    // a write that the server answered did not fail
    case WriteFail(o) => o in s.ops && s.ops[o].pc.Writing? && s.writeConn.Some?
        && (s.writeConn.value, o) !in s.answered
    case DialFail(o) => o in s.ops && s.ops[o].pc.Writing? && s.writeConn.None?
    case DialOk(o) => o in s.ops && s.ops[o].pc.Writing? && s.writeConn.None?
    case Reconnected(o) => s.running && o in s.ops && s.ops[o].pc.Dialing?
    case ReconnectQuit(o) => !s.running && o in s.ops && s.ops[o].pc.Dialing?
    case PushSent(o) => o in s.ops && s.ops[o].pc.Sent?
    case TakeSent => s.running && s.reqSent.Some?
    case Response(r, id) =>
      s.running && r in s.readers && forall o :: o in s.ops && id in s.ops[o].ids ==> MayAnswer(s, r, o)
    case ReadErr(r) => s.running && r in s.readers
    case Timeout(o) => s.running && o in s.ops && s.ops[o].pc == Waiting
    case Abandon(o) => !s.running && o in s.ops && s.ops[o].pc == Waiting
    case Close => s.running
  }

  function SetPc(s: State, o: OpId, pc: Pc): State
    requires o in s.ops
  {
    s.(ops := s.ops[o := s.ops[o].(pc := pc)])
  }

  function IdsOf(s: State, o: Option<OpId>): set<Id> {
    if o.Some? && o.value in s.ops then s.ops[o.value].ids else {}
  }

  function Answered(s: State, r: Conn, id: Id): set<(Conn, OpId)> {
    s.answered + set o | o in s.ops && id in s.ops[o].ids :: (r, o)
  }

  /** handleResponse: a plain response is forwarded, a subscription's closes op.resp. */
  function Deliver(s: State, id: Id): State
    requires id in s.respWait && s.respWait[id] in s.ops
  {
    var o := s.respWait[id];
    s.(ops := s.ops[o := DeliverTo(s.ops[o], id)], respWait := s.respWait - {id})
  }

  function DeliverTo(op: Op, id: Id): Op {
    if op.sub then op.(closes := op.closes + 1)
    else op.(delivered := op.delivered + {id}, sends := op.sends + 1)
  }

  function Apply(s: State, a: Action): State
    requires Enabled(s, a)
  {
    match a
    case Accept(o) =>
      SetPc(s, o, Writing(false)).(locked := true, lastOp := Some(o), respWait := Register(s.respWait, s.ops[o].ids, o))
    case WriteOk(o) => SetPc(s, o, Sent(false)).(written := s.written + {(s.writeConn.value, o)})
    case WriteFail(o) => SetPc(s, o, if s.ops[o].pc.retry then Sent(true) else Writing(true)).(writeConn := None)
    case DialFail(o) => SetPc(s, o, Sent(true))
    case DialOk(o) => SetPc(s, o, Dialing(s.ops[o].pc.retry, s.nextConn)).(nextConn := s.nextConn + 1)
    case Reconnected(o) =>
      var c := s.ops[o].pc.c;
      var ops := if s.reading then CloseOps(s.ops, s.respWait, s.lastOp) else s.ops;
      SetPc(s.(ops := ops), o, Writing(s.ops[o].pc.retry))
        .(readers := (if s.reading then s.readers - {s.conn} else s.readers) + {c}, reading := true, conn := c,
          writeConn := Some(c),
          respWait := if s.lastOp.Some? then Register(map[], IdsOf(s, s.lastOp), s.lastOp.value) else map[])
    case ReconnectQuit(o) => SetPc(s, o, Sent(true))
    case PushSent(o) => SetPc(s, o, if s.ops[o].pc.err then Failed else Waiting).(reqSent := Some(s.ops[o].pc.err))
    case TakeSent =>
      s.(locked := false, lastOp := None, reqSent := None,
         respWait := if s.reqSent.value then s.respWait - IdsOf(s, s.lastOp) else s.respWait)
    case Response(r, id) =>
      var t := s.(answered := Answered(s, r, id));
      if id in s.respWait && s.respWait[id] in s.ops then Deliver(t, id) else t
    case ReadErr(r) =>
      s.(ops := CloseOps(s.ops, s.respWait, s.lastOp), respWait := map[], reading := false, readers := s.readers - {r})
    case Timeout(o) => SetPc(s, o, Failed).(respWait := s.respWait - s.ops[o].ids)
    case Abandon(o) => SetPc(s, o, Failed)
    case Close =>
      if s.reading then s.(running := false, ops := CloseOps(s.ops, s.respWait, None), respWait := map[],
          readers := s.readers - {s.conn})
      else s.(running := false)
  }

  /** No two requests share an id, and a subscription has one. */
  predicate DistinctIds(s: State) {
    && (forall o, p, id :: o in s.ops && p in s.ops && id in s.ops[o].ids && id in s.ops[p].ids ==> o == p)
    && (forall o, i, j :: o in s.ops && s.ops[o].sub && i in s.ops[o].ids && j in s.ops[o].ids ==> i == j)
  }

  predicate Initial(s: State) {
    && (forall o :: o in s.ops ==>
        s.ops[o].pc == New && s.ops[o].delivered == {} && s.ops[o].sends == s.ops[o].closes == 0)
    && DistinctIds(s)
    && s.running && s.lastOp == None && !s.locked && s.reading && s.readers == {s.conn} && s.respWait == map[]
    && s.reqSent == None && s.writeConn == Some(s.conn) && s.conn < s.nextConn && s.written == {} && s.answered == {}
  }

  // ---------------------------------------------------------------- the invariant

  /** The write lock: whoever is between acceptance on reqInit and the push to reqSent
      is lastOp, and the one-place channel is then empty. */
  ghost predicate LockInv(s: State) {
    && (s.locked <==> s.lastOp.Some?)
    && (s.lastOp.Some? ==> s.lastOp.value in s.ops && s.ops[s.lastOp.value].pc != New)
    && (forall o :: o in s.ops && Holds(s.ops[o]) ==> s.lastOp == Some(o) && s.reqSent == None)
    && (s.reqSent.Some? ==> s.locked)
    && (s.locked && s.reqSent.None? ==> Holds(s.ops[s.lastOp.value]))
  }

  /** Connections: one read loop, for the connection dispatch and the senders use. */
  ghost predicate ConnInv(s: State) {
    && (s.running ==> s.readers == if s.reading then {s.conn} else {})
    && (s.writeConn.Some? ==> s.writeConn.value == s.conn)
    && s.conn < s.nextConn
    && (forall o :: o in s.ops && s.ops[o].pc.Dialing? ==> s.conn < s.ops[o].pc.c < s.nextConn && s.writeConn.None?)
    && (forall e :: e in s.written || e in s.answered ==> e.0 <= s.conn)
  }

  /** One request's channel. */
  ghost predicate OpInv(s: State, o: OpId)
    requires o in s.ops
  {
    var op := s.ops[o];
    && op.delivered <= op.ids && op.sends == |op.delivered| && op.closes <= 1
    && (op.sub ==> op.delivered == {})
    && (op.pc == New ==> op.delivered == {} && op.closes == 0)
    && (op.pc.New? || op.pc.Writing? || op.pc.Dialing? ==> forall c :: (c, o) !in s.written)
    // a sender that may still reconnect has not been answered
    && (s.running && Holds(op) && !op.pc.Sent? && (op.delivered != {} || op.closes > 0)
        ==> (s.conn, o) in s.answered && s.writeConn.Some?)
    && (s.running && (op.pc.Dialing? || (op.pc.Writing? && s.writeConn.None?)) ==> op.delivered == {} && op.closes == 0)
  }

  /** The handler routes an id only to the open request that owns it and has not got its answer. */
  ghost predicate WaitInv(s: State) {
    forall id :: id in s.respWait ==>
      && s.respWait[id] in s.ops
      && var op := s.ops[s.respWait[id]];
         id in op.ids && id !in op.delivered && op.closes == 0 && op.pc != New
  }

  ghost predicate Inv(s: State) {
    && LockInv(s) && ConnInv(s) && WaitInv(s)
    && (forall o {:trigger OpInv(s, o)} :: o in s.ops ==> OpInv(s, o))
    && DistinctIds(s)
  }
}
