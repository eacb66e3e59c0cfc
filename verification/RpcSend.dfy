/** When a send fails, and where a request goes whose first write fails. */
module RpcSend {
  import opened Basics
  import opened Rpc
  import opened RpcProof
  import opened RpcLost

  // ---------------------------------------------------------------- the history of one sender

  /** How many writes of the request have failed. */
  function FailedWrites(acts: seq<Action>, o: OpId): nat {
    if acts == [] then 0 else FailedWrites(Init(acts), o) + if Last(acts) == WriteFail(o) then 1 else 0
  }

  /** A dial of the request has failed, or found the client quit. */
  predicate NoConnection(acts: seq<Action>, o: OpId) {
    DialFail(o) in acts || ReconnectQuit(o) in acts
  }

  predicate CallerLeft(acts: seq<Action>, o: OpId) {
    Timeout(o) in acts || Abandon(o) in acts
  }

  /** What the history says of where the sender is. */
  predicate Accounted(pc: Pc, fails: nat, noConn: bool, left: bool) {
    match pc
    case New => fails == 0 && !noConn && !left
    case Writing(retry) => fails == (if retry then 1 else 0) && !noConn && !left
    case Dialing(retry, _) => fails == (if retry then 1 else 0) && !noConn && !left
    case Sent(err) => !left && fails <= 2 && (err <==> fails == 2 || noConn)
    case Waiting => !left && fails <= 1 && !noConn
    case Failed => fails <= 2 && (fails == 2 || noConn || left)
  }

  lemma HistoryStep(acts: seq<Action>, a: Action, o: OpId)
    ensures FailedWrites(acts + [a], o) == FailedWrites(acts, o) + if a == WriteFail(o) then 1 else 0
    ensures NoConnection(acts + [a], o) <==> NoConnection(acts, o) || a == DialFail(o) || a == ReconnectQuit(o)
    ensures CallerLeft(acts + [a], o) <==> CallerLeft(acts, o) || a == Timeout(o) || a == Abandon(o)
  {
    assert Init(acts + [a]) == acts && Last(acts + [a]) == a;
  }

  /** The account after one more step. */
  predicate AccountedNext(pc: Pc, a: Action, o: OpId, fails: nat, noConn: bool, left: bool) {
    Accounted(pc, fails + (if a == WriteFail(o) then 1 else 0), noConn || a == DialFail(o) || a == ReconnectQuit(o),
              left || a == Timeout(o) || a == Abandon(o))
  }

  lemma OwnWrite(s: State, a: Action, o: OpId, fails: nat, noConn: bool, left: bool)
    requires Enabled(s, a) && Actor(a) == Some(o) && o in s.ops && Accounted(s.ops[o].pc, fails, noConn, left)
    requires a.Accept? || a.WriteOk? || a.WriteFail?
    ensures o in Apply(s, a).ops && AccountedNext(Apply(s, a).ops[o].pc, a, o, fails, noConn, left)
  {
  }

  lemma OwnDial(s: State, a: Action, o: OpId, fails: nat, noConn: bool, left: bool)
    requires Enabled(s, a) && Actor(a) == Some(o) && o in s.ops && Accounted(s.ops[o].pc, fails, noConn, left)
    requires a.DialFail? || a.DialOk? || a.Reconnected? || a.ReconnectQuit?
    ensures o in Apply(s, a).ops && AccountedNext(Apply(s, a).ops[o].pc, a, o, fails, noConn, left)
  {
  }

  lemma OwnEnd(s: State, a: Action, o: OpId, fails: nat, noConn: bool, left: bool)
    requires Enabled(s, a) && Actor(a) == Some(o) && o in s.ops && Accounted(s.ops[o].pc, fails, noConn, left)
    requires a.PushSent? || a.Timeout? || a.Abandon?
    ensures o in Apply(s, a).ops && AccountedNext(Apply(s, a).ops[o].pc, a, o, fails, noConn, left)
  {
  }

  /** A step of its own sender or caller. */
  lemma OwnStep(s: State, a: Action, o: OpId, fails: nat, noConn: bool, left: bool)
    requires Enabled(s, a) && Actor(a) == Some(o) && o in s.ops && Accounted(s.ops[o].pc, fails, noConn, left)
    ensures o in Apply(s, a).ops && AccountedNext(Apply(s, a).ops[o].pc, a, o, fails, noConn, left)
  {
    if a.Accept? || a.WriteOk? || a.WriteFail? {
      OwnWrite(s, a, o, fails, noConn, left);
    } else if a.PushSent? || a.Timeout? || a.Abandon? {
      OwnEnd(s, a, o, fails, noConn, left);
    } else {
      OwnDial(s, a, o, fails, noConn, left);
    }
  }

  lemma {:induction false} SenderRun(s0: State, acts: seq<Action>, o: OpId)
    requires Initial(s0) && ValidRun(s0, acts) && o in s0.ops
    ensures o in Exec(s0, acts).ops
    ensures Accounted(Exec(s0, acts).ops[o].pc, FailedWrites(acts, o), NoConnection(acts, o), CallerLeft(acts, o))
    decreases |acts|
  {
    if acts != [] {
      var before, a := acts[..|acts| - 1], acts[|acts| - 1];
      assert acts == before + [a];
      SenderRun(s0, before, o);
      HistoryStep(before, a, o);
      var s := Exec(s0, before);
      if Actor(a) == Some(o) {
        OwnStep(s, a, o, FailedWrites(before, o), NoConnection(before, o), CallerLeft(before, o));
      } else {
        PcStays(s, a, o);
      }
    }
  }

  /** In every run a send returns an error if and only if two of its writes have failed, or a
      dial has failed or found the client quit; a request waits only after a write that did
      not fail, and fails otherwise only when its caller gives up. */
  lemma SendFailsIff(s0: State, acts: seq<Action>, o: OpId)
    requires Initial(s0) && ValidRun(s0, acts) && o in Exec(s0, acts).ops
    ensures var pc, failed := Exec(s0, acts).ops[o].pc, FailedWrites(acts, o) == 2 || NoConnection(acts, o);
            && FailedWrites(acts, o) <= 2
            && (pc.Sent? ==> (pc.err <==> failed))
            && (pc.Waiting? ==> !failed)
            && (pc.Failed? ==> failed || CallerLeft(acts, o))
  {
    SameKeys(s0, acts);
    SenderRun(s0, acts, o);
  }

  // ---------------------------------------------------------------- what reading and ending leave alone

  /** Requests stay where they are, and nobody new is waited for. */
  ghost predicate OnlyFewer(s: State, s': State) {
    && s'.ops.Keys == s.ops.Keys && (forall o :: o in s.ops ==> s'.ops[o].pc == s.ops[o].pc)
    && (forall id :: id in s'.respWait ==> id in s.respWait && s'.respWait[id] == s.respWait[id])
    && (s'.running ==> s.running) && s'.conn == s.conn && s'.lastOp == s.lastOp && s'.reqSent == s.reqSent
    && s.written <= s'.written
  }

  lemma ResponseOnlyFewer(s: State, a: Action)
    requires Enabled(s, a) && a.Response?
    ensures OnlyFewer(s, Apply(s, a))
  {
  }

  lemma CloseOnlyFewer(s: State, a: Action)
    requires Enabled(s, a) && (a.ReadErr? || a.Close?)
    ensures OnlyFewer(s, Apply(s, a))
  {
  }

  // ---------------------------------------------------------------- nobody waits for a failed request

  /** While the client runs, a request that has failed is waited for only until dispatch takes
      note of its send. */
  ghost predicate NoneLingers(s: State) {
    s.running ==> forall id :: id in s.respWait && s.respWait[id] in s.ops && s.ops[s.respWait[id]].pc == Failed ==>
      s.lastOp == Some(s.respWait[id]) && s.reqSent == Some(true)
  }

  lemma LingerMoves(s: State, a: Action)
    requires Inv(s) && NoneLingers(s) && Enabled(s, a)
    requires a.WriteOk? || a.WriteFail? || a.DialFail? || a.DialOk? || a.ReconnectQuit? || a.PushSent?
    ensures NoneLingers(Apply(s, a))
  {
    var s' := Apply(s, a);
    assert s'.respWait == s.respWait && s'.ops == s.ops[a.o := s.ops[a.o].(pc := s'.ops[a.o].pc)];
  }

  lemma LingerEnds(s: State, a: Action)
    requires Inv(s) && NoneLingers(s) && Enabled(s, a) && (a.TakeSent? || a.Timeout? || a.Abandon?)
    ensures NoneLingers(Apply(s, a))
  {
  }

  lemma LingerRegisters(s: State, a: Action)
    requires Inv(s) && NoneLingers(s) && Enabled(s, a) && (a.Accept? || a.Reconnected?)
    ensures NoneLingers(Apply(s, a))
  {
    if a.Reconnected? { OfferedByLastOp(s, a.o); }
  }

  lemma FewerLinger(s: State, s': State)
    requires NoneLingers(s) && OnlyFewer(s, s')
    ensures NoneLingers(s')
  {
  }

  lemma {:induction false} FailedIsForgotten(s0: State, acts: seq<Action>)
    requires Initial(s0) && ValidRun(s0, acts)
    ensures NoneLingers(Exec(s0, acts))
    decreases |acts|
  {
    if acts != [] {
      var before, a := acts[..|acts| - 1], acts[|acts| - 1];
      FailedIsForgotten(s0, before);
      RunInv(s0, before);
      var s := Exec(s0, before);
      if a.TakeSent? || a.Timeout? || a.Abandon? {
        LingerEnds(s, a);
      } else if a.Accept? || a.Reconnected? {
        LingerRegisters(s, a);
      } else if a.Response? {
        ResponseOnlyFewer(s, a);
        FewerLinger(s, Apply(s, a));
      } else if a.ReadErr? || a.Close? {
        CloseOnlyFewer(s, a);
        FewerLinger(s, Apply(s, a));
      } else {
        LingerMoves(s, a);
      }
    }
  }

  // ---------------------------------------------------------------- an answer can arrive

  /** Who waits for an answer has been written on the connection in use. */
  ghost predicate WrittenHere(s: State) {
    s.running ==> forall id :: id in s.respWait && s.respWait[id] in s.ops && s.ops[s.respWait[id]].pc == Waiting ==>
      (s.conn, s.respWait[id]) in s.written
  }

  /** So has who is about to wait. */
  ghost predicate SentHere(s: State) {
    s.running ==> forall id ::
      id in s.respWait && s.respWait[id] in s.ops && s.ops[s.respWait[id]].pc == Sent(false) ==>
      (s.conn, s.respWait[id]) in s.written
  }

  lemma HereMoves(s: State, a: Action)
    requires Inv(s) && WrittenHere(s) && SentHere(s) && Enabled(s, a)
    requires a.WriteOk? || a.WriteFail? || a.DialFail? || a.DialOk? || a.ReconnectQuit? || a.PushSent?
    ensures WrittenHere(Apply(s, a)) && SentHere(Apply(s, a))
  {
    var s' := Apply(s, a);
    assert s'.respWait == s.respWait && s'.ops == s.ops[a.o := s.ops[a.o].(pc := s'.ops[a.o].pc)];
  }

  lemma HereEnds(s: State, a: Action)
    requires Inv(s) && WrittenHere(s) && SentHere(s) && Enabled(s, a)
    requires a.TakeSent? || a.Timeout? || a.Abandon?
    ensures WrittenHere(Apply(s, a)) && SentHere(Apply(s, a))
  {
    var s' := Apply(s, a);
    assert forall id :: id in s'.respWait ==> id in s.respWait && s'.respWait[id] == s.respWait[id];
    assert s'.conn == s.conn && s'.written == s.written && s'.running == s.running;
  }

  lemma HereRegisters(s: State, a: Action)
    requires Inv(s) && WrittenHere(s) && SentHere(s) && Enabled(s, a) && (a.Accept? || a.Reconnected?)
    ensures WrittenHere(Apply(s, a)) && SentHere(Apply(s, a))
  {
    if a.Reconnected? { OfferedByLastOp(s, a.o); }
  }

  lemma FewerHere(s: State, s': State)
    requires WrittenHere(s) && SentHere(s) && OnlyFewer(s, s')
    ensures WrittenHere(s') && SentHere(s')
  {
  }

  lemma {:induction false} HereRun(s0: State, acts: seq<Action>)
    requires Initial(s0) && ValidRun(s0, acts)
    ensures WrittenHere(Exec(s0, acts)) && SentHere(Exec(s0, acts))
    decreases |acts|
  {
    if acts != [] {
      var before, a := acts[..|acts| - 1], acts[|acts| - 1];
      HereRun(s0, before);
      RunInv(s0, before);
      var s := Exec(s0, before);
      if a.TakeSent? || a.Timeout? || a.Abandon? {
        HereEnds(s, a);
      } else if a.Accept? || a.Reconnected? {
        HereRegisters(s, a);
      } else if a.Response? {
        ResponseOnlyFewer(s, a);
        FewerHere(s, Apply(s, a));
      } else if a.ReadErr? || a.Close? {
        CloseOnlyFewer(s, a);
        FewerHere(s, Apply(s, a));
      } else {
        HereMoves(s, a);
      }
    }
  }

  /** In every run, each id that a request waits for while its connection is read can be
      answered, which hands the answer over and ends the wait for that id. */
  lemma AnswerCanArrive(s0: State, acts: seq<Action>, id: Id)
    requires Initial(s0) && ValidRun(s0, acts)
    requires var s := Exec(s0, acts); s.running && s.reading && id in s.respWait
    requires var s := Exec(s0, acts); s.respWait[id] in s.ops && s.ops[s.respWait[id]].pc == Waiting
    ensures var s := Exec(s0, acts);
            var o := s.respWait[id];
            && Enabled(s, Response(s.conn, id))
            && var t := Apply(s, Response(s.conn, id));
               && o in t.ops && id !in t.respWait
               && if s.ops[o].sub then t.ops[o].closes == 1 else id in t.ops[o].delivered
  {
    RunInv(s0, acts);
    HereRun(s0, acts);
    var s := Exec(s0, acts);
    assert forall p :: p in s.ops && id in s.ops[p].ids ==> p == s.respWait[id];
  }

  // ---------------------------------------------------------------- the retry

  /** The request is on its way over a connection that was dialled for it. */
  predicate OnNewConn(s: State, o: OpId, c: Conn) {
    && s.running && s.reading && s.conn == c && s.writeConn == Some(c) && o in s.ops && s.ops[o].pc == Writing(true)
    && s.lastOp == Some(o) && s.reqSent == None
    && forall id :: id in s.ops[o].ids ==> id in s.respWait && s.respWait[id] == o
  }

  /** A first write that fails is followed by a dial and a registration on a new connection. */
  lemma RetryReconnects(s: State, o: OpId)
    requires Inv(s) && s.running && Enabled(s, WriteFail(o)) && !s.ops[o].pc.retry
    ensures var s1 := Apply(s, WriteFail(o));
            Enabled(s1, DialOk(o)) && var s2 := Apply(s1, DialOk(o));
            Enabled(s2, Reconnected(o)) && OnNewConn(Apply(s2, Reconnected(o)), o, s.nextConn)
  {
  }

  lemma NewConnIsWritten(s: State, o: OpId, c: Conn)
    requires OnNewConn(s, o, c)
    ensures Enabled(s, WriteOk(o)) && var s1 := Apply(s, WriteOk(o));
            Enabled(s1, PushSent(o)) && var s2 := Apply(s1, PushSent(o));
            && o in s2.ops && s2.ops[o].pc == Waiting && (c, o) in s2.written && Attended(s2, o)
            && forall id :: id in s2.ops[o].ids ==> id in s2.respWait && s2.respWait[id] == o
  {
  }

  /** From every reachable state in which a first write fails while the client runs, the
      request can still be written on a newer connection, where it is registered and waits. */
  lemma RetryDelivers(s: State, o: OpId) returns (more: seq<Action>, c: Conn)
    requires Inv(s) && s.running && Enabled(s, WriteFail(o)) && !s.ops[o].pc.retry
    ensures ValidRun(s, more) && |more| > 0 && more[0] == WriteFail(o) && c > s.conn
    ensures var t := Exec(s, more);
            && o in t.ops && t.ops[o].pc == Waiting && (c, o) in t.written && t.conn == c && Attended(t, o)
            && forall id :: id in t.ops[o].ids ==> id in t.respWait && t.respWait[id] == o
  {
    c := s.nextConn;
    RetryReconnects(s, o);
    var s1 := Apply(s, WriteFail(o));
    var s2 := Apply(s1, DialOk(o));
    var s3 := Apply(s2, Reconnected(o));
    NewConnIsWritten(s3, o, c);
    var s4 := Apply(s3, WriteOk(o));
    more := ExtendRun(s, [], s, WriteFail(o));
    more := ExtendRun(s, more, s1, DialOk(o));
    more := ExtendRun(s, more, s2, Reconnected(o));
    more := ExtendRun(s, more, s3, WriteOk(o));
    more := ExtendRun(s, more, s4, PushSent(o));
  }
}
