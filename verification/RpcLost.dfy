/** Requests that are sent and then never answered nor closed. */
module RpcLost {
  import opened Basics
  import opened Rpc
  import opened RpcProof

  /** The request has been accepted and its caller has not been given an error. */
  predicate Live(s: State, o: OpId) {
    o in s.ops && s.ops[o].pc != New && s.ops[o].pc != Failed
  }

  /** Its channel is closed, or each of its ids is answered or waited for. */
  predicate Served(s: State, o: OpId)
    requires o in s.ops
  {
    s.ops[o].closes > 0 || forall id :: id in s.ops[o].ids ==>
      id in s.ops[o].delivered || (id in s.respWait && s.respWait[id] == o)
  }

  predicate Registered(s: State, o: OpId) {
    exists id :: id in s.respWait && s.respWait[id] == o
  }

  /** The ids of a request are waited for together. */
  ghost predicate Whole(s: State) {
    forall o :: o in s.ops && Registered(s, o) ==> Served(s, o)
  }

  /** The step forgets the request: a read error spares the one in flight but takes its ids
      out, and a reconnection after a read error drops the old handler with whoever was
      registered there since. */
  predicate Strikes(s: State, a: Action, o: OpId) {
    match a
    case ReadErr(_) => s.lastOp == Some(o) && Registered(s, o)
    case Reconnected(_) => s.lastOp != Some(o) && !s.reading && Registered(s, o)
    case _ => false
  }

  /** The step registers all ids of the request. */
  predicate Rescues(s: State, a: Action, o: OpId) {
    match a
    case Accept(p) => p == o
    case Reconnected(_) => s.lastOp == Some(o)
    case _ => false
  }

  // ---------------------------------------------------------------- one step

  /** What a step does to one request. */
  predicate StepRight(s: State, s': State, a: Action, o: OpId)
    requires o in s.ops && o in s'.ops
  {
    && (Registered(s', o) ==> Served(s', o))
    && (Live(s', o) ==> (Served(s', o) <==> Rescues(s, a, o) || (Served(s, o) && !Strikes(s, a, o))))
  }

  /** A failed send is told to its caller before it is taken off. */
  predicate FailureTold(s: State) {
    s.reqSent == Some(true) ==> s.lastOp.Some? && s.lastOp.value in s.ops && s.ops[s.lastOp.value].pc == Failed
  }

  ghost predicate LostInv(s: State) {
    Inv(s) && Whole(s) && FailureTold(s)
  }

  /** A registered request has an id without an answer, and is open. */
  lemma RegisteredIsOpen(s: State, o: OpId) returns (id: Id)
    requires WaitInv(s) && Registered(s, o)
    ensures id in s.respWait && s.respWait[id] == o && o in s.ops
    ensures id in s.ops[o].ids && id !in s.ops[o].delivered && s.ops[o].closes == 0
  {
    id :| id in s.respWait && s.respWait[id] == o;
  }

  /** The request and its ids are as before. */
  ghost predicate Untouched(s: State, s': State, o: OpId)
    requires o in s.ops && o in s'.ops
  {
    && s'.ops[o].ids == s.ops[o].ids && s'.ops[o].delivered == s.ops[o].delivered && s'.ops[o].closes == s.ops[o].closes
    && (forall id :: (id in s.respWait && s.respWait[id] == o) <==> (id in s'.respWait && s'.respWait[id] == o))
  }

  lemma UntouchedIsRight(s: State, s': State, a: Action, o: OpId)
    requires Whole(s) && o in s.ops && o in s'.ops && Untouched(s, s', o)
    requires !Strikes(s, a, o) && !Rescues(s, a, o)
    ensures StepRight(s, s', a, o)
  {
    assert Registered(s', o) <==> Registered(s, o);
    assert Served(s', o) <==> Served(s, o);
  }

  lemma AcceptRight(s: State, a: Action, o: OpId)
    requires LostInv(s) && Enabled(s, a) && a.Accept? && o in s.ops
    ensures StepRight(s, Apply(s, a), a, o)
  {
    if o != a.o { UntouchedIsRight(s, Apply(s, a), a, o); }
  }

  /** Only ids of one request are taken out. */
  lemma RemoveRight(s: State, s': State, a: Action, p: OpId, o: OpId)
    requires LostInv(s) && p in s.ops && o in s.ops && o in s'.ops
    requires s'.respWait == s.respWait - s.ops[p].ids && s'.ops[o] == s.ops[o].(pc := s'.ops[o].pc)
    requires (a.TakeSent? || a.Timeout?) && (o == p ==> s'.ops[o].pc == Failed)
    ensures StepRight(s, s', a, o)
  {
    if o != p { UntouchedIsRight(s, s', a, o); }
  }

  lemma ResponseRight(s: State, a: Action, o: OpId)
    requires LostInv(s) && Enabled(s, a) && a.Response? && o in s.ops
    ensures StepRight(s, Apply(s, a), a, o)
  {
    var s' := Apply(s, a);
    if a.id in s.respWait && s.respWait[a.id] == o {
      assert Registered(s, o);
    } else {
      UntouchedIsRight(s, s', a, o);
    }
  }

  /** All waiting requests are closed but one in flight, which is only forgotten. */
  lemma CancelRight(s: State, s': State, inflight: Option<OpId>, o: OpId)
    requires LostInv(s) && o in s.ops && s'.ops == CloseOps(s.ops, s.respWait, inflight) && s'.respWait == map[]
    ensures !Registered(s', o)
    ensures Served(s', o) <==> Served(s, o) && !(inflight == Some(o) && Registered(s, o))
  {
    assert Registered(s, o) <==> o in s.respWait.Values;
    if Registered(s, o) { var id := RegisteredIsOpen(s, o); }
  }

  lemma ReadErrRight(s: State, a: Action, o: OpId)
    requires LostInv(s) && Enabled(s, a) && (a.ReadErr? || a.Close?) && o in s.ops
    ensures o in Apply(s, a).ops && StepRight(s, Apply(s, a), a, o)
  {
    var s' := Apply(s, a);
    if a.ReadErr? {
      CancelRight(s, s', s.lastOp, o);
    } else if s.reading {
      CancelRight(s, s', None, o);
    } else {
      UntouchedIsRight(s, s', a, o);
    }
  }

  /** The in-flight request is registered on the new connection; the others were closed with
      the old one, or forgotten where it was closed before. */
  lemma ReconnectedRight(s: State, a: Action, o: OpId)
    requires LostInv(s) && Enabled(s, a) && a.Reconnected? && o in s.ops
    ensures o in Apply(s, a).ops && StepRight(s, Apply(s, a), a, o)
  {
    OfferedByLastOp(s, a.o);
    var s' := Apply(s, a);
    if o == a.o {
      assert Served(s', o);
    } else {
      assert forall id :: id in s'.respWait ==> s'.respWait[id] == a.o;
      assert !Registered(s', o);
      if s.reading {
        var t := s.(ops := CloseOps(s.ops, s.respWait, s.lastOp), respWait := map[]);
        CancelRight(s, t, s.lastOp, o);
        assert s'.ops[o] == t.ops[o];
      } else if Registered(s, o) {
        var id := RegisteredIsOpen(s, o);
      }
    }
  }

  lemma TakeSentRight(s: State, a: Action, o: OpId)
    requires LostInv(s) && Enabled(s, a) && a.TakeSent? && o in s.ops
    ensures o in Apply(s, a).ops && StepRight(s, Apply(s, a), a, o)
  {
    if s.reqSent.value {
      RemoveRight(s, Apply(s, a), a, s.lastOp.value, o);
    } else {
      UntouchedIsRight(s, Apply(s, a), a, o);
    }
  }

  /** A sender or caller moves on by itself. */
  lemma SenderRight(s: State, a: Action, o: OpId)
    requires LostInv(s) && Enabled(s, a) && o in s.ops
    requires a.WriteOk? || a.WriteFail? || a.DialFail? || a.DialOk? || a.ReconnectQuit? || a.PushSent? || a.Abandon?
    ensures o in Apply(s, a).ops && StepRight(s, Apply(s, a), a, o)
  {
    var s' := Apply(s, a);
    assert s'.respWait == s.respWait && s'.ops == s.ops[a.o := s.ops[a.o].(pc := s'.ops[a.o].pc)];
    UntouchedIsRight(s, s', a, o);
  }

  lemma StepIsRight(s: State, a: Action, o: OpId)
    requires LostInv(s) && Enabled(s, a) && o in s.ops
    ensures o in Apply(s, a).ops && StepRight(s, Apply(s, a), a, o)
  {
    match a
    case Accept(_) => AcceptRight(s, a, o);
    case TakeSent => TakeSentRight(s, a, o);
    case Timeout(p) => RemoveRight(s, Apply(s, a), a, p, o);
    case Response(_, _) => ResponseRight(s, a, o);
    case ReadErr(_) => ReadErrRight(s, a, o);
    case Close => ReadErrRight(s, a, o);
    case Reconnected(_) => ReconnectedRight(s, a, o);
    case _ => SenderRight(s, a, o);
  }

  lemma LostKeeps(s: State, a: Action)
    requires LostInv(s) && Enabled(s, a)
    ensures LostInv(Apply(s, a)) && Apply(s, a).ops.Keys == s.ops.Keys
  {
    StepKeeps(s, a);
    KeysKept(s, a);
    var s' := Apply(s, a);
    forall o | o in s'.ops && Registered(s', o) ensures Served(s', o) { StepIsRight(s, a, o); }
    ToldKeeps(s, a);
  }

  lemma ToldKeeps(s: State, a: Action)
    requires LostInv(s) && Enabled(s, a)
    ensures FailureTold(Apply(s, a))
  {
  }

  lemma KeysKept(s: State, a: Action)
    requires Enabled(s, a)
    ensures Apply(s, a).ops.Keys == s.ops.Keys
  {
  }

  // ---------------------------------------------------------------- who is looked after

  /** The request is served, and if it is waited for then by a handler whose connection is
      being read. */
  predicate Attended(s: State, o: OpId)
    requires o in s.ops
  {
    Served(s, o) && (Registered(s, o) ==> s.running && s.reading)
  }

  /** The step puts the request in the care of a handler whose connection is being read. */
  predicate Takes(s: State, a: Action, o: OpId) {
    match a
    case Accept(p) => p == o && (s.reading || IdsOf(s, Some(o)) == {})
    case Reconnected(_) => s.lastOp == Some(o)
    case _ => false
  }

  /** The step takes a request in flight out without closing it. */
  predicate Drops(s: State, a: Action, o: OpId) {
    a.ReadErr? && s.lastOp == Some(o) && Registered(s, o)
  }

  predicate AttendRight(s: State, s': State, a: Action, o: OpId)
    requires o in s.ops && o in s'.ops
  {
    Live(s', o) ==> (Attended(s', o) <==> Takes(s, a, o) || (Attended(s, o) && !Drops(s, a, o)))
  }

  lemma AttendedAccept(s: State, a: Action, o: OpId)
    requires LostInv(s) && Enabled(s, a) && a.Accept? && o in s.ops
    ensures AttendRight(s, Apply(s, a), a, o)
  {
    var s' := Apply(s, a);
    AcceptRight(s, a, o);
    if o == a.o {
      assert OpInv(s, o);
      if s.ops[o].ids != {} {
        var id :| id in s.ops[o].ids;
        assert id in s'.respWait && s'.respWait[id] == o;
      }
    } else {
      SameWaits(s, s', o);
    }
  }

  lemma SameWaits(s: State, s': State, o: OpId)
    requires o in s.ops && o in s'.ops && Untouched(s, s', o)
    ensures Registered(s', o) <==> Registered(s, o)
  {
  }

  /** Whoever has been waited for on a connection that was read is closed with it. */
  lemma AttendedClosing(s: State, a: Action, o: OpId)
    requires LostInv(s) && Enabled(s, a) && (a.ReadErr? || a.Close?) && o in s.ops
    ensures o in Apply(s, a).ops && AttendRight(s, Apply(s, a), a, o)
  {
    ReadErrRight(s, a, o);
    if a.ReadErr? || s.reading { assert !Registered(Apply(s, a), o); }
  }

  lemma AttendedReconnect(s: State, a: Action, o: OpId)
    requires LostInv(s) && Enabled(s, a) && a.Reconnected? && o in s.ops
    ensures o in Apply(s, a).ops && AttendRight(s, Apply(s, a), a, o)
  {
    ReconnectedRight(s, a, o);
    OfferedByLastOp(s, a.o);
    var s' := Apply(s, a);
    if o != a.o { assert forall id :: id in s'.respWait ==> s'.respWait[id] == a.o; }
  }

  /** An answer is read by the handler of a connection that is being read. */
  lemma AttendedResponse(s: State, a: Action, o: OpId)
    requires LostInv(s) && Enabled(s, a) && a.Response? && o in s.ops
    ensures o in Apply(s, a).ops && AttendRight(s, Apply(s, a), a, o)
  {
    ResponseRight(s, a, o);
    assert s.reading && Apply(s, a).reading && Apply(s, a).running;
  }

  /** Any other step leaves the connection alone, and all waits but those of a caller who has
      got an error. */
  lemma AttendedOther(s: State, a: Action, o: OpId)
    requires LostInv(s) && Enabled(s, a) && o in s.ops
    requires !a.Accept? && !a.ReadErr? && !a.Close? && !a.Reconnected? && !a.Response?
    ensures o in Apply(s, a).ops && AttendRight(s, Apply(s, a), a, o)
  {
    StepIsRight(s, a, o);
    var s' := Apply(s, a);
    assert s'.running == s.running && s'.reading == s.reading;
    if Live(s', o) {
      WaitsKept(s, a, o);
      SameWaits(s, s', o);
    }
  }

  lemma WaitsKept(s: State, a: Action, o: OpId)
    requires LostInv(s) && Enabled(s, a) && o in s.ops && o in Apply(s, a).ops && Live(Apply(s, a), o)
    requires !a.Accept? && !a.ReadErr? && !a.Close? && !a.Reconnected? && !a.Response?
    ensures Untouched(s, Apply(s, a), o)
  {
    var s' := Apply(s, a);
    if a.TakeSent? || a.Timeout? {
      assert s'.ops[o].ids == s.ops[o].ids;
    } else {
      assert s'.respWait == s.respWait;
    }
  }

  /** After a step a live request is looked after if and only if the step sees to it, or it
      was before and is not dropped in flight. */
  lemma AttendedStep(s: State, a: Action, o: OpId)
    requires LostInv(s) && Enabled(s, a) && o in s.ops
    ensures o in Apply(s, a).ops && AttendRight(s, Apply(s, a), a, o)
  {
    match a
    case Accept(_) => AttendedAccept(s, a, o);
    case ReadErr(_) => AttendedClosing(s, a, o);
    case Close => AttendedClosing(s, a, o);
    case Reconnected(_) => AttendedReconnect(s, a, o);
    case Response(_, _) => AttendedResponse(s, a, o);
    case _ => AttendedOther(s, a, o);
  }

  // ---------------------------------------------------------------- every run

  /** Some step of the run has seen to the request, and none since has dropped it. */
  ghost predicate InCare(s0: State, acts: seq<Action>, o: OpId)
    requires ValidRun(s0, acts)
    decreases |acts|
  {
    acts != [] &&
    var before, a := acts[..|acts| - 1], acts[|acts| - 1];
    var s := Exec(s0, before);
    Takes(s, a, o) || (InCare(s0, before, o) && !Drops(s, a, o))
  }

  lemma {:induction false} CareRun(s0: State, acts: seq<Action>, o: OpId)
    requires Initial(s0) && ValidRun(s0, acts) && o in s0.ops
    ensures var s := Exec(s0, acts);
            && LostInv(s) && o in s.ops && (Live(s, o) ==> (Attended(s, o) <==> InCare(s0, acts, o)))
            && (s.ops[o].pc == New ==> !InCare(s0, acts, o))
    decreases |acts|
  {
    if acts == [] {
      RunInv(s0, acts);
    } else {
      var before, a := acts[..|acts| - 1], acts[|acts| - 1];
      CareRun(s0, before, o);
      var s := Exec(s0, before);
      LostKeeps(s, a);
      AttendedStep(s, a, o);
      if Live(Apply(s, a), o) { LiveBefore(s, a, o); }
      NewBefore(s, a, o);
      if a == Accept(o) { NewIsUnattended(s, o); }
    }
  }

  lemma LiveBefore(s: State, a: Action, o: OpId)
    requires Enabled(s, a) && o in s.ops && Live(Apply(s, a), o)
    ensures Live(s, o) || a == Accept(o)
  {
    if Actor(a) != Some(o) { PcStays(s, a, o); }
  }

  /** The request whose sender or caller takes the step. */
  function Actor(a: Action): Option<OpId> {
    match a
    case TakeSent => None
    case Response(_, _) => None
    case ReadErr(_) => None
    case Close => None
    case _ => Some(a.o)
  }

  lemma PcStays(s: State, a: Action, o: OpId)
    requires Enabled(s, a) && o in s.ops && Actor(a) != Some(o)
    ensures o in Apply(s, a).ops && Apply(s, a).ops[o].pc == s.ops[o].pc
  {
  }

  lemma NewBefore(s: State, a: Action, o: OpId)
    requires LostInv(s) && Enabled(s, a) && o in s.ops && o in Apply(s, a).ops
    ensures Apply(s, a).ops[o].pc == New ==> s.ops[o].pc == New && !Takes(s, a, o)
  {
    if Actor(a) != Some(o) {
      PcStays(s, a, o);
      if a.Reconnected? { OfferedByLastOp(s, a.o); }
    }
  }

  lemma NewIsUnattended(s: State, o: OpId)
    requires LostInv(s) && Enabled(s, Accept(o))
    ensures s.ops[o].pc == New && (Takes(s, Accept(o), o) || !Attended(s, o))
  {
    assert OpInv(s, o);
  }

  /** In every run a request that was accepted and not given up is looked after if and only if
      it was accepted while the connection was read, or has reconnected itself, and no read
      error took it out in flight since. */
  lemma AttendedIff(s0: State, acts: seq<Action>, o: OpId)
    requires Initial(s0) && ValidRun(s0, acts) && Live(Exec(s0, acts), o)
    ensures Attended(Exec(s0, acts), o) <==> InCare(s0, acts, o)
  {
    SameKeys(s0, acts);
    CareRun(s0, acts, o);
  }

  lemma {:induction false} SameKeys(s0: State, acts: seq<Action>)
    requires Initial(s0) && ValidRun(s0, acts)
    ensures Exec(s0, acts).ops.Keys == s0.ops.Keys
    decreases |acts|
  {
    if acts != [] {
      SameKeys(s0, acts[..|acts| - 1]);
      KeysKept(Exec(s0, acts[..|acts| - 1]), acts[|acts| - 1]);
    }
  }

  // ---------------------------------------------------------------- lost for good

  /** The request is answered in full, or closed. */
  predicate Ended(s: State, o: OpId)
    requires o in s.ops
  {
    s.ops[o].closes > 0 || s.ops[o].ids <= s.ops[o].delivered
  }

  predicate GivesUp(a: Action, o: OpId) {
    a == Timeout(o) || a == Abandon(o)
  }

  lemma EndedIsAttended(s: State, o: OpId)
    requires WaitInv(s) && o in s.ops && Ended(s, o)
    ensures Attended(s, o)
  {
  }

  /** Only its caller moves a waiting request on. */
  lemma WaitingStays(s: State, a: Action, o: OpId)
    requires Inv(s) && Enabled(s, a) && o in s.ops && s.ops[o].pc == Waiting
    ensures o in Apply(s, a).ops && Apply(s, a).ops[o].pc == if GivesUp(a, o) then Failed else Waiting
    ensures !Takes(s, a, o)
  {
    if Actor(a) != Some(o) {
      PcStays(s, a, o);
      if a.Reconnected? { OfferedByLastOp(s, a.o); }
    }
  }

  /** A request that waits and is not looked after waits until its caller gives up. */
  lemma LostForGood(s: State, a: Action, o: OpId)
    requires LostInv(s) && Enabled(s, a) && o in s.ops && s.ops[o].pc == Waiting && !Attended(s, o)
    ensures var s' := Apply(s, a);
            && o in s'.ops && s'.ops[o].pc == (if GivesUp(a, o) then Failed else Waiting)
            && (!GivesUp(a, o) ==> !Attended(s', o) && !Ended(s', o))
  {
    WaitingStays(s, a, o);
    AttendedStep(s, a, o);
    LostKeeps(s, a);
    if Ended(Apply(s, a), o) { EndedIsAttended(Apply(s, a), o); }
  }

  lemma {:induction false} LostThroughout(s: State, more: seq<Action>, o: OpId)
    requires LostInv(s) && o in s.ops && s.ops[o].pc == Waiting && !Attended(s, o)
    requires ValidRun(s, more) && forall a :: a in more ==> !GivesUp(a, o)
    ensures var t := Exec(s, more); LostInv(t) && o in t.ops && t.ops[o].pc == Waiting && !Attended(t, o)
    decreases |more|
  {
    if more != [] {
      var before, a := more[..|more| - 1], more[|more| - 1];
      LostThroughout(s, before, o);
      LostForGood(Exec(s, before), a, o);
      LostKeeps(Exec(s, before), a);
    }
  }

  /** A request that is looked after has ended, or is closed with the client at the latest. */
  lemma AttendedCanEnd(s: State, o: OpId)
    requires LostInv(s) && o in s.ops && Attended(s, o) && !Ended(s, o)
    ensures Enabled(s, Close) && o in Apply(s, Close).ops && Ended(Apply(s, Close), o)
  {
    var id :| id in s.ops[o].ids && id !in s.ops[o].delivered;
    assert id in s.respWait && s.respWait[id] == o;
    assert Registered(s, o) && o in s.respWait.Values;
  }

  /** Some way on, without its caller giving up, ends the request. */
  ghost predicate MayEnd(s: State, o: OpId) {
    exists more :: ValidRun(s, more) && EndsWith(s, more, o)
  }

  ghost predicate EndsWith(s: State, more: seq<Action>, o: OpId)
    requires ValidRun(s, more)
  {
    (forall a :: a in more ==> !GivesUp(a, o)) && o in Exec(s, more).ops && Ended(Exec(s, more), o)
  }

  lemma MayEndIff(s: State, o: OpId)
    requires LostInv(s) && o in s.ops && s.ops[o].pc == Waiting
    ensures MayEnd(s, o) <==> Attended(s, o)
  {
    if Attended(s, o) {
      assert ValidRun(s, []);
      if Ended(s, o) {
        assert EndsWith(s, [], o);
      } else {
        AttendedCanEnd(s, o);
        var more := ExtendRun(s, [], s, Close);
        assert EndsWith(s, more, o);
      }
    } else if MayEnd(s, o) {
      var more :| ValidRun(s, more) && EndsWith(s, more, o);
      LostThroughout(s, more, o);
      EndedIsAttended(Exec(s, more), o);
    }
  }

  /** Exactly which requests are lost. In every run, a waiting request can still be answered
      or closed if and only if it was accepted while the connection was read, or has
      reconnected itself, and no read error took it out in flight since. */
  lemma LostIff(s0: State, acts: seq<Action>, o: OpId)
    requires Initial(s0) && ValidRun(s0, acts)
    requires o in Exec(s0, acts).ops && Exec(s0, acts).ops[o].pc == Waiting
    ensures MayEnd(Exec(s0, acts), o) <==> InCare(s0, acts, o)
  {
    SameKeys(s0, acts);
    CareRun(s0, acts, o);
    MayEndIff(Exec(s0, acts), o);
  }

  // ---------------------------------------------------------------- two runs that lose one

  /** The request is being written and nobody waits for its answer. */
  predicate Forgotten(s: State, o: OpId) {
    && s.running && s.writeConn.Some? && s.respWait == map[] && s.lastOp == Some(o) && s.reqSent == None
    && o in s.ops && s.ops[o].pc == Writing(false) && s.ops[o].ids != {}
    && s.ops[o].delivered == {} && s.ops[o].closes == 0
  }

  lemma ReadErrorForgets(s: State, o: OpId)
    requires Initial(s) && o in s.ops && s.ops[o].ids != {}
    ensures Enabled(s, Accept(o)) && Enabled(Apply(s, Accept(o)), ReadErr(s.conn))
    ensures Forgotten(Apply(Apply(s, Accept(o)), ReadErr(s.conn)), o)
  {
  }

  lemma ForgottenIsSent(s: State, o: OpId)
    requires Forgotten(s, o)
    ensures Enabled(s, WriteOk(o)) && var t := Apply(s, WriteOk(o));
            Enabled(t, PushSent(o)) && var u := Apply(t, PushSent(o));
            Enabled(u, TakeSent) && var v := Apply(u, TakeSent);
            o in v.ops && v.ops[o].pc == Waiting && !Served(v, o) && v.lastOp == None
  {
    var id :| id in s.ops[o].ids;
    assert id in Apply(s, WriteOk(o)).ops[o].ids;
  }

  /** The read loop fails while the request is being written: the write succeeds, and nobody
      waits for the answer. */
  lemma ReadErrorLoses(s: State, o: OpId) returns (acts: seq<Action>)
    requires Initial(s) && o in s.ops && s.ops[o].ids != {}
    ensures ValidRun(s, acts) && var t := Exec(s, acts);
            o in t.ops && t.ops[o].pc == Waiting && !Served(t, o) && !Attended(t, o) && t.lastOp == None
  {
    ReadErrorForgets(s, o);
    var s2 := Apply(Apply(s, Accept(o)), ReadErr(s.conn));
    ForgottenIsSent(s2, o);
    var s3 := Apply(s2, WriteOk(o));
    acts := ExtendRun(s, [], s, Accept(o));
    acts := ExtendRun(s, acts, Apply(s, Accept(o)), ReadErr(s.conn));
    acts := ExtendRun(s, acts, s2, WriteOk(o));
    acts := ExtendRun(s, acts, s3, PushSent(o));
    acts := ExtendRun(s, acts, Apply(s3, PushSent(o)), TakeSent);
  }

  /** The read loop has failed before, and nothing has reconnected since: the request waits
      with a handler for which nobody reads. */
  predicate Unread(s: State, o: OpId) {
    && s.running && !s.reading && s.writeConn.Some? && s.lastOp == Some(o) && s.reqSent == None
    && o in s.ops && s.ops[o].pc == Writing(false) && s.ops[o].ids != {}
    && s.ops[o].delivered == {} && s.ops[o].closes == 0 && s.respWait == Register(map[], s.ops[o].ids, o)
  }

  lemma DeadIsUnread(s: State, o: OpId)
    requires Initial(s) && o in s.ops && s.ops[o].ids != {}
    ensures Enabled(s, ReadErr(s.conn)) && Enabled(Apply(s, ReadErr(s.conn)), Accept(o))
    ensures Unread(Apply(Apply(s, ReadErr(s.conn)), Accept(o)), o)
  {
    var s1 := Apply(s, ReadErr(s.conn));
    assert s1.ops[o] == s.ops[o] && s1.respWait == map[];
  }

  lemma UnreadIsSent(s: State, o: OpId)
    requires Unread(s, o)
    ensures Enabled(s, WriteOk(o)) && var t := Apply(s, WriteOk(o));
            Enabled(t, PushSent(o)) && var u := Apply(t, PushSent(o));
            Enabled(u, TakeSent) && var v := Apply(u, TakeSent);
            o in v.ops && v.ops[o].pc == Waiting && Served(v, o) && !Attended(v, o) && v.lastOp == None
  {
    var id :| id in s.ops[o].ids;
    var v := Apply(Apply(Apply(s, WriteOk(o)), PushSent(o)), TakeSent);
    assert v.respWait == s.respWait && v.ops[o].ids == s.ops[o].ids;
    assert id in v.respWait && v.respWait[id] == o;
  }

  /** A connection that can still be written after its end of input was read: the next request
      is registered and written, and nobody will read its answer. */
  lemma DeadConnLoses(s: State, o: OpId) returns (acts: seq<Action>)
    requires Initial(s) && o in s.ops && s.ops[o].ids != {}
    ensures ValidRun(s, acts) && var t := Exec(s, acts);
            o in t.ops && t.ops[o].pc == Waiting && Served(t, o) && !Attended(t, o) && t.lastOp == None
  {
    DeadIsUnread(s, o);
    var s2 := Apply(Apply(s, ReadErr(s.conn)), Accept(o));
    UnreadIsSent(s2, o);
    var s3 := Apply(s2, WriteOk(o));
    acts := ExtendRun(s, [], s, ReadErr(s.conn));
    acts := ExtendRun(s, acts, Apply(s, ReadErr(s.conn)), Accept(o));
    acts := ExtendRun(s, acts, s2, WriteOk(o));
    acts := ExtendRun(s, acts, s3, PushSent(o));
    acts := ExtendRun(s, acts, Apply(s3, PushSent(o)), TakeSent);
  }

  lemma ExtendRun(s: State, acts: seq<Action>, t: State, a: Action) returns (more: seq<Action>)
    requires ValidRun(s, acts) && Exec(s, acts) == t && Enabled(t, a)
    ensures ValidRun(s, more) && Exec(s, more) == Apply(t, a) && more == acts + [a]
  {
    more := acts + [a];
    assert more[..|more| - 1] == acts;
  }
}
