/** The re-chunking pipe: whatever the sizes of the writes, the sink sees whole chunks and
    one shorter rest. */
module ChunkPipe {
  import opened Basics

  const MAX_BUFFER_SIZE: nat := 2 * CHUNK_SIZE

  datatype Error = SinkError | ShortWrite

  /** What the sink does with one write: take all of it, fail after some bytes, or take too
      little without an error. */
  datatype Answer = Full | Fails(n: nat) | TakesLess(n: nat)

  /** Who reads: the other end of an io.Pipe, which goes away after some more bytes, or any
      writer, with the answers it will give before it takes everything. */
  datatype Reader = PipeEnd(left: nat) | Script(answers: seq<Answer>)

  function NextAnswer(r: Reader, p: Bytes): Answer {
    match r
    case PipeEnd(left) => if |p| <= left then Full else Fails(left)
    case Script(answers) => if answers == [] then Full else answers[0]
  }

  function NextReader(r: Reader, p: Bytes): Reader {
    match r
    case PipeEnd(left) => PipeEnd(if |p| <= left then left - |p| else 0)
    case Script(answers) => Script(if answers == [] then [] else answers[1..])
  }

  /** One write to the sink: what was sent, how much of it arrived, and whether the sink
      reported all of it taken. */
  datatype Attempt = Attempt(p: Bytes, got: nat, ok: bool)

  function Answered(p: Bytes, a: Answer): Attempt {
    match a
    case Full => Attempt(p, |p|, true)
    case Fails(n) => Attempt(p, Min(n, |p|), false)
    case TakesLess(n) => Attempt(p, if p == [] then 0 else Min(n, |p| - 1), p == [])
  }

  /** What the pipe counts as delivered: the writes reported in full. */
  function Confirmed(log: seq<Attempt>): Bytes {
    if log == [] then []
    else Confirmed(log[..|log| - 1]) + if log[|log| - 1].ok then log[|log| - 1].p else []
  }

  /** What has arrived, byte by byte. */
  function Received(log: seq<Attempt>): Bytes
    requires Sound(log)
  {
    if log == [] then []
    else Received(log[..|log| - 1]) + log[|log| - 1].p[..log[|log| - 1].got]
  }

  predicate Sound(log: seq<Attempt>) {
    forall i :: 0 <= i < |log| ==>
        log[i].p != [] && log[i].got <= |log[i].p| && (log[i].ok ==> log[i].got == |log[i].p|)
  }

  /** Each write sends the input from where the confirmed bytes end. */
  predicate Placed(log: seq<Attempt>, input: Bytes) {
    log == [] ||
    (Placed(log[..|log| - 1], input) && Confirmed(log[..|log| - 1]) + log[|log| - 1].p <= input)
  }

  predicate WholeChunks(log: seq<Attempt>) {
    forall i :: 0 <= i < |log| ==> |log[i].p| == CHUNK_SIZE
  }

  predicate AllOk(log: seq<Attempt>) {
    forall i :: 0 <= i < |log| ==> log[i].ok
  }

  lemma OneChunkMore(log: seq<Attempt>, a: Attempt)
    requires |a.p| == CHUNK_SIZE
    ensures WholeChunks(log) ==> WholeChunks(log + [a])
  {
  }

  /** Where the reader stands after these attempts. */
  function ReaderAfter(r: Reader, log: seq<Attempt>): Reader {
    if log == [] then r else NextReader(ReaderAfter(r, log[..|log| - 1]), log[|log| - 1].p)
  }

  /** The attempts are those this reader answers to. */
  predicate Follows(log: seq<Attempt>, r: Reader) {
    log == [] ||
    var before, a := log[..|log| - 1], log[|log| - 1];
    Follows(before, r) && a == Answered(a.p, NextAnswer(ReaderAfter(r, before), a.p))
  }

  /** What has gone in: the confirmed bytes and the waiting ones. */
  function Total(log: seq<Attempt>, waiting: Bytes): Bytes {
    Confirmed(log) + waiting
  }

  predicate Good(log: seq<Attempt>, waiting: Bytes) {
    Sound(log) && Placed(log, Total(log, waiting))
  }

  /** More bytes come in. */
  lemma GoodMore(log: seq<Attempt>, waiting: Bytes, part: Bytes)
    requires Good(log, waiting)
    ensures Good(log, waiting + part) && Total(log, waiting + part) == Total(log, waiting) + part
  {
    assert Confirmed(log) + (waiting + part) == Confirmed(log) + waiting + part;
    PlacedInMore(log, Total(log, waiting), Total(log, waiting + part));
  }

  lemma {:induction false} PlacedInMore(log: seq<Attempt>, input: Bytes, more: Bytes)
    requires Placed(log, input) && input <= more
    ensures Placed(log, more)
  {
    if log != [] { PlacedInMore(log[..|log| - 1], input, more); }
  }

  /** What waits first is sent; it stays unless the sink reports it taken. */
  lemma GoodSend(log: seq<Attempt>, waiting: Bytes, a: Attempt)
    requires Good(log, waiting) && Sound([a]) && a.p <= waiting
    ensures var rest := if a.ok then waiting[|a.p|..] else waiting;
            Good(log + [a], rest) && Total(log + [a], rest) == Total(log, waiting)
  {
    var l := log + [a];
    assert l[..|l| - 1] == log && a == [a][0];
    SplitInput(Confirmed(log), a.p, waiting);
  }

  lemma SplitInput(sent: Bytes, chunk: Bytes, waiting: Bytes)
    requires chunk <= waiting
    ensures sent + chunk <= sent + waiting && sent + [] + waiting == sent + waiting
    ensures sent + chunk + waiting[|chunk|..] == sent + waiting
  {
  }

  /** The writer the pipe sends to, and the attempts it has answered. */
  class Sink {
    const reader: Reader
    var log: seq<Attempt>
    var closed: bool

    constructor (reader: Reader)
      ensures this.reader == reader && log == [] && !closed
    {
      this.reader := reader;
      log := [];
      closed := false;
    }

    function Next(p: Bytes): Attempt
      reads this
    {
      Answered(p, NextAnswer(ReaderAfter(reader, log), p))
    }

    method Write(p: Bytes) returns (err: Option<Error>)
      requires p != []
      modifies this
      ensures var a := old(Next(p)); log == old(log) + [a] && Sound([a]) && (err == None <==> a.ok) && a.p == p
      ensures closed == old(closed)
      ensures Follows(old(log), reader) ==> Follows(log, reader)
    {
      var answer := NextAnswer(ReaderAfter(reader, log), p);
      ghost var before := log;
      log := log + [Answered(p, answer)];
      assert log[..|log| - 1] == before;
      err := match answer case Full => None case Fails(_) => Some(SinkError) case TakesLess(_) => Some(ShortWrite);
    }

    method Close()
      modifies this
      ensures closed && log == old(log)
    {
      closed := true;
    }
  }

  class Pipe {
    const writer: Sink
    const data: array<bv8>
    var cursor: nat

    predicate Sized()
      reads this
    {
      data.Length == MAX_BUFFER_SIZE && cursor <= MAX_BUFFER_SIZE
    }

    function Waiting(): Bytes
      requires Sized()
      reads this, data
    {
      data[..cursor]
    }

    ghost predicate Valid()
      reads this, writer, data
    {
      Sized() && Good(writer.log, Waiting()) && Follows(writer.log, writer.reader)
    }

    /** What has gone in so far. */
    ghost function Input(): Bytes
      requires Sized()
      reads this, writer, data
    {
      Total(writer.log, Waiting())
    }

    constructor (sink: Sink)
      requires sink.log == []
      ensures Valid() && writer == sink && fresh(data) && cursor == 0 && Input() == []
    {
      writer := sink;
      data := new bv8[MAX_BUFFER_SIZE];
      cursor := 0;
    }

    /** copy(c.data[c.cursor:], rest): as much as fits. */
    method Fill(rest: Bytes) returns (copied: nat)
      requires Valid()
      modifies this`cursor, data
      ensures Valid() && copied == Min(|rest|, MAX_BUFFER_SIZE - old(cursor))
      ensures cursor == old(cursor) + copied && Waiting() == old(Waiting()) + rest[..copied]
      ensures Input() == old(Input()) + rest[..copied]
    {
      ghost var waiting := Waiting();
      copied := Min(|rest|, MAX_BUFFER_SIZE - cursor);
      forall i | cursor <= i < cursor + copied { data[i] := rest[i - cursor]; }
      cursor := cursor + copied;
      assert Waiting() == waiting + rest[..copied];
      GoodMore(writer.log, waiting, rest[..copied]);
    }

    /** Drops the first chunk and moves the rest to the front. */
    method Shift()
      requires Sized() && cursor >= CHUNK_SIZE
      modifies this`cursor, data
      ensures Sized() && cursor == old(cursor) - CHUNK_SIZE && Waiting() == old(Waiting())[CHUNK_SIZE..]
    {
      cursor := cursor - CHUNK_SIZE;
      forall i | 0 <= i < CHUNK_SIZE { data[i] := data[i + CHUNK_SIZE]; }
    }

    /** Sends the first chunk on. It leaves the buffer only when the sink reports all of it
        taken, so what a failing sink did take is sent again. */
    method Emit() returns (err: Option<Error>)
      requires Valid() && cursor >= CHUNK_SIZE
      modifies this`cursor, data, writer
      ensures Valid() && Input() == old(Input())
      ensures writer.log == old(writer.log) + [old(writer.Next(Waiting()[..CHUNK_SIZE]))]
      ensures err == None <==> Last(writer.log).ok
      ensures Waiting() == if err == None then old(Waiting())[CHUNK_SIZE..] else old(Waiting())
      ensures cursor == old(cursor) - if err == None then CHUNK_SIZE else 0
      ensures writer.closed == old(writer.closed)
    {
      ghost var log, waiting := writer.log, Waiting();
      var chunk := data[..CHUNK_SIZE];
      assert chunk == waiting[..CHUNK_SIZE];
      err := writer.Write(chunk);
      GoodSend(log, waiting, writer.log[|log|]);
      if err == None { Shift(); }
    }

    /** One turn of Write's loop: copy what fits, and send a chunk on when there is one. */
    method Turn(rest: Bytes) returns (copied: nat, err: Option<Error>)
      requires Valid() && rest != []
      modifies this`cursor, data, writer
      ensures Valid() && (WholeChunks(old(writer.log)) ==> WholeChunks(writer.log))
      ensures copied <= |rest| && Input() == old(Input()) + rest[..copied]
      ensures err != None ==> cursor >= CHUNK_SIZE
      ensures err == None ==> copied > 0 || cursor < old(cursor)
      ensures err == None && old(cursor) <= CHUNK_SIZE ==> cursor <= CHUNK_SIZE
      ensures old(writer.log) <= writer.log && (err != None ==> writer.log != [] && !Last(writer.log).ok)
      ensures writer.closed == old(writer.closed)
    {
      copied := Fill(rest);
      err := None;
      if cursor >= CHUNK_SIZE {
        OneChunkMore(writer.log, writer.Next(Waiting()[..CHUNK_SIZE]));
        err := Emit();
      }
    }

    /** Takes in all of b unless the sink fails; only whole chunks go out, each placed where
        the confirmed bytes end. */
    method Write(b: Bytes) returns (nw: nat, err: Option<Error>)
      requires Valid()
      modifies this`cursor, data, writer
      ensures Valid() && (WholeChunks(old(writer.log)) ==> WholeChunks(writer.log))
      ensures nw <= |b| && Input() == old(Input()) + b[..nw]
      ensures if err == None then nw == |b| else cursor >= CHUNK_SIZE
      ensures err == None && old(cursor) <= CHUNK_SIZE ==> cursor <= CHUNK_SIZE
      ensures old(writer.log) <= writer.log && (err != None ==> writer.log != [] && !Last(writer.log).ok)
      ensures writer.closed == old(writer.closed)
    {
      nw, err := 0, None;
      ghost var total := Input();
      assert total + b[..0] == total;
      while nw < |b|
        invariant Valid() && nw <= |b| && err == None
        invariant old(writer.log) <= writer.log && (WholeChunks(old(writer.log)) ==> WholeChunks(writer.log))
        invariant Input() == total + b[..nw]
        invariant old(cursor) <= CHUNK_SIZE ==> cursor <= CHUNK_SIZE
        invariant writer.closed == old(writer.closed)
        decreases |b| - nw, cursor
      {
        var copied;
        copied, err := Turn(b[nw..]);
        NextPart(total, b, nw, copied);
        nw := nw + copied;
        if err != None { return; }
      }
    }

    /** Sends the rest and closes the sink; after a failure the sink stays open. */
    method Close() returns (err: Option<Error>)
      requires Valid()
      modifies writer
      ensures Sound(writer.log) && Placed(writer.log, old(Input())) && Follows(writer.log, writer.reader)
      ensures writer.log == old(writer.log) + if cursor > 0 then [old(writer.Next(Waiting()))] else []
      ensures err == None ==> writer.closed && Confirmed(writer.log) == old(Input())
      ensures err != None ==> writer.log != [] && !Last(writer.log).ok && writer.closed == old(writer.closed)
    {
      err := None;
      if cursor > 0 {
        ghost var log, waiting := writer.log, Waiting();
        err := writer.Write(data[..cursor]);
        GoodSend(log, waiting, writer.log[|log|]);
        if err != None { return; }
        assert waiting[|waiting|..] == [];
      }
      writer.Close();
    }
  }

  lemma NextPart(total: Bytes, b: Bytes, nw: nat, copied: nat)
    requires nw + copied <= |b|
    ensures total + b[..nw] + b[nw..][..copied] == total + b[..nw + copied]
  {
    assert b[..nw] + b[nw..][..copied] == b[..nw + copied];
  }

  // ---------------------------------------------------------------- what a failing sink has got

  /** Where in the input an attempt begins. */
  function At(log: seq<Attempt>, i: nat): nat
    requires i <= |log|
  {
    |Confirmed(log[..i])|
  }

  /** Input byte k arrived with attempt i. */
  predicate Arrived(log: seq<Attempt>, i: nat, k: nat)
    requires i < |log|
  {
    At(log, i) <= k < At(log, i) + log[i].got
  }

  /** No byte of the input arrives twice. */
  ghost predicate AtMostOnce(log: seq<Attempt>) {
    forall i, j, k :: 0 <= i < j < |log| && 0 <= k && Arrived(log, i, k) ==> !Arrived(log, j, k)
  }

  /** Nothing arrives after a write that was taken in part and not reported. */
  predicate NoneAfterPartial(log: seq<Attempt>) {
    forall i, j :: 0 <= i < j < |log| && !log[i].ok && log[i].got > 0 ==> log[j].got == 0
  }

  lemma {:induction false} AtMoves(log: seq<Attempt>, i: nat, j: nat)
    requires Sound(log) && i < j <= |log|
    ensures At(log, j) >= At(log, i) + if log[i].ok then log[i].got else 0
    ensures (forall m :: i <= m < j ==> !log[m].ok) ==> At(log, j) == At(log, i)
    decreases j
  {
    assert log[..j][..j - 1] == log[..j - 1];
    if i < j - 1 { AtMoves(log, i, j - 1); }
  }

  /** The first later attempt that brings something begins no later than the next confirmed
      one ends, so it brings the byte after which the partial one stopped again. */
  lemma {:induction false} FirstArrivalAfter(log: seq<Attempt>, i: nat, j: nat) returns (m: nat)
    requires Sound(log) && i < j < |log| && !log[i].ok && log[j].got > 0
    ensures i < m <= j && log[m].got > 0 && At(log, m) == At(log, i)
    decreases j
  {
    if exists x :: i < x < j && log[x].got > 0 {
      var x :| i < x < j && log[x].got > 0;
      m := FirstArrivalAfter(log, i, x);
    } else {
      m := j;
      AtMoves(log, i, j);
    }
  }

  /** Bytes arrive at most once if and only if nothing arrives after a partial write. */
  lemma ArrivesOnceIff(log: seq<Attempt>)
    requires Sound(log)
    ensures AtMostOnce(log) <==> NoneAfterPartial(log)
  {
    if !NoneAfterPartial(log) {
      var i, j :| 0 <= i < j < |log| && !log[i].ok && log[i].got > 0 && log[j].got > 0;
      var m := FirstArrivalAfter(log, i, j);
      assert Arrived(log, i, At(log, i)) && Arrived(log, m, At(log, i));
    } else {
      forall i, j, k | 0 <= i < j < |log| && 0 <= k && Arrived(log, i, k) ensures !Arrived(log, j, k) {
        AtMoves(log, i, j);
      }
    }
  }

  /** Then what has arrived is a prefix of the input. */
  lemma {:induction false} ArrivedIsPrefix(log: seq<Attempt>, input: Bytes)
    requires Sound(log) && Placed(log, input) && NoneAfterPartial(log)
    ensures Received(log) <= input && Confirmed(log) <= Received(log)
    ensures (forall i :: 0 <= i < |log| && !log[i].ok ==> log[i].got == 0) ==> Received(log) == Confirmed(log)
    decreases |log|
  {
    if log != [] {
      var n := |log| - 1;
      var before := log[..n];
      ArrivedIsPrefix(before, input);
    }
  }

  /** One chunk goes to a writer, not an io.Pipe, that takes a single byte of it: the copy and
      the send of Write's only turn. */
  method OneByteTaken(chunk: Bytes) returns (pipe: Pipe)
    requires |chunk| == CHUNK_SIZE
    ensures pipe.Valid() && pipe.Waiting() == chunk && fresh(pipe.writer)
    ensures pipe.writer.log == [Attempt(chunk, 1, false)] && pipe.writer.reader == Script([TakesLess(1)])
  {
    var sink := new Sink(Script([TakesLess(1)]));
    pipe := new Pipe(sink);
    var copied := pipe.Fill(chunk);
    OnlyOne(chunk);
    assert pipe.Waiting() == chunk;
    var err := pipe.Emit();
    assert sink.log == [Answered(chunk, TakesLess(1))];
  }

  lemma OnlyOne(chunk: Bytes)
    requires |chunk| == CHUNK_SIZE
    ensures chunk[..CHUNK_SIZE] == chunk && [] + chunk == chunk
    ensures Answered(chunk, TakesLess(1)) == Attempt(chunk, 1, false)
  {
  }

  /** That byte arrives again: Close sends the whole chunk once more. */
  method RepeatedByte(chunk: Bytes) returns (sink: Sink)
    requires |chunk| == CHUNK_SIZE
    ensures Sound(sink.log) && Received(sink.log) == chunk[..1] + chunk && sink.closed
  {
    var pipe := OneByteTaken(chunk);
    sink := pipe.writer;
    var err := pipe.Close();
    SentTwice(chunk, sink.log[0], sink.log[1]);
    assert sink.log == [sink.log[0], sink.log[1]];
  }

  lemma SentTwice(chunk: Bytes, a: Attempt, b: Attempt)
    requires chunk != [] && a == Attempt(chunk, 1, false) && b == Attempt(chunk, |chunk|, true)
    ensures Sound([a, b]) && Received([a, b]) == chunk[..1] + chunk
  {
    assert [a, b][..1] == [a] && [a][..0] == [] && chunk[..|chunk|] == chunk;
    assert Received([a]) == chunk[..1];
  }

  // ---------------------------------------------------------------- what comes out

  function Concat(parts: seq<Bytes>): Bytes {
    if parts == [] then [] else Concat(parts[..|parts| - 1]) + parts[|parts| - 1]
  }

  /** Every part but the last is a whole chunk; the last has 1 to CHUNK_SIZE bytes. */
  predicate Chunked(parts: seq<Bytes>) {
    && (forall i :: 0 <= i < |parts| - 1 ==> |parts[i]| == CHUNK_SIZE)
    && (parts != [] ==> 1 <= |parts[|parts| - 1]| <= CHUNK_SIZE)
  }

  function Parts(log: seq<Attempt>): seq<Bytes> {
    seq(|log|, i requires 0 <= i < |log| => log[i].p)
  }

  lemma {:induction false} AllOkArrives(log: seq<Attempt>)
    requires Sound(log) && AllOk(log)
    ensures Confirmed(log) == Received(log) == Concat(Parts(log))
    decreases |log|
  {
    if log != [] {
      AllOkArrives(log[..|log| - 1]);
      assert Parts(log)[..|log| - 1] == Parts(log[..|log| - 1]);
    }
  }

  /** A sink that takes everything has taken everything. */
  lemma {:induction false} OpenReaderTakesAll(log: seq<Attempt>)
    requires Follows(log, Script([]))
    ensures AllOk(log) && ReaderAfter(Script([]), log) == Script([])
  {
    if log != [] { OpenReaderTakesAll(log[..|log| - 1]); }
  }

  // ---------------------------------------------------------------- the pipe's own reader

  /** The reader of an io.Pipe has got as many bytes as it took before it went away, and is
      gone after the first write that failed. */
  lemma {:induction false} PipeEndCounts(log: seq<Attempt>, n: nat)
    requires Sound(log) && Follows(log, PipeEnd(n))
    ensures ReaderAfter(PipeEnd(n), log).PipeEnd?
    ensures |Received(log)| + ReaderAfter(PipeEnd(n), log).left == n && NoneAfterPartial(log)
    ensures AllOk(log) || ReaderAfter(PipeEnd(n), log).left == 0
    decreases |log|
  {
    if log != [] { PipeEndCounts(log[..|log| - 1], n); }
  }

  /** A write that fails sends more than is left, so the input is longer than what the reader
      takes. */
  lemma {:induction false} FailureIsShort(log: seq<Attempt>, n: nat, input: Bytes)
    requires Sound(log) && Follows(log, PipeEnd(n)) && Placed(log, input) && !AllOk(log)
    ensures |input| > n
    decreases |log|
  {
    var before := log[..|log| - 1];
    PipeEndCounts(before, n);
    if AllOk(before) {
      AllOkArrives(before);
      assert |Confirmed(before) + log[|log| - 1].p| <= |input|;
    } else {
      FailureIsShort(before, n, input);
    }
  }

  /** Into an io.Pipe no byte arrives twice, and the reader gets the input up to where it
      went away. */
  lemma PipeGetsPrefix(log: seq<Attempt>, n: nat, input: Bytes)
    requires Sound(log) && Follows(log, PipeEnd(n)) && Placed(log, input)
    ensures AtMostOnce(log) && Confirmed(log) <= Received(log) <= input && |Received(log)| <= n
    ensures AllOk(log) || |Received(log)| == n < |input|
  {
    PipeEndCounts(log, n);
    ArrivesOnceIff(log);
    ArrivedIsPrefix(log, input);
    if !AllOk(log) { FailureIsShort(log, n, input); }
  }

  // ---------------------------------------------------------------- whole runs

  lemma OkBefore(log: seq<Attempt>, more: seq<Attempt>)
    requires log <= more && AllOk(more)
    ensures AllOk(log) && (more != [] ==> Last(more).ok)
  {
  }

  /** Any sequence of writes, into any writer. */
  method Feed(pipe: Pipe, inputs: seq<Bytes>) returns (accepted: Bytes)
    requires pipe.Valid() && pipe.writer.log == [] && pipe.cursor == 0 && !pipe.writer.closed
    modifies pipe`cursor, pipe.data, pipe.writer
    ensures pipe.Valid() && WholeChunks(pipe.writer.log) && pipe.Input() == accepted && !pipe.writer.closed
    ensures AllOk(pipe.writer.log) ==> pipe.cursor <= CHUNK_SIZE && accepted == Concat(inputs)
  {
    accepted := [];
    for k := 0 to |inputs|
      invariant pipe.Valid() && WholeChunks(pipe.writer.log) && pipe.Input() == accepted && !pipe.writer.closed
      invariant AllOk(pipe.writer.log) ==> pipe.cursor <= CHUNK_SIZE && accepted == Concat(inputs[..k])
    {
      ghost var before := pipe.writer.log;
      var nw, err := pipe.Write(inputs[k]);
      if AllOk(pipe.writer.log) { OkBefore(before, pipe.writer.log); }
      accepted := accepted + inputs[k][..nw];
      assert err == None ==> inputs[k][..nw] == inputs[k];
      assert inputs[..k + 1][..k] == inputs[..k];
    }
    assert inputs[..|inputs|] == inputs;
  }

  /** Whole chunks but for the last write. */
  predicate WholeButLast(log: seq<Attempt>) {
    forall i :: 0 <= i < |log| - 1 ==> |log[i].p| == CHUNK_SIZE
  }

  lemma RestAtTheEnd(log: seq<Attempt>, rest: seq<Attempt>)
    requires WholeChunks(log) && |rest| <= 1 && Sound(rest)
    ensures WholeButLast(log + rest)
    ensures (rest == [] || |rest[0].p| <= CHUNK_SIZE) ==> Chunked(Parts(log + rest))
    ensures AllOk(log + rest) ==> AllOk(log) && (log + rest != [] ==> Last(log + rest).ok)
  {
    if AllOk(log + rest) { OkBefore(log, log + rest); }
  }

  /** Sends the rest. */
  method Finish(pipe: Pipe, ghost inputs: seq<Bytes>, ghost accepted: Bytes)
    requires pipe.Valid() && WholeChunks(pipe.writer.log) && pipe.Input() == accepted && !pipe.writer.closed
    requires AllOk(pipe.writer.log) ==> pipe.cursor <= CHUNK_SIZE && accepted == Concat(inputs)
    modifies pipe.writer
    ensures Sound(pipe.writer.log) && Placed(pipe.writer.log, accepted) && Follows(pipe.writer.log, pipe.writer.reader)
    ensures WholeButLast(pipe.writer.log)
    ensures if pipe.writer.closed then Confirmed(pipe.writer.log) == accepted else !AllOk(pipe.writer.log)
    ensures AllOk(pipe.writer.log) ==> accepted == Concat(inputs) && Chunked(Parts(pipe.writer.log))
  {
    ghost var before := pipe.writer.log;
    ghost var rest := if pipe.cursor > 0 then [pipe.writer.Next(pipe.Waiting())] else [];
    assert |pipe.Waiting()| == pipe.cursor;
    var err := pipe.Close();
    RestAtTheEnd(before, rest);
  }

  /** Any sequence of writes and a close, into any writer: what the pipe took in is sent in
      order, each write from where the confirmed bytes end, in whole chunks but for the close. */
  method Run(inputs: seq<Bytes>, reader: Reader) returns (sink: Sink, accepted: Bytes)
    ensures Sound(sink.log) && Placed(sink.log, accepted) && Follows(sink.log, reader) && WholeButLast(sink.log)
    ensures if sink.closed then Confirmed(sink.log) == accepted else !AllOk(sink.log)
    ensures AllOk(sink.log) ==> accepted == Concat(inputs) && Chunked(Parts(sink.log))
  {
    sink := new Sink(reader);
    var pipe := new Pipe(sink);
    accepted := Feed(pipe, inputs);
    Finish(pipe, inputs, accepted);
  }

  /** Into an io.Pipe whose reader goes away after n bytes, or later: it gets exactly the
      first n bytes of what was accepted, each once, and the pipe is closed when that was all
      of it, with the input in chunks. */
  method RunPipe(inputs: seq<Bytes>, n: nat) returns (sink: Sink, accepted: Bytes)
    ensures Sound(sink.log) && AtMostOnce(sink.log) && Received(sink.log) == accepted[..Min(n, |accepted|)]
    ensures sink.closed <==> |accepted| <= n
    ensures sink.closed ==> accepted == Concat(inputs) == Concat(Parts(sink.log)) && Chunked(Parts(sink.log))
  {
    sink, accepted := Run(inputs, PipeEnd(n));
    PipeGetsPrefix(sink.log, n, accepted);
    if AllOk(sink.log) { AllOkArrives(sink.log); }
  }

  /** A writer that takes everything gets exactly the input, in chunks. */
  method RunOpen(inputs: seq<Bytes>) returns (sink: Sink)
    ensures sink.closed && Sound(sink.log)
    ensures Received(sink.log) == Concat(Parts(sink.log)) == Concat(inputs) && Chunked(Parts(sink.log))
  {
    var accepted;
    sink, accepted := Run(inputs, Script([]));
    OpenReaderTakesAll(sink.log);
    AllOkArrives(sink.log);
  }

  lemma {:induction false} WholeLength(parts: seq<Bytes>)
    requires forall i :: 0 <= i < |parts| ==> |parts[i]| == CHUNK_SIZE
    ensures |Concat(parts)| == CHUNK_SIZE * |parts|
  {
    if parts != [] { WholeLength(parts[..|parts| - 1]); }
  }

  lemma NotEmpty(parts: seq<Bytes>)
    requires Chunked(parts)
    ensures parts != [] <==> Concat(parts) != []
  {
  }

  /** The bytes decide the chunks: how the input was split into writes leaves no trace. */
  lemma {:induction false} ChunksAreUnique(a: seq<Bytes>, b: seq<Bytes>)
    requires Chunked(a) && Chunked(b) && Concat(a) == Concat(b)
    ensures a == b
    decreases |a|
  {
    NotEmpty(a);
    NotEmpty(b);
    if a != [] {
      var a0, a1 := a[..|a| - 1], a[|a| - 1];
      var b0, b1 := b[..|b| - 1], b[|b| - 1];
      WholeLength(a0);
      WholeLength(b0);
      assert |a0| == |b0|;
      assert Concat(a0) == Concat(a)[..|Concat(a0)|] && Concat(b0) == Concat(b)[..|Concat(b0)|];
      assert a1 == Concat(a)[|Concat(a0)|..] && b1 == Concat(b)[|Concat(b0)|..];
      ChunksAreUnique(a0, b0);
      assert a == a0 + [a1] && b == b0 + [b1];
    }
  }
}
