/** The concurrent hasher as a state machine: section goroutines, the shared tree,
    and a tree that is handed from fill to fill.

    One step of a goroutine is one access to the shared tree: storing a child hash,
    the atomic toggle, or hashing both children. Steps of different goroutines,
    Write calls and goroutines left over from earlier fills interleave freely. */
module BmtMachine {
  import opened Basics
  import opened BmtSpec

  // ---------------------------------------------------------------- toggle

  const INT32_MAX: int := 0x7fff_ffff
  const INT32_MIN: int := -0x8000_0000

  predicate IsInt32(x: int) {
    INT32_MIN <= x <= INT32_MAX
  }

  /** atomic.AddInt32(&n.state, 1): wraps at the top. */
  function AddInt32(x: int): (r: int)
    requires IsInt32(x)
    ensures IsInt32(r)
  {
    if x == INT32_MAX then INT32_MIN else x + 1
  }

  /** The remainder truncates toward zero, so it is -1 for a negative odd value. */
  function GoRem2(x: int): int {
    if x >= 0 then x % 2 else -((-x) % 2)
  }

  /** What toggle() returns when it leaves the counter at `x`. */
  predicate Waiting(x: int) {
    GoRem2(x) == 1
  }

  /** toggle() tells the first arrival (even counter) from the second exactly when
      the counter is not a negative even number. */
  lemma ToggleTellsFirst(x: int)
    requires IsInt32(x)
    ensures (Waiting(AddInt32(x)) <==> x % 2 == 0) <==> !(x < 0 && x % 2 == 0)
  {
  }

  // ---------------------------------------------------------------- state

  datatype Pos = Pos(level: nat, idx: nat)

  /** A tree node. `left`, `right` and `state` are the source's fields. The rest is
      history about the current fill that no step reads: the counter at its start,
      the goroutines that toggled for the left and right child, and the goroutine
      that went on to hash the node. */
  datatype Node = Node(
    left: Bytes, right: Bytes, state: int,
    base: int, la: Option<nat>, ra: Option<nat>, win: Option<nat>)

  datatype Pc = HashSection | Arrive | FillLeft | Toggle | Combine | Done

  /** A goroutine: it holds the hash `s` (nil when `None`) of the node at
      (level, idx) and works on that node's parent. */
  datatype Thread = Thread(level: nat, idx: nat, pc: Pc, s: Option<Bytes>)

  /** `threads[i]` is the goroutine of section `i`; with `final` set the last one is
      the final goroutine. `data` is the input accepted in this fill, `results` what
      was sent on the result channel, `lingering` the goroutines of earlier fills. */
  datatype State = State(
    nodes: map<Pos, Node>, buffer: Bytes, size: nat, pos: nat,
    threads: seq<Thread>, final: bool, results: seq<Bytes>,
    data: Bytes, lingering: seq<Thread>, fills: nat)

  datatype Action = Write(b: Bytes) | StartHash | Run(t: nat) | RunLingering(k: nat) | Recycle

  predicate IsFinal(s: State, t: nat) {
    s.final && t + 1 == |s.threads|
  }

  // ---------------------------------------------------------------- Write and Hash

  /** The number of bytes Write accepts. */
  function Accepted(c: Conf, size: nat, b: Bytes): (l: nat)
    requires size <= c.maxSize
    ensures l <= |b| && size + l <= c.maxSize
  {
    if |b| > c.maxSize - size then c.maxSize - size else |b|
  }

  function Overwrite(buffer: Bytes, at: nat, b: Bytes): (r: Bytes)
    requires at + |b| <= |buffer|
    ensures |r| == |buffer|
  {
    buffer[..at] + b + buffer[at + |b|..]
  }

  /** The section byte x falls into. */
  function SectionOf(c: Conf, x: nat): nat
    requires c.segmentSize > 0
  {
    Div(x, SectionSize(c))
  }

  /** The section after the last one Write hands to a goroutine. */
  function NextPos(c: Conf, size: nat, l: nat): int
    requires c.segmentSize > 0
  {
    var to := (size + l) / SectionSize(c);
    if l == c.maxSize - size then to - 1 else to
  }

  lemma DivBounds(x: nat, d: nat)
    requires d > 0
    ensures x / d * d <= x < (x / d + 1) * d
  {
  }

  lemma DivMono(x: nat, y: nat, d: nat)
    requires d > 0 && x <= y
    ensures x / d <= y / d
  {
    DivBounds(x, d);
    DivBounds(y, d);
    if x / d > y / d { MulMono(y / d + 1, x / d, d); }
  }

  /** Where a byte falls among n sections of width w. */
  lemma SectionOfByte(x: nat, w: nat, n: nat)
    requires w > 0 && x <= n * w
    ensures if x == n * w then x / w == n else x / w < n
  {
  }

  /** What the new open section is. */
  lemma NextPosIs(c: Conf, size: nat, l: nat)
    requires ValidConf(c) && size + l <= c.maxSize
    ensures var to := NextPos(c, size, l);
            && 0 <= to < Width(c, 0)
            && if size + l == c.maxSize then to + 1 == Width(c, 0) else to == (size + l) / SectionSize(c)
    ensures size < c.maxSize ==> size / SectionSize(c) <= NextPos(c, size, l)
    ensures size == c.maxSize ==> size / SectionSize(c) == Width(c, 0)
  {
    SectionInBounds(c, 0);
    NextPosAmong(size, l, c.maxSize, SectionSize(c), Width(c, 0), NextPos(c, size, l));
  }

  lemma NextPosAmong(size: nat, l: nat, max: nat, w: nat, n: nat, to: int)
    requires w > 0 && max == n * w && n > 0 && size + l <= max
    requires to == if l == max - size then (size + l) / w - 1 else (size + l) / w
    ensures 0 <= to < n && if size + l == max then to + 1 == n else to == (size + l) / w
    ensures size < max ==> size / w <= to
    ensures size == max ==> size / w == n
  {
    SectionOfByte(size, w, n);
    SectionOfByte(size + l, w, n);
    DivMono(size, size + l, w);
  }

  function SectionThread(i: nat): Thread {
    Thread(0, i, HashSection, None)
  }

  function SectionThreads(from: nat, to: int): (r: seq<Thread>)
    ensures |r| == if from < to then to - from else 0
    ensures forall i :: 0 <= i < |r| ==> r[i] == SectionThread(from + i)
  {
    if from < to then seq(to - from, i requires i >= 0 => SectionThread(from + i)) else []
  }

  function WriteStep(c: Conf, s: State, b: Bytes): State
    requires c.segmentSize > 0 && s.size <= c.maxSize == |s.buffer|
    requires NextPos(c, s.size, Accepted(c, s.size, b)) >= 0
  {
    var l := Accepted(c, s.size, b);
    var to := NextPos(c, s.size, l);
    s.(buffer := Overwrite(s.buffer, s.size, b[..l]),
       size := s.size + l,
       pos := to,
       threads := s.threads + SectionThreads(SectionOf(c, s.size), to),
       data := s.data + b[..l])
  }

  const ZERO_SECTION: nat := 64

  /** Hash: zero the rest of the open section, then start the final goroutine. */
  function ZeroTail(c: Conf, buffer: Bytes, size: nat): (r: Bytes)
    requires size <= c.maxSize == |buffer|
    ensures |r| == |buffer|
  {
    Overwrite(buffer, size, Zeros(Min(ZERO_SECTION, c.maxSize - size)))
  }

  function StartHashStep(c: Conf, s: State): State
    requires s.size <= c.maxSize == |s.buffer|
  {
    s.(buffer := ZeroTail(c, s.buffer, s.size),
       threads := s.threads + [SectionThread(s.pos)],
       final := true)
  }

  // ---------------------------------------------------------------- goroutines

  function ParentPos(th: Thread): Pos {
    Pos(th.level + 1, th.idx / 2)
  }

  function Climb(th: Thread, v: Option<Bytes>): Thread {
    Thread(th.level + 1, th.idx / 2, Arrive, v)
  }

  predicate AtTop(c: Conf, th: Thread) {
    th.level + 1 == c.depth
  }

  /** Nothing is dereferenced that does not exist. */
  ghost predicate StepOk(c: Conf, nodes: map<Pos, Node>, buffer: Bytes, fin: bool, th: Thread) {
    && ValidConf(c) && |buffer| == c.maxSize && th.level < c.depth
    && match th.pc
       case HashSection => InTree(c, 0, th.idx)
       case Arrive => if AtTop(c, th) then fin || th.s.Some? else ParentPos(th) in nodes && (fin || th.s.Some?)
       case FillLeft => ParentPos(th) in nodes && th.s.Some?
       case Toggle => ParentPos(th) in nodes && IsInt32(nodes[ParentPos(th)].state)
       case Combine => ParentPos(th) in nodes
       case Done => false
  }

  datatype Stepped = Stepped(nodes: map<Pos, Node>, th: Thread, sent: seq<Bytes>)

  /** Storing the child hash. The final goroutine coming from the left also fills
      the missing right sister from the zero-hash table; coming from the right
      without a hash it has nothing to do. */
  function ArriveStep(c: Conf, nodes: map<Pos, Node>, fin: bool, th: Thread): Stepped
    requires |c.zerohashes| == c.depth + 1 && th.level < c.depth
    requires AtTop(c, th) || ParentPos(th) in nodes
    requires fin || th.s.Some?
  {
    if AtTop(c, th) then
      Stepped(nodes, th.(pc := Done), if th.s.Some? then [th.s.value] else [])
    else
      var p := ParentPos(th);
      if th.idx % 2 == 0 then
        if fin then
          Stepped(nodes[p := nodes[p].(right := c.zerohashes[th.level + 1])],
                  th.(pc := if th.s.Some? then FillLeft else Toggle), [])
        else
          Stepped(nodes[p := nodes[p].(left := th.s.value)], th.(pc := Toggle), [])
      else if th.s.Some? then
        Stepped(nodes[p := nodes[p].(right := th.s.value)], th.(pc := Toggle), [])
      else
        Stepped(nodes, Climb(th, None), [])
  }

  /** The toggle. The first to arrive stops, or, being final, climbs on with nil. */
  function ToggleStep(nodes: map<Pos, Node>, tid: nat, fin: bool, th: Thread): Stepped
    requires ParentPos(th) in nodes && IsInt32(nodes[ParentPos(th)].state)
  {
    var p := ParentPos(th);
    var n := nodes[p];
    var x := AddInt32(n.state);
    var n' := if th.idx % 2 == 0 && !fin then n.(state := x, la := Some(tid)) else n.(state := x, ra := Some(tid));
    if Waiting(x) then
      Stepped(nodes[p := n'], if fin then Climb(th, None) else th.(pc := Done), [])
    else
      Stepped(nodes[p := n'.(win := Some(tid))], th.(pc := Combine), [])
  }

  ghost function StepThread(c: Conf, nodes: map<Pos, Node>, buffer: Bytes, tid: nat, fin: bool, th: Thread): Stepped
    requires StepOk(c, nodes, buffer, fin, th)
  {
    match th.pc
    case HashSection => Stepped(nodes, th.(pc := Arrive, s := Some(c.hash(Section(c, buffer, th.idx)))), [])
    case Arrive => ArriveStep(c, nodes, fin, th)
    case FillLeft =>
      var n := nodes[ParentPos(th)];
      Stepped(nodes[ParentPos(th) := n.(left := th.s.value, win := Some(tid))], th.(pc := Combine), [])
    case Toggle => ToggleStep(nodes, tid, fin, th)
    case Combine =>
      var n := nodes[ParentPos(th)];
      Stepped(nodes, Climb(th, Some(c.hash(n.left + n.right))), [])
  }

  // ---------------------------------------------------------------- runs

  ghost predicate Enabled(c: Conf, s: State, a: Action) {
    match a
    case Write(b) =>
      && c.segmentSize > 0 && s.size <= c.maxSize == |s.buffer| && !s.final
      && NextPos(c, s.size, Accepted(c, s.size, b)) >= 0
    case StartHash => 0 < s.size <= c.maxSize == |s.buffer| && !s.final
    case Run(t) => t < |s.threads| && StepOk(c, s.nodes, s.buffer, IsFinal(s, t), s.threads[t])
    case RunLingering(k) => k < |s.lingering| && StepOk(c, s.nodes, s.buffer, true, s.lingering[k])
    case Recycle => (s.results != [] || (s.size == 0 && s.threads == [])) && s.fills + 1 < MAX_FILLS
  }

  /** A counter is toggled at most twice in a fill, so a tree can serve this many
      fills before a counter wraps. */
  const MAX_FILLS: nat := 0x4000_0000

  predicate Unfinished(th: Thread) {
    th.pc != Done
  }

  function UnfinishedOf(ths: seq<Thread>): (r: seq<Thread>)
    ensures forall th :: th in r <==> th in ths && Unfinished(th)
  {
    if ths == [] then []
    else (if Unfinished(ths[0]) then [ths[0]] else []) + UnfinishedOf(ths[1..])
  }

  function FreshHistory(n: Node): Node {
    n.(base := n.state, la := None, ra := None, win := None)
  }

  /** The tree goes back to the pool and out again: only the counters, the stale
      hashes, the stale buffer and the unfinished goroutines carry over. */
  function RecycleStep(s: State): State {
    s.(nodes := map p | p in s.nodes :: FreshHistory(s.nodes[p]),
       size := 0, pos := 0, threads := [], final := false, results := [], data := [],
       lingering := s.lingering + UnfinishedOf(s.threads), fills := s.fills + 1)
  }

  ghost function Apply(c: Conf, s: State, a: Action): State
    requires Enabled(c, s, a)
  {
    match a
    case Write(b) => WriteStep(c, s, b)
    case StartHash => StartHashStep(c, s)
    case Run(t) =>
      var r := StepThread(c, s.nodes, s.buffer, t, IsFinal(s, t), s.threads[t]);
      s.(nodes := r.nodes, threads := s.threads[t := r.th], results := s.results + r.sent)
    case RunLingering(k) =>
      var r := StepThread(c, s.nodes, s.buffer, 0, true, s.lingering[k]);
      s.(nodes := r.nodes, lingering := s.lingering[k := r.th])
    case Recycle => RecycleStep(s)
  }

  /** A tree as newTree leaves it, with any stale hashes and bytes. */
  ghost predicate Initial(c: Conf, s: State) {
    && ValidConf(c) && |s.buffer| == c.maxSize
    && (forall p :: p in s.nodes <==> p.level > 0 && InTree(c, p.level, p.idx))
    && (forall p :: p in s.nodes ==> s.nodes[p].state == 0 && FreshHistory(s.nodes[p]) == s.nodes[p])
    && s.size == s.pos == s.fills == 0 && s.threads == [] && !s.final
    && s.results == [] && s.data == [] && s.lingering == []
  }

  ghost predicate ValidRun(c: Conf, s: State, acts: seq<Action>)
    decreases |acts|, 0
  {
    acts == [] || (ValidRun(c, s, acts[..|acts| - 1]) && Enabled(c, Exec(c, s, acts[..|acts| - 1]), acts[|acts| - 1]))
  }

  ghost function Exec(c: Conf, s: State, acts: seq<Action>): State
    requires ValidRun(c, s, acts)
    decreases |acts|, 1
  {
    if acts == [] then s else Apply(c, Exec(c, s, acts[..|acts| - 1]), acts[|acts| - 1])
  }
}
