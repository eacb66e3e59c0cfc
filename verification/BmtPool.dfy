/** Building the configuration and the tree, and the client side of the hasher. */
module BmtPool {
  import opened Basics
  import opened BmtSpec
  import opened BmtMachine

  /** The smallest power of two that holds `n` segments (at least one section). */
  method SizeToParams(n: int) returns (c: nat, d: nat)
    ensures d > 0 && c == Pow2(d) && n <= c && (c == 2 || c / 2 < n)
  {
    c, d := 2, 0;
    while c < n
      invariant c == Pow2(d + 1) && (c == 2 || c / 2 < n)
      decreases n - c
    {
      c, d := c * 2, d + 1;
    }
    d := d + 1;
  }

  /** The zero-hash table, filled level by level. */
  method ZeroTable(hash: Bytes -> Bytes, segmentSize: nat, depth: nat) returns (zerohashes: array<Bytes>)
    ensures zerohashes.Length == depth + 1
    ensures forall k :: 0 <= k <= depth ==> zerohashes[k] == ZeroHash(hash, segmentSize, k)
  {
    zerohashes := new Bytes[depth + 1](_ => []);
    var zeros := Zeros(segmentSize);
    zerohashes[0] := zeros;
    for i := 1 to depth + 1
      invariant zeros == ZeroHash(hash, segmentSize, i - 1)
      invariant forall k {:trigger zerohashes[k]} :: 0 <= k < i ==> zerohashes[k] == ZeroHash(hash, segmentSize, k)
    {
      zeros := Twice(hash, zeros);
      assert zeros == ZeroHash(hash, segmentSize, i);
      zerohashes[i] := zeros;
    }
  }

  method NewConf(hash: Bytes -> Bytes, segmentSize: nat, segmentCount: nat) returns (conf: Conf)
    requires segmentSize > 0
    ensures ValidConf(conf) && conf.hash == hash && conf.segmentSize == segmentSize
    ensures segmentCount * segmentSize <= conf.maxSize
  {
    var count, depth := SizeToParams(segmentCount);
    var zerohashes := ZeroTable(hash, segmentSize, depth);
    MulMono(segmentCount, count, segmentSize);
    conf := Conf(hash, segmentSize, depth, count * segmentSize, zerohashes[..]);
  }

  // ---------------------------------------------------------------- the tree

  /** A node: the links never change, the rest is reused from fill to fill. */
  class TreeNode {
    const isLeft: bool
    const parent: TreeNode?
    var state: int
    var left: Bytes
    var right: Bytes

    constructor (index: nat, parent: TreeNode?)
      ensures this.parent == parent && isLeft == (index % 2 == 0) && state == 0 && left == [] && right == []
    {
      this.parent := parent;
      this.isLeft := index % 2 == 0;
      state, left, right := 0, [], [];
    }

    method Toggle() returns (first: bool)
      requires IsInt32(state)
      modifies this`state
      ensures state == AddInt32(old(state))
      ensures first <==> old(state) >= 0 && old(state) % 2 == 0
    {
      ToggleTellsFirst(state);
      state := AddInt32(state);
      first := Waiting(state);
    }
  }

  /** Level 0 holds the leaves; every link goes from (k, i) to (k + 1, i / 2). */
  ghost predicate IsTree(depth: nat, levels: seq<seq<TreeNode>>) {
    && |levels| == depth
    && (forall k :: 0 <= k < depth ==> |levels[k]| == Pow2(depth - 1 - k))
    && (forall k, i :: 0 <= k < depth && 0 <= i < |levels[k]| ==>
          levels[k][i].isLeft == (i % 2 == 0))
    && (forall k, i {:trigger levels[k][i].parent} :: 0 <= k < depth - 1 && 0 <= i < |levels[k]| ==>
          i / 2 < |levels[k + 1]| && levels[k][i].parent == levels[k + 1][i / 2])
    && (depth > 0 ==> levels[depth - 1][0].parent == null)
  }

  /** No node is in two places. */
  ghost predicate AllDistinct(levels: seq<seq<TreeNode>>) {
    && (forall k, i, j :: 0 <= k < |levels| && 0 <= i < j < |levels[k]| ==> levels[k][i] != levels[k][j])
    && (forall k, l, i, j :: 0 <= k < l < |levels| && 0 <= i < |levels[k]| && 0 <= j < |levels[l]| ==>
        levels[k][i] != levels[l][j])
  }

  /** Following `k` parent links. */
  function Up(n: TreeNode, k: nat): TreeNode? {
    if k == 0 then n
    else
      var m := Up(n, k - 1);
      if m == null then null else m.parent
  }

  /** Leaf i's k-th ancestor is node i / 2^k of its level. */
  lemma {:induction false} UpIsAncestor(depth: nat, levels: seq<seq<TreeNode>>, i: nat, k: nat)
    requires IsTree(depth, levels) && k < depth && i < |levels[0]|
    ensures Anc(i, k) == i / Pow2(k) < |levels[k]| && Up(levels[0][i], k) == levels[k][i / Pow2(k)]
  {
    AncIsDivision(i, k);
    if k > 0 {
      AncIsDivision(i, k - 1);
      UpIsAncestor(depth, levels, i, k - 1);
    }
  }

  /** One level of nodes below `above`. */
  method NewLevel(above: seq<TreeNode>, count: nat) returns (nodes: seq<TreeNode>)
    requires count == 2 * |above|
    ensures |nodes| == count && fresh(nodes)
    ensures forall i :: 0 <= i < count ==> nodes[i].isLeft == (i % 2 == 0) && nodes[i].parent == above[i / 2]
    ensures forall i :: 0 <= i < count ==> nodes[i].state == 0
    ensures forall i, j :: 0 <= i < j < count ==> nodes[i] != nodes[j]
  {
    nodes := [];
    for i := 0 to count
      invariant |nodes| == i && fresh(nodes)
      invariant forall j :: 0 <= j < i ==>
          nodes[j].isLeft == (j % 2 == 0) && nodes[j].parent == above[j / 2] && nodes[j].state == 0
      invariant forall j, k :: 0 <= j < k < i ==> nodes[j] != nodes[k]
    {
      var n := new TreeNode(i, above[i / 2]);
      nodes := nodes + [n];
    }
  }

  /** newTree: from the root down, each level twice as wide. */
  method NewTree(depth: nat) returns (leaves: seq<TreeNode>, ghost levels: seq<seq<TreeNode>>)
    requires depth > 0
    ensures IsTree(depth, levels) && AllDistinct(levels) && leaves == levels[0]
    ensures forall k, i :: 0 <= k < depth && 0 <= i < |levels[k]| ==> fresh(levels[k][i]) && levels[k][i].state == 0
  {
    var root := new TreeNode(0, null);
    var prevlevel := [root];
    levels := [prevlevel];
    var count := 2;
    var level: int := depth - 2;
    while level >= 0
      invariant -1 <= level <= depth - 2
      invariant IsTree(depth - 1 - level, levels) && AllDistinct(levels) && prevlevel == levels[0]
      invariant count == 2 * |prevlevel|
      invariant forall k, i :: 0 <= k < |levels| && 0 <= i < |levels[k]| ==>
          fresh(levels[k][i]) && levels[k][i].state == 0
    {
      var nodes := NewLevel(prevlevel, count);
      prevlevel := nodes;
      levels := [nodes] + levels;
      count := count * 2;
      level := level - 1;
    }
    leaves := prevlevel;
  }

  // ---------------------------------------------------------------- the client's side

  /** The hasher between Reset and Hash. `started` lists the sections handed to goroutines. */
  class Hasher {
    const conf: Conf
    const buffer: array<bv8>
    var size: nat
    var pos: nat
    var offset: nat
    var started: seq<nat>

    /** Each section below `pos` was started exactly once, in order, and `pos` never. */
    ghost predicate Valid()
      reads this
    {
      && ValidConf(conf) && buffer.Length == conf.maxSize && size <= conf.maxSize
      && InTree(conf, 0, pos)
      && (if size == conf.maxSize then pos + 1 == Width(conf, 0) else pos == size / SectionSize(conf))
      && |started| == pos && forall i :: 0 <= i < pos ==> started[i] == i
    }

    constructor (conf: Conf, buffer: array<bv8>)
      requires ValidConf(conf) && buffer.Length == conf.maxSize
      ensures Valid() && size == 0 && this.conf == conf && this.buffer == buffer
    {
      this.conf := conf;
      this.buffer := buffer;
      size, pos, offset, started := 0, 0, 0, [];
      new;
      SectionInBounds(conf, 0);
    }

    method Copy(at: nat, b: Bytes)
      requires at + |b| <= buffer.Length
      modifies buffer
      ensures buffer[..] == Overwrite(old(buffer[..]), at, b)
    {
      for i := 0 to |b|
        invariant forall k :: 0 <= k < buffer.Length ==>
          buffer[k] == if at <= k < at + i then b[k - at] else old(buffer[k])
      {
        buffer[at + i] := b[i];
      }
    }

    method Write(b: Bytes) returns (l: nat)
      requires Valid()
      modifies this, buffer
      ensures Valid()
      ensures l == Accepted(conf, old(size), b) && size == old(size) + l
      ensures offset == old(size) % SectionSize(conf)
      ensures buffer[..] == Overwrite(old(buffer[..]), old(size), b[..l])
      ensures old(started) <= started
    {
      l := |b|;
      var max := conf.maxSize - size;
      if l > max { l := max; }
      Copy(size, b[..l]);
      var secsize := SectionSize(conf);
      var from := size / secsize;
      offset := size % secsize;
      NextPosIs(conf, size, l);
      size := size + l;
      var to: int := size / secsize;
      if l == max { to := to - 1; }
      pos := to;
      var i := from;
      while i < to
        invariant from <= i && (from <= to ==> i <= to)
        invariant |started| == if i <= to then i else pos
        invariant forall k :: 0 <= k < |started| ==> started[k] == k
        invariant old(started) <= started
        invariant pos == to && size == old(size) + l && offset == old(size) % secsize
        invariant buffer[..] == Overwrite(old(buffer[..]), old(size), b[..l])
      {
        started := started + [i];
        i := i + 1;
      }
    }

    /** The part of Hash before the final goroutine starts, and the section it gets. */
    method BeforeFinal() returns (final: nat)
      requires Valid()
      modifies buffer
      ensures buffer[..] == ZeroTail(conf, old(buffer[..]), size)
      ensures final == pos && final !in started
    {
      Copy(size, Zeros(Min(ZERO_SECTION, conf.maxSize - size)));
      final := pos;
    }
  }
}
