/** The chunk count of a file: a recursion over 64-bit truncating division, against the
    number of merges when full groups of chunks collapse to one. */
module ChunkLen {
  import opened Basics

  const BRANCHES: nat := 8192

  /** Go's quotient and remainder, which truncate toward zero. */
  function GoDiv(a: int, b: int): int
    requires b > 0
  {
    if a >= 0 then a / b else -(-a / b)
  }

  function GoRem(a: int, b: int): int
    requires b > 0
  {
    a - b * GoDiv(a, b)
  }

  // ---------------------------------------------------------------- the code

  function ChunkLen1(count: int): int
    decreases if count >= 0 then count else -count
  {
    var count1 := GoDiv(count, BRANCHES);
    if count1 == 0 then 0
    else
      var rest := GoRem(count, BRANCHES) + count1;
      if rest == 1 then rest else count1 + ChunkLen1(rest)
  }

  function ChunkLen(span: int): int {
    var count := GoDiv(span, CHUNK_SIZE) + if GoRem(span, CHUNK_SIZE) > 0 then 1 else 0;
    if count > BRANCHES then count + ChunkLen1(count) else count
  }

  // ---------------------------------------------------------------- what it counts

  /** Merges until fewer than BRANCHES items are left, one full group at a time. */
  function Merges(n: nat): nat {
    if n < BRANCHES then 0 else 1 + Merges(n - BRANCHES + 1)
  }

  /** A whole level at once: k groups merge in k steps. */
  lemma {:induction false} MergesOfGroups(k: nat, r: nat)
    ensures Merges(BRANCHES * k + r) == k + Merges(k + r)
    decreases k
  {
    if k > 0 {
      var n := BRANCHES * k + r;
      assert n - BRANCHES + 1 == BRANCHES * (k - 1) + (r + 1);
      MergesOfGroups(k - 1, r + 1);
    }
  }

  lemma {:induction false} ChunkLen1CountsMerges(n: nat)
    ensures ChunkLen1(n) == Merges(n)
    decreases n
  {
    var k, r := n / BRANCHES, n % BRANCHES;
    MergesOfGroups(k, r);
    if k > 0 { ChunkLen1CountsMerges(k + r); }
  }

  lemma {:induction false} MergesClosed(n: nat)
    requires n >= 1
    ensures Merges(n) == (n - 1) / (BRANCHES - 1)
  {
    if n >= BRANCHES { MergesClosed(n - BRANCHES + 1); }
  }

  /** The closed form of the recursion. */
  lemma {:induction false} ChunkLen1Closed(n: nat)
    requires n >= 1
    ensures ChunkLen1(n) == Merges(n) == (n - 1) / (BRANCHES - 1)
  {
    ChunkLen1CountsMerges(n);
    MergesClosed(n);
  }

  /** The least number of chunks that hold `span` bytes. */
  ghost predicate IsLeaves(leaves: nat, span: nat) {
    CHUNK_SIZE * leaves >= span && (leaves > 0 ==> CHUNK_SIZE * (leaves - 1) < span)
  }

  /** The chunk count for every span, and that it fits the 64-bit word of the span. */
  lemma ChunkLenClosed(span: int, leaves: nat)
    requires span >= 0 ==> IsLeaves(leaves, span)
    ensures span >= 0 ==>
      ChunkLen(span) == leaves + if leaves <= BRANCHES then 0 else (leaves - 1) / (BRANCHES - 1)
    ensures span < 0 ==> ChunkLen(span) == -(-span / CHUNK_SIZE)
    ensures if span >= 0 then 0 <= ChunkLen(span) <= span else span <= ChunkLen(span) <= 0
  {
    if span > 0 {
      if leaves > BRANCHES { ChunkLen1Closed(leaves); }
    }
  }
}
