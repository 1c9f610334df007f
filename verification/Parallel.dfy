// The memory side of process_block_parallel: several workers advance through their own ranges
// of one buffer, one block at a time and in any order.

module Parallel {
  import opened Bytes
  import opened BlockModes
  import opened Partition

  /** One call of process_block_parallel: xs is what the input buffer holds at the call (zero
      blocks for a null input), before what the output buffer holds. With inPlace the two
      buffers are the same memory. */
  datatype Batch = Batch(
    c: Cipher, m: Mode, d: Dir, iv: Bytes,
    xs: seq<Bytes>, before: seq<Bytes>, inPlace: bool,
    nw: nat, used: nat)
  {
    ghost predicate Valid() {
      && c.Valid() && |iv| == c.size && Parallelizable(m, d)
      && Blocks(c, xs) && Blocks(c, before) && |before| == |xs|
      && (inPlace ==> before == xs)
      && 1 <= used <= nw && Start(nw, |xs|, used) == |xs|
    }

    function Lo(w: nat): nat
      requires nw > 0
    {
      Start(nw, |xs|, w)
    }
  }

  /** The shared memory while the batch runs: the output buffer, one IV per worker, and how
      many blocks each job has done. */
  datatype Memory = Memory(out: seq<Bytes>, ivs: seq<Bytes>, prog: seq<nat>)

  ghost predicate Shaped(b: Batch, p: Memory) {
    && |p.out| == |b.xs| && |p.ivs| == b.nw && |p.prog| == b.used <= b.nw
    && Blocks(b.c, p.out) && Blocks(b.c, p.ivs)
  }

  ghost predicate JobDone(b: Batch, p: Memory, w: nat)
    requires Shaped(b, p) && b.nw > 0 && w < b.used
  {
    b.Lo(w) + p.prog[w] == b.Lo(w + 1)
  }

  /** What one worker's job has achieved so far: its finished blocks are final, the others
      still hold their first content, and its IV is the one in front of its next block. */
  ghost predicate JobInv(b: Batch, p: Memory, w: nat)
    requires b.Valid() && Shaped(b, p) && w < b.used
  {
    && b.Lo(w) + p.prog[w] <= b.Lo(w + 1) <= |b.xs|
    && (PreparesIvs(b.m) || w == 0 ==>
          p.ivs[w] == IvAt(b.c, b.m, b.d, b.iv, b.xs, b.Lo(w) + p.prog[w]))
    && (forall k :: b.Lo(w) <= k < b.Lo(w) + p.prog[w] ==> p.out[k] == OutAt(b.c, b.m, b.d, b.iv, b.xs, k))
    && (forall k :: b.Lo(w) + p.prog[w] <= k < b.Lo(w + 1) ==> p.out[k] == b.before[k])
  }

  ghost predicate Inv(b: Batch, p: Memory) {
    && b.Valid() && Shaped(b, p)
    && (forall w :: 0 <= w < b.used ==> JobInv(b, p, w))
  }

  /** One iteration of parallel_worker's loop by the job of worker w. */
  function BlockStep(b: Batch, p: Memory, w: nat): (q: Memory)
    requires b.c.Valid() && Blocks(b.c, b.xs) && Shaped(b, p) && b.nw > 0 && w < b.used
    requires b.Lo(w) + p.prog[w] < |b.xs|
    ensures Shaped(b, q)
  {
    var k := b.Lo(w) + p.prog[w];
    var x := if b.inPlace then p.out[k] else b.xs[k];
    Memory(p.out[k := StepOut(b.c, b.m, b.d, p.ivs[w], x)],
           p.ivs[w := StepIv(b.c, b.m, b.d, p.ivs[w], x)],
           p.prog[w := p.prog[w] + 1])
  }

  /** Two jobs never meet at a block. */
  lemma RangesDisjoint(b: Batch, v: nat, w: nat, k: nat)
    requires b.nw > 0 && v != w && b.Lo(w) <= k < b.Lo(w + 1)
    ensures !(b.Lo(v) <= k < b.Lo(v + 1))
  {
    if v < w {
      StartMonotone(b.nw, |b.xs|, v + 1, w);
    } else {
      StartMonotone(b.nw, |b.xs|, w + 1, v);
    }
  }

  /** Without per-worker IVs the output block does not depend on the IV. */
  lemma StepIgnoresIv(c: Cipher, m: Mode, d: Dir, iv: Bytes, iv': Bytes, x: Bytes)
    requires c.Valid() && |iv| == |iv'| == |x| == c.size && Parallelizable(m, d) && !PreparesIvs(m)
    ensures StepOut(c, m, d, iv, x) == StepOut(c, m, d, iv', x)
  {
  }

  lemma StepAdvances(b: Batch, p: Memory, w: nat)
    requires Inv(b, p) && w < b.used && !JobDone(b, p, w)
    ensures b.Lo(w) + p.prog[w] < |b.xs|
    ensures JobInv(b, BlockStep(b, p, w), w)
  {
    hide Cipher.Valid, StepOut, StepIv;
    assert JobInv(b, p, w);
    var k := b.Lo(w) + p.prog[w];
    assert p.out[k] == b.before[k];
    if !PreparesIvs(b.m) {
      StepIgnoresIv(b.c, b.m, b.d, p.ivs[w], IvAt(b.c, b.m, b.d, b.iv, b.xs, k), b.xs[k]);
    }
  }

  lemma StepKeepsOthers(b: Batch, p: Memory, w: nat, v: nat)
    requires Inv(b, p) && w < b.used && v < b.used && v != w && !JobDone(b, p, w)
    requires b.Lo(w) + p.prog[w] < |b.xs|
    ensures JobInv(b, BlockStep(b, p, w), v)
  {
    hide Cipher.Valid, StepOut, StepIv, IvAt, OutAt;
    assert JobInv(b, p, w) && JobInv(b, p, v);
    RangesDisjoint(b, v, w, b.Lo(w) + p.prog[w]);
  }

  /** Any block step of any unfinished job keeps the invariant. */
  lemma StepKeepsInv(b: Batch, p: Memory, w: nat)
    requires Inv(b, p) && w < b.used && !JobDone(b, p, w)
    ensures b.Lo(w) + p.prog[w] < |b.xs|
    ensures Inv(b, BlockStep(b, p, w))
  {
    hide Cipher.Valid, JobInv, StepOut, StepIv, BlockStep;
    StepAdvances(b, p, w);
    forall v | 0 <= v < b.used && v != w
      ensures JobInv(b, BlockStep(b, p, w), v)
    {
      StepKeepsOthers(b, p, w, v);
    }
  }

  /** The IV k_bcmode_update keeps: the last worker's where IVs were prepared, else the first. */
  function FinalIv(b: Batch, p: Memory): Bytes
    requires Shaped(b, p) && b.used > 0
  {
    if PreparesIvs(b.m) && b.used > 1 then p.ivs[b.used - 1] else p.ivs[0]
  }

  /** Once every job is done the buffer and the IV are those of the sequential run. */
  lemma AllDone(b: Batch, p: Memory)
    requires Inv(b, p) && forall w :: 0 <= w < b.used ==> JobDone(b, p, w)
    ensures p.out == RunOut(b.c, b.m, b.d, b.iv, b.xs)
    ensures FinalIv(b, p) == RunIv(b.c, b.m, b.d, b.iv, b.xs)
  {
    hide Cipher.Valid, StepOut, StepIv, IvAt, OutAt;
    forall k | 0 <= k < |b.xs|
      ensures p.out[k] == OutAt(b.c, b.m, b.d, b.iv, b.xs, k)
    {
      var w := OwnerExists(b.nw, |b.xs|, b.used, k);
      assert JobInv(b, p, w) && JobDone(b, p, w);
    }
    var last := if PreparesIvs(b.m) then b.used - 1 else 0;
    assert JobInv(b, p, last) && JobDone(b, p, last);
    if !PreparesIvs(b.m) {
      IvAtDirect(b.c, b.m, b.d, b.iv, b.xs, |b.xs|);
      IvAtDirect(b.c, b.m, b.d, b.iv, b.xs, b.Lo(0) + p.prog[0]);
    }
  }

  /** The memory in front of the first step: every worker IV is the one its range starts with. */
  ghost predicate Prepared(b: Batch, p: Memory) {
    && Shaped(b, p) && b.Valid()
    && p.out == b.before && (forall w :: 0 <= w < b.used ==> p.prog[w] == 0)
    && p.ivs[0] == b.iv
    && (PreparesIvs(b.m) ==>
          forall w :: 0 < w < b.used && b.Lo(w) <= |b.xs| ==>
            p.ivs[w] == DirectIv(b.c, b.m, b.iv, b.xs, b.Lo(w)))
  }

  lemma PreparedIsInv(b: Batch, p: Memory)
    requires Prepared(b, p)
    ensures Inv(b, p)
  {
    hide Cipher.Valid, StepOut, StepIv, IvAt, OutAt, DirectIv;
    forall w | 0 <= w < b.used
      ensures JobInv(b, p, w)
    {
      StartMonotone(b.nw, |b.xs|, w + 1, b.used);
      StartMonotone(b.nw, |b.xs|, w, w + 1);
      if w == 0 {
        IvAtZero(b.c, b.m, b.d, b.iv, b.xs);
      } else {
        IvAtDirect(b.c, b.m, b.d, b.iv, b.xs, b.Lo(w));
      }
    }
  }

  lemma IvAtZero(c: Cipher, m: Mode, d: Dir, iv: Bytes, xs: seq<Bytes>)
    requires c.Valid() && |iv| == c.size && Blocks(c, xs)
    ensures IvAt(c, m, d, iv, xs, 0) == iv
  {
  }
}
