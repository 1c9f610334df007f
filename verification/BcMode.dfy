// The high-level block cipher context of src/blockcipher/blockcipher.c with the mode kernels of
// src/blockcipher/modes. A buffer is an array with one cell per block; the input may be the very
// array that receives the output, or null for the modes that produce a keystream.

module BcMode {
  import opened Bytes
  import opened Words
  import opened BlockModes
  import opened Partition
  import Parallel
  import ParallelRun

  /** The worker slot of worker_ivs a kernel uses: the chained directions always use slot 0. */
  function IvSlot(m: Mode, d: Dir, worker: nat): nat {
    if Parallelizable(m, d) then worker else 0
  }

  /** k_bcmode_update does nothing: enough blocks for the workers, but a direction that cannot
      be split, so that neither branch at lines 472 to 478 runs. */
  predicate NothingRuns(m: Mode, d: Dir, threads: nat, blocks: nat) {
    threads > 1 && blocks / threads >= 512 && !Parallelizable(m, d)
  }

  ghost function Input(input: array?<Bytes>, blocks: nat, size: nat): (r: seq<Bytes>)
    requires input != null ==> blocks <= input.Length
    reads input
    ensures |r| == blocks
  {
    if input == null then seq(blocks, _ => Zeros(size)) else input[..blocks]
  }

  ghost predicate Cells(a: array?<Bytes>, size: nat)
    reads a
  {
    a != null ==> forall k :: 0 <= k < a.Length ==> |a[k]| == size
  }

  class Context {
    var c: Cipher
    const mode: Mode
    const workerThreads: nat
    var keytype: Dir
    var workerIvs: seq<Bytes>
    var ivBackup: Bytes

    ghost predicate Valid()
      reads this
    {
      && c.Valid() && workerThreads > 0
      && (workerThreads > 1 ==> Parallelizable(mode, Encrypt) || Parallelizable(mode, Decrypt))
      && |workerIvs| == workerThreads && Blocks(c, workerIvs)
      && |ivBackup| == c.size
    }

    function Iv(): Bytes
      requires Valid()
      reads this
    {
      workerIvs[0]
    }

    /** k_bc_init followed by k_bcmode_set_mode; `running` is what workbench_create could start
        and None stands for max_workers == -1. */
    constructor (c: Cipher, mode: Mode, running: Option<nat>)
      requires c.Valid() && (running.Some? ==> running.value > 0)
      ensures Valid()
      ensures this.c == c && this.mode == mode && keytype == Encrypt && Iv() == Zeros(c.size)
      ensures workerThreads > 1 ==> running == Some(workerThreads)
    {
      var threads := if running.Some? && (Parallelizable(mode, Encrypt) || Parallelizable(mode, Decrypt))
                     then running.value else 1;
      this.c, this.mode, this.workerThreads, this.keytype := c, mode, threads, Encrypt;
      this.workerIvs := seq(threads, _ => Zeros(c.size));
      this.ivBackup := Zeros(c.size);
    }

    /** k_bcmode_set_key with a supported key size: the schedule now holds the block transforms
        `keyed` and the direction is `t`. */
    method SetKey(keyed: Cipher, t: Dir)
      requires Valid() && keyed.Valid() && keyed.size == c.size
      modifies this`c, this`keytype
      ensures Valid() && c == keyed && keytype == t
    {
      c, keytype := keyed, t;
    }

    /** k_bcmode_set_iv */
    method SetIv(iv: Bytes)
      requires Valid() && |iv| == c.size
      modifies this`workerIvs
      ensures Valid() && workerIvs == old(workerIvs)[0 := iv]
    {
      workerIvs := workerIvs[0 := iv];
    }

    /** k_bcmode_backup_iv */
    method BackupIv()
      requires Valid()
      modifies this`ivBackup
      ensures Valid() && ivBackup == Iv()
    {
      ivBackup := workerIvs[0];
    }

    /** k_bcmode_restore_iv */
    method RestoreIv()
      requires Valid()
      modifies this`workerIvs
      ensures Valid() && workerIvs == old(workerIvs)[0 := ivBackup]
    {
      workerIvs := workerIvs[0 := ivBackup];
    }

    // -------------------------------------------------------------- mode kernels

    /** What a kernel does for input x: cell k and one IV slot take the values of the mode's
        step, everything else stays. */
    ghost predicate Stepped(before: seq<Bytes>, after: seq<Bytes>, ivs: seq<Bytes>, ivs': seq<Bytes>,
                            k: nat, slot: nat, x: Bytes)
      reads this
    {
      && c.Valid() && k < |before| && slot < |ivs| && |ivs[slot]| == |x| == c.size
      && after == before[k := StepOut(c, mode, keytype, ivs[slot], x)]
      && ivs' == ivs[slot := StepIv(c, mode, keytype, ivs[slot], x)]
    }

    /** ctr_crypt */
    method CtrCrypt(input: array?<Bytes>, output: array<Bytes>, k: nat, worker: nat)
      requires Valid() && mode == CTR && worker < workerThreads
      requires k < output.Length && (input == null || k < input.Length)
      requires Cells(input, c.size)
      modifies this`workerIvs, output
      ensures Valid()
      ensures Stepped(old(output[..]), output[..], old(workerIvs), workerIvs, k, IvSlot(mode, keytype, worker),
                      if input == null then Zeros(c.size) else old(input[k]))
      ensures var at := c.size - 8; var iv, next := old(workerIvs[worker]), workerIvs[worker];
        next[..at] == iv[..at] && LeValue(next[at..]) == (LeValue(iv[at..]) + 1) % TWO64
    {
      hide Get64, Put64, Add, WordOf, Xor8, LeValue;
      CtrAddNumber(workerIvs[worker], 1);
      var iv := workerIvs[worker];
      var ctr := Get64(iv[c.size - 8..]);
      var b := if input != null then input[k] else Zeros(c.size);
      output[k] := c.enc(iv);
      if input != null {
        output[k] := Xor(output[k], b);
      } else {
        XorZeros(c.enc(iv));
      }
      ctr := Add(ctr, WordOf(1));
      workerIvs := workerIvs[worker := iv[..c.size - 8] + Put64(ctr)];
    }

    /** ofb_crypt */
    method OfbCrypt(input: array?<Bytes>, output: array<Bytes>, k: nat, worker: nat)
      requires Valid() && mode == OFB && worker < workerThreads
      requires k < output.Length && (input == null || k < input.Length)
      requires Cells(input, c.size)
      modifies this`workerIvs, output
      ensures Valid()
      ensures Stepped(old(output[..]), output[..], old(workerIvs), workerIvs, k, IvSlot(mode, keytype, worker),
                      if input == null then Zeros(c.size) else old(input[k]))
    {
      var iv := workerIvs[0];
      var b := if input != null then input[k] else Zeros(c.size);
      output[k] := c.enc(iv);
      workerIvs := workerIvs[0 := output[k]];
      if input != null {
        output[k] := Xor(output[k], b);
      } else {
        XorZeros(c.enc(iv));
      }
    }

    /** cbc_encrypt */
    method CbcEncrypt(input: array?<Bytes>, output: array<Bytes>, k: nat, worker: nat)
      requires Valid() && mode == CBC && keytype == Encrypt && worker < workerThreads
      requires k < output.Length && (input != null && k < input.Length)
      requires Cells(input, c.size)
      modifies this`workerIvs, output
      ensures Valid()
      ensures Stepped(old(output[..]), output[..], old(workerIvs), workerIvs, k, IvSlot(mode, keytype, worker),
                      old(input[k]))
    {
      var iv := workerIvs[0];
      output[k] := Xor(iv, input[k]);
      output[k] := c.enc(output[k]);
      workerIvs := workerIvs[0 := output[k]];
    }

    /** cbc_decrypt */
    method CbcDecrypt(input: array?<Bytes>, output: array<Bytes>, k: nat, worker: nat)
      requires Valid() && mode == CBC && keytype == Decrypt && worker < workerThreads
      requires k < output.Length && (input != null && k < input.Length)
      requires Cells(input, c.size)
      modifies this`workerIvs, output
      ensures Valid()
      ensures Stepped(old(output[..]), output[..], old(workerIvs), workerIvs, k, IvSlot(mode, keytype, worker),
                      old(input[k]))
    {
      var iv := workerIvs[worker];
      var b := input[k];
      output[k] := c.dec(input[k]);
      output[k] := Xor(output[k], iv);
      workerIvs := workerIvs[worker := b];
    }

    /** cfb_encrypt */
    method CfbEncrypt(input: array?<Bytes>, output: array<Bytes>, k: nat, worker: nat)
      requires Valid() && mode == CFB && keytype == Encrypt && worker < workerThreads
      requires k < output.Length && (input != null && k < input.Length)
      requires Cells(input, c.size)
      modifies this`workerIvs, output
      ensures Valid()
      ensures Stepped(old(output[..]), output[..], old(workerIvs), workerIvs, k, IvSlot(mode, keytype, worker),
                      old(input[k]))
    {
      var iv := workerIvs[0];
      var b := input[k];
      output[k] := c.enc(iv);
      output[k] := Xor(output[k], b);
      workerIvs := workerIvs[0 := output[k]];
    }

    /** cfb_decrypt */
    method CfbDecrypt(input: array?<Bytes>, output: array<Bytes>, k: nat, worker: nat)
      requires Valid() && mode == CFB && keytype == Decrypt && worker < workerThreads
      requires k < output.Length && (input != null && k < input.Length)
      requires Cells(input, c.size)
      modifies this`workerIvs, output
      ensures Valid()
      ensures Stepped(old(output[..]), output[..], old(workerIvs), workerIvs, k, IvSlot(mode, keytype, worker),
                      old(input[k]))
    {
      var iv := workerIvs[worker];
      var b := input[k];
      output[k] := c.enc(iv);
      output[k] := Xor(output[k], b);
      workerIvs := workerIvs[worker := b];
    }

    /** ecb_encrypt */
    method EcbEncrypt(input: array?<Bytes>, output: array<Bytes>, k: nat, worker: nat)
      requires Valid() && mode == ECB && keytype == Encrypt && worker < workerThreads
      requires k < output.Length && (input != null && k < input.Length)
      requires Cells(input, c.size)
      modifies this`workerIvs, output
      ensures Valid()
      ensures Stepped(old(output[..]), output[..], old(workerIvs), workerIvs, k, IvSlot(mode, keytype, worker),
                      old(input[k]))
    {
      output[k] := c.enc(input[k]);
    }

    /** ecb_decrypt */
    method EcbDecrypt(input: array?<Bytes>, output: array<Bytes>, k: nat, worker: nat)
      requires Valid() && mode == ECB && keytype == Decrypt && worker < workerThreads
      requires k < output.Length && (input != null && k < input.Length)
      requires Cells(input, c.size)
      modifies this`workerIvs, output
      ensures Valid()
      ensures Stepped(old(output[..]), output[..], old(workerIvs), workerIvs, k, IvSlot(mode, keytype, worker),
                      old(input[k]))
    {
      output[k] := c.dec(input[k]);
    }

    /** noop_encrypt, used for both directions */
    method NoopEncrypt(input: array?<Bytes>, output: array<Bytes>, k: nat, worker: nat)
      requires Valid() && mode == NOOP && worker < workerThreads
      requires k < output.Length && (input != null && k < input.Length)
      requires Cells(input, c.size)
      modifies this`workerIvs, output
      ensures Valid()
      ensures Stepped(old(output[..]), output[..], old(workerIvs), workerIvs, k, IvSlot(mode, keytype, worker),
                      old(input[k]))
    {
      output[k] := input[k];
    }

    /** m->mode->encrypt or m->mode->decrypt, as the key type says. */
    method CryptBlock(input: array?<Bytes>, output: array<Bytes>, k: nat, worker: nat)
      requires Valid() && worker < workerThreads
      requires k < output.Length && (input != null ==> k < input.Length)
      requires input == null ==> KeystreamPrecomputable(mode)
      requires Cells(input, c.size)
      modifies this`workerIvs, output
      ensures Valid()
      ensures Stepped(old(output[..]), output[..], old(workerIvs), workerIvs, k, IvSlot(mode, keytype, worker),
                      if input == null then Zeros(c.size) else old(input[k]))
    {
      hide Cipher.Valid, Stepped;
      match mode
      case CTR => CtrCrypt(input, output, k, worker);
      case OFB => OfbCrypt(input, output, k, worker);
      case NOOP => NoopEncrypt(input, output, k, worker);
      case CBC =>
        if keytype.Encrypt? {
          CbcEncrypt(input, output, k, worker);
        } else {
          CbcDecrypt(input, output, k, worker);
        }
      case CFB =>
        if keytype.Encrypt? {
          CfbEncrypt(input, output, k, worker);
        } else {
          CfbDecrypt(input, output, k, worker);
        }
      case ECB =>
        if keytype.Encrypt? {
          EcbEncrypt(input, output, k, worker);
        } else {
          EcbDecrypt(input, output, k, worker);
        }
    }

    // -------------------------------------------------------------- worker IVs

    /** ctr_prepare_worker_ivs */
    method CtrPrepareWorkerIvs(pa: seq<Param>, worker: nat, ghost blocks: nat)
      requires Valid() && mode == CTR && Distributed(pa, worker, workerThreads, blocks)
      modifies this`workerIvs
      ensures Valid() && workerIvs[0] == old(workerIvs)[0]
      ensures forall w :: 0 < w < worker ==> workerIvs[w] == CtrAdd(old(workerIvs)[0], pa[w].off)
      ensures var at := c.size - 8;
        forall w :: 0 < w < worker ==>
          && workerIvs[w][..at] == old(workerIvs)[0][..at]
          && LeValue(workerIvs[w][at..]) == (LeValue(old(workerIvs)[0][at..]) + pa[w].off) % TWO64
    {
      hide Cipher.Valid, Get64, Put64, Add, WordOf, Start, BlocksPerWorker, LeValue;
      SizeAtLeast8(c);
      Contiguous(pa, worker, workerThreads, blocks);
      var iv := workerIvs[0];
      var ctr := Get64(iv[c.size - 8..]);
      ghost var base := ctr;
      AddZero(ctr);
      var w := 1;
      while w < worker
        invariant 1 <= w <= worker
        invariant Valid() && workerIvs[0] == iv
        invariant ctr == Add(base, WordOf(pa[w - 1].off))
        invariant forall v :: 0 < v < w ==> workerIvs[v] == CtrAdd(iv, pa[v].off)
      {
        CounterAt(base, pa[w - 1].off, pa[w - 1].nblocks);
        ctr := Add(ctr, WordOf(pa[w - 1].nblocks));
        workerIvs := workerIvs[w := iv[..c.size - 8] + Put64(ctr)];
        w := w + 1;
      }
      forall v | 0 < v < worker
        ensures workerIvs[v][..c.size - 8] == iv[..c.size - 8]
        ensures LeValue(workerIvs[v][c.size - 8..]) == (LeValue(iv[c.size - 8..]) + pa[v].off) % TWO64
      {
        CtrAddNumber(iv, pa[v].off);
      }
    }

    /** cbc_prepare_worker_ivs and cfb_prepare_worker_ivs: the block in front of the worker's
        range, read before any worker runs. */
    method ChainPrepareWorkerIvs(input: array<Bytes>, pa: seq<Param>, worker: nat, blocks: nat)
      requires Valid() && Distributed(pa, worker, workerThreads, blocks) && blocks <= input.Length
      requires Cells(input, c.size) && forall w :: 0 < w < worker ==> 0 < pa[w].off <= blocks
      modifies this`workerIvs
      ensures Valid() && workerIvs[0] == old(workerIvs)[0]
      ensures forall w :: 0 < w < worker ==> workerIvs[w] == input[pa[w].off - 1]
    {
      hide Cipher.Valid, Start;
      var w := 1;
      while w < worker
        invariant 1 <= w <= worker
        invariant Valid() && workerIvs[0] == old(workerIvs)[0]
        invariant forall v :: 0 < v < w ==> workerIvs[v] == input[pa[v].off - 1]
      {
        workerIvs := workerIvs[w := input[pa[w].off - 1]];
        w := w + 1;
      }
    }

    // -------------------------------------------------------------- k_bcmode_update

    /** The batch that a call of process_block_parallel stands for. */
    ghost function BatchOf(input: array?<Bytes>, output: array<Bytes>, blocks: nat, used: nat): Parallel.Batch
      requires Valid() && (input != null ==> blocks <= input.Length) && blocks <= output.Length
      reads this, input, output
    {
      Parallel.Batch(c, mode, keytype, Iv(), Input(input, blocks, c.size), output[..blocks],
                     input == output, workerThreads, used)
    }

    /** distribute_work and prepare_iv together leave the memory prepared for the workers. */
    method Prepare(input: array?<Bytes>, output: array<Bytes>, blocks: nat) returns (pa: seq<Param>, worker: nat)
      requires Valid() && Parallelizable(mode, keytype)
      requires blocks <= output.Length && (input != null ==> blocks <= input.Length)
      requires Cells(input, c.size) && Cells(output, c.size)
      requires input == null ==> KeystreamPrecomputable(mode)
      modifies this`workerIvs
      ensures Valid() && Distributed(pa, worker, workerThreads, blocks) && Iv() == old(Iv())
      ensures Parallel.Prepared(BatchOf(input, output, blocks, worker),
                                Parallel.Memory(output[..blocks], workerIvs, seq(worker, _ => 0)))
    {
      hide Cipher.Valid, Start, CtrAdd, BlocksPerWorker;
      var params := new Param[workerThreads](_ => Param(0, 0, 0));
      worker := DistributeWork(params, workerThreads, blocks);
      pa := params[..];
      OffsetsInside(pa, worker, workerThreads, blocks);
      if PreparesIvs(mode) && worker > 1 {
        if mode == CTR {
          CtrPrepareWorkerIvs(pa, worker, blocks);
        } else {
          ChainPrepareWorkerIvs(input, pa, worker, blocks);
        }
      }
    }

    /** process_block_parallel. The loop stands for the worker threads: at every turn any job
        that has blocks left may be the one that advances. */
    method ProcessBlockParallel(input: array?<Bytes>, output: array<Bytes>, blocks: nat)
      requires Valid() && Parallelizable(mode, keytype)
      requires blocks <= output.Length && (input != null ==> blocks <= input.Length)
      requires Cells(input, c.size) && Cells(output, c.size)
      requires input == null ==> KeystreamPrecomputable(mode)
      modifies this`workerIvs, output
      ensures Valid()
      ensures output[..] ==
        RunOut(c, mode, keytype, old(Iv()), old(Input(input, blocks, c.size))) + old(output[blocks..])
      ensures Iv() == RunIv(c, mode, keytype, old(Iv()), old(Input(input, blocks, c.size)))
    {
      hide Cipher.Valid, Parallel.JobInv, StepOut, StepIv, RunOut, RunIv, Start, BlocksPerWorker;
      var pa, worker := Prepare(input, output, blocks);
      ghost var b := BatchOf(input, output, blocks, worker);
      var prog: seq<nat> := seq(worker, _ => 0);
      Parallel.PreparedIsInv(b, Parallel.Memory(output[..blocks], workerIvs, prog));
      while exists w :: 0 <= w < worker && prog[w] < pa[w].nblocks
        invariant Valid() && |prog| == worker
        invariant Parallel.Inv(b, Parallel.Memory(output[..blocks], workerIvs, prog))
        invariant output[blocks..] == old(output[blocks..])
        invariant input != null && input != output ==> input[..] == old(input[..])
        invariant Cells(input, c.size)
        decreases blocks - ParallelRun.Sum(prog)
      {
        var w: nat :| w < worker && prog[w] < pa[w].nblocks;
        prog := Turn(input, output, pa, prog, w, b);
      }
      ghost var mem := Parallel.Memory(output[..blocks], workerIvs, prog);
      forall w | 0 <= w < worker ensures Parallel.JobDone(b, mem, w) {
        ProgressAtEnd(b, mem, pa, w);
      }
      Parallel.AllDone(b, mem);
      if PreparesIvs(mode) && worker > 1 {
        workerIvs := workerIvs[0 := workerIvs[worker - 1]];
      }
      assert output[..] == output[..blocks] + output[blocks..];
    }

    /** One turn of the job of worker w: its next block goes through the mode kernel. */
    method Turn(input: array?<Bytes>, output: array<Bytes>, pa: seq<Param>, prog: seq<nat>, w: nat,
        ghost b: Parallel.Batch)
      returns (prog': seq<nat>)
      requires Valid() && Parallelizable(mode, keytype) && w < |prog| == b.used
      requires Distributed(pa, b.used, workerThreads, |b.xs|) && prog[w] < pa[w].nblocks
      requires |b.xs| <= output.Length && (input != null ==> |b.xs| <= input.Length)
      requires b.c == c && b.m == mode && b.d == keytype && b.nw == workerThreads && b.inPlace == (input == output)
      requires !b.inPlace ==> b.xs == Input(input, |b.xs|, c.size)
      requires Cells(input, c.size)
      requires input == null ==> KeystreamPrecomputable(mode)
      requires Parallel.Inv(b, Parallel.Memory(output[..|b.xs|], workerIvs, prog))
      modifies this`workerIvs, output
      ensures Valid()
      ensures Parallel.Inv(b, Parallel.Memory(output[..|b.xs|], workerIvs, prog'))
      ensures output[|b.xs|..] == old(output[|b.xs|..])
      ensures Cells(input, c.size)
      ensures |prog'| == |prog|
      ensures |b.xs| - ParallelRun.Sum(prog) >= 0
      ensures |b.xs| - ParallelRun.Sum(prog') < |b.xs| - ParallelRun.Sum(prog)
    {
      hide Cipher.Valid, Parallel.JobInv, StepOut, StepIv, Start, BlocksPerWorker;
      ghost var mem := Parallel.Memory(output[..|b.xs|], workerIvs, prog);
      NotDone(b, mem, pa, w);
      Parallel.StepKeepsInv(b, mem, w);
      ParallelRun.BlocksLeftBounded(b, mem);
      ParallelRun.SumUpdate(prog, w, prog[w] + 1);
      CryptBlock(input, output, pa[w].off + prog[w], w);
      prog' := prog[w := prog[w] + 1];
      assert Parallel.Memory(output[..|b.xs|], workerIvs, prog') == Parallel.BlockStep(b, mem, w);
    }

    /** k_bcmode_update: the sequential run, unless nothing runs at all. */
    method Update(input: array?<Bytes>, output: array<Bytes>, blocks: nat)
      requires Valid()
      requires blocks <= output.Length && (input != null ==> blocks <= input.Length)
      requires Cells(input, c.size) && Cells(output, c.size)
      requires input == null ==> KeystreamPrecomputable(mode)
      modifies this`workerIvs, output
      ensures Valid()
      ensures NothingRuns(mode, keytype, workerThreads, blocks) ==>
        output[..] == old(output[..]) && workerIvs == old(workerIvs)
      ensures !NothingRuns(mode, keytype, workerThreads, blocks) ==>
        && output[..] == RunOut(c, mode, keytype, old(Iv()), old(Input(input, blocks, c.size))) + old(output[blocks..])
        && Iv() == RunIv(c, mode, keytype, old(Iv()), old(Input(input, blocks, c.size)))
      ensures output[..blocks] ==
        UpdateOut(c, mode, keytype, workerThreads, old(Iv()), old(Input(input, blocks, c.size)), old(output[..blocks]))
    {
      hide Cipher.Valid, StepOut, StepIv;
      if workerThreads > 1 && blocks / workerThreads >= 512 {
        if keytype == Encrypt && Parallelizable(mode, Encrypt) {
          ProcessBlockParallel(input, output, blocks);
        } else if keytype == Decrypt && Parallelizable(mode, Decrypt) {
          ProcessBlockParallel(input, output, blocks);
        }
      } else {
        ProcessBlocks(input, output, blocks);
      }
    }

    /** The sequential loop over process_block. */
    method ProcessBlocks(input: array?<Bytes>, output: array<Bytes>, blocks: nat)
      requires Valid()
      requires blocks <= output.Length && (input != null ==> blocks <= input.Length)
      requires Cells(input, c.size)
      requires input == null ==> KeystreamPrecomputable(mode)
      modifies this`workerIvs, output
      ensures Valid()
      ensures output[..] ==
        RunOut(c, mode, keytype, old(Iv()), old(Input(input, blocks, c.size))) + old(output[blocks..])
      ensures Iv() == RunIv(c, mode, keytype, old(Iv()), old(Input(input, blocks, c.size)))
    {
      hide Cipher.Valid, StepOut, StepIv;
      ghost var xs := Input(input, blocks, c.size);
      for b := 0 to blocks
        invariant Valid()
        invariant Iv() == IvAt(c, mode, keytype, old(Iv()), xs, b)
        invariant forall k :: 0 <= k < b ==> output[k] == OutAt(c, mode, keytype, old(Iv()), xs, k)
        invariant forall k :: b <= k < output.Length ==> output[k] == old(output[k])
        invariant input != null ==> forall k :: b <= k < blocks ==> input[k] == xs[k]
        invariant Cells(input, c.size)
      {
        CryptBlock(input, output, b, 0);
      }
    }
  }

  lemma SizeAtLeast8(c: Cipher)
    requires c.Valid()
    ensures c.size >= 8
  {
  }

  lemma CounterAt(base: Word, off: nat, n: nat)
    ensures Add(Add(base, WordOf(off)), WordOf(n)) == Add(base, WordOf(off + n))
  {
    hide Add, WordOf;
    AddAssociates(base, WordOf(off), WordOf(n));
    WordOfSum(off, n);
  }

  lemma Contiguous(pa: seq<Param>, used: nat, workers: nat, blocks: nat)
    requires workers > 0 && Distributed(pa, used, workers, blocks)
    ensures pa[0].off == 0
    ensures forall w :: 0 < w < used ==> pa[w].off == pa[w - 1].off + pa[w - 1].nblocks
  {
    hide BlocksPerWorker;
  }

  /** Every worker after the first starts behind at least one block and inside the buffer. */
  lemma OffsetsInside(pa: seq<Param>, used: nat, workers: nat, blocks: nat)
    requires workers > 0 && Distributed(pa, used, workers, blocks)
    requires forall w :: 0 < w < used ==> pa[w].nblocks > 0
    ensures forall w :: 0 < w < used ==> 0 < pa[w].off <= blocks
  {
    forall w | 0 < w < used ensures 0 < pa[w].off <= blocks {
      StartMonotone(workers, blocks, w, used);
      StartMonotone(workers, blocks, 1, w);
      StartNext(workers, blocks, 0);
      FirstShareLargest(workers, blocks, w);
    }
  }

  lemma FirstShareLargest(workers: nat, blocks: nat, w: nat)
    requires workers > 0
    ensures BlocksPerWorker(workers, blocks, 0) >= BlocksPerWorker(workers, blocks, w)
  {
  }

  lemma NotDone(b: Parallel.Batch, mem: Parallel.Memory, pa: seq<Param>, w: nat)
    requires Parallel.Inv(b, mem) && w < b.used && Distributed(pa, b.used, b.nw, |b.xs|)
    requires mem.prog[w] < pa[w].nblocks
    ensures !Parallel.JobDone(b, mem, w) && pa[w].off == b.Lo(w)
  {
    StartNext(b.nw, |b.xs|, w);
  }

  lemma ProgressAtEnd(b: Parallel.Batch, mem: Parallel.Memory, pa: seq<Param>, w: nat)
    requires Parallel.Inv(b, mem) && w < b.used && Distributed(pa, b.used, b.nw, |b.xs|)
    requires mem.prog[w] >= pa[w].nblocks
    ensures Parallel.JobDone(b, mem, w)
  {
    assert Parallel.JobInv(b, mem, w);
    StartNext(b.nw, |b.xs|, w);
  }

  // ---------------------------------------------------------------- exactly when it works

  /** What the output buffer holds after k_bcmode_update. */
  function UpdateOut(c: Cipher, m: Mode, d: Dir, threads: nat, iv: Bytes, xs: seq<Bytes>,
      before: seq<Bytes>): seq<Bytes>
    requires c.Valid() && |iv| == c.size && Blocks(c, xs) && |before| == |xs|
  {
    if NothingRuns(m, d, threads, |xs|) then before else RunOut(c, m, d, iv, xs)
  }

  /** Whatever the output buffer held, k_bcmode_update fills it with the sequential output if
      and only if it is not asked to split an unsplittable direction. */
  lemma UpdateIsSequentialExactly(c: Cipher, m: Mode, d: Dir, threads: nat, iv: Bytes, xs: seq<Bytes>)
    requires c.Valid() && |iv| == c.size && Blocks(c, xs) && threads > 0
    ensures (forall before: seq<Bytes> | |before| == |xs| && Blocks(c, before) ::
               UpdateOut(c, m, d, threads, iv, xs, before) == RunOut(c, m, d, iv, xs))
         <==> !NothingRuns(m, d, threads, |xs|)
  {
    hide Cipher.Valid, StepOut, StepIv, RunOut;
    if NothingRuns(m, d, threads, |xs|) {
      SizeAtLeast8(c);
      var right := RunOut(c, m, d, iv, xs);
      assert |xs| > 0;
      var first := right[0][0 := if right[0][0] == 0 then 1 else 0];
      var before := right[0 := first];
      assert before[0][0] != right[0][0];
      assert UpdateOut(c, m, d, threads, iv, xs, before) == before;
    }
  }

  /** The smallest failing call: CBC encryption of 1024 blocks with two worker threads. */
  lemma CbcEncryptionSkipped()
    ensures NothingRuns(CBC, Encrypt, 2, 1024) && NothingRuns(CFB, Encrypt, 2, 1024)
    ensures !NothingRuns(CBC, Encrypt, 2, 1023) && !NothingRuns(CBC, Decrypt, 2, 1024)
  {
  }
}
