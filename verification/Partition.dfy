// How src/blockcipher/blockcipher.c splits a run of blocks over its workers.

module Partition {

  /** get_blocks_per_worker */
  function BlocksPerWorker(workers: nat, blocks: nat, worker: nat): (n: nat)
    requires workers > 0
  {
    blocks / workers + if blocks % workers >= worker + 1 then 1 else 0
  }

  /** The number of blocks handed to the workers before `worker`: its first block. */
  function Start(workers: nat, blocks: nat, worker: nat): (n: nat)
    requires workers > 0
  {
    if worker == 0 then 0
    else Start(workers, blocks, worker - 1) + BlocksPerWorker(workers, blocks, worker - 1)
  }

  lemma {:induction false} StartClosedForm(workers: nat, blocks: nat, worker: nat)
    requires workers > 0 && worker <= workers
    ensures Start(workers, blocks, worker)
         == worker * (blocks / workers) + if worker <= blocks % workers then worker else blocks % workers
  {
    if worker > 0 {
      StartClosedForm(workers, blocks, worker - 1);
      var q := blocks / workers;
      assert worker * q == (worker - 1) * q + q;
    }
  }

  /** The shares of all workers add up to the block count. */
  lemma StartOfAll(workers: nat, blocks: nat)
    requires workers > 0
    ensures Start(workers, blocks, workers) == blocks
  {
    StartClosedForm(workers, blocks, workers);
  }

  lemma {:induction false} StartMonotone(workers: nat, blocks: nat, v: nat, w: nat)
    requires workers > 0 && v <= w
    ensures Start(workers, blocks, v) <= Start(workers, blocks, w)
  {
    if v < w {
      StartMonotone(workers, blocks, v, w - 1);
    }
  }

  /** The workers' ranges are contiguous, disjoint and cover every block: each block has
      exactly one owner. */
  lemma {:induction false} OwnerExists(workers: nat, blocks: nat, w: nat, block: nat) returns (owner: nat)
    requires workers > 0 && block < Start(workers, blocks, w)
    ensures owner < w && Start(workers, blocks, owner) <= block < Start(workers, blocks, owner + 1)
    ensures forall v: nat | v != owner :: !(Start(workers, blocks, v) <= block < Start(workers, blocks, v + 1))
  {
    if Start(workers, blocks, w - 1) <= block {
      owner := w - 1;
      forall v: nat | v != owner
        ensures !(Start(workers, blocks, v) <= block < Start(workers, blocks, v + 1))
      {
        if v < owner {
          StartMonotone(workers, blocks, v + 1, owner);
        } else {
          StartMonotone(workers, blocks, owner + 1, v);
        }
      }
    } else {
      owner := OwnerExists(workers, blocks, w - 1, block);
    }
  }

  /** The parameter block of one worker; `off` stands for the distance, in blocks, of its
      in and out pointers from the buffers handed to k_bcmode_update. */
  datatype Param = Param(workerNum: nat, off: nat, nblocks: nat)

  ghost predicate Distributed(pa: seq<Param>, used: nat, workers: nat, blocks: nat)
    requires workers > 0
  {
    && 1 <= used <= |pa| == workers
    && Start(workers, blocks, used) == blocks
    && forall w :: 0 <= w < used ==>
         pa[w] == Param(w, Start(workers, blocks, w), BlocksPerWorker(workers, blocks, w))
  }

  /** distribute_work: fills the parameter blocks and returns how many workers take part. */
  method DistributeWork(pa: array<Param>, workers: nat, blocks: nat) returns (worker: nat)
    requires workers > 0 && pa.Length == workers
    modifies pa
    ensures Distributed(pa[..], worker, workers, blocks)
    ensures forall w :: 0 < w < worker ==> pa[w].nblocks > 0
  {
    hide BlocksPerWorker, Start;
    worker := 0;
    var distributed := 0;
    StartNext(workers, blocks, 0);
    pa[0] := Param(0, 0, BlocksPerWorker(workers, blocks, 0));
    distributed := distributed + pa[0].nblocks;
    worker := worker + 1;
    while worker < workers && distributed < blocks
      invariant 1 <= worker <= workers
      invariant distributed == Start(workers, blocks, worker) <= blocks
      invariant forall w :: 0 <= w < worker ==>
        pa[w] == Param(w, Start(workers, blocks, w), BlocksPerWorker(workers, blocks, w))
      invariant distributed == pa[worker - 1].off + pa[worker - 1].nblocks
      invariant forall w :: 0 < w < worker ==> pa[w].nblocks > 0
    {
      ShareOfMissing(workers, blocks, worker);
      StartNext(workers, blocks, worker);
      pa[worker] := Param(worker, pa[worker - 1].off + pa[worker - 1].nblocks,
                          BlocksPerWorker(workers, blocks, worker));
      distributed := distributed + pa[worker].nblocks;
      worker := worker + 1;
    }
    StartOfAll(workers, blocks);
  }

  lemma StartNext(workers: nat, blocks: nat, worker: nat)
    requires workers > 0 && worker < workers
    ensures Start(workers, blocks, 0) == 0
    ensures Start(workers, blocks, worker + 1)
         == Start(workers, blocks, worker) + BlocksPerWorker(workers, blocks, worker) <= blocks
  {
    hide BlocksPerWorker;
    StartOfAll(workers, blocks);
    StartMonotone(workers, blocks, worker + 1, workers);
  }

  /** A worker reached while blocks are still missing gets at least one. */
  lemma ShareOfMissing(workers: nat, blocks: nat, worker: nat)
    requires workers > 0 && worker < workers && Start(workers, blocks, worker) < blocks
    ensures BlocksPerWorker(workers, blocks, worker) > 0
  {
    StartClosedForm(workers, blocks, worker);
    if blocks / workers == 0 {
      assert blocks % workers == blocks;
      assert worker * (blocks / workers) == 0;
    }
  }
}
