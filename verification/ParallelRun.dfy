// process_block_parallel as a whole: the workbench protocol and the shared memory together.
// A worker thread that has taken a job interleaves its block steps with everything else.

module ParallelRun {
  import opened BlockModes
  import Parallel
  import opened Workbench
  import WorkbenchProofs

  datatype State = State(sys: Sys, mem: Parallel.Memory)

  datatype Step = Protocol(a: Action) | Work(t: nat)

  predicate Spurious(st: Step) {
    st.Protocol? && st.a.Spurious()
  }

  /** The job a thread is executing has blocks left. */
  ghost predicate Unfinished(b: Parallel.Batch, s: State, t: nat)
    requires b.nw > 0 && Parallel.Shaped(b, s.mem) && t < |s.sys.workers|
  {
    && s.sys.workers[t].Running? && s.sys.workers[t].job < b.used
    && !Parallel.JobDone(b, s.mem, s.sys.workers[t].job)
  }

  /** parallel_worker returns, and so the job is reported as finished, only after its loop. */
  ghost predicate CanStep(b: Parallel.Batch, s: State, st: Step)
    requires b.nw > 0 && Parallel.Shaped(b, s.mem)
  {
    match st
    case Work(t) => t < |s.sys.workers| && Unfinished(b, s, t)
    case Protocol(a) => Enabled(s.sys, a) && (a.Finish? ==> !Unfinished(b, s, a.t))
  }

  /** The client's calls from job k on: commit the rest, then join. */
  function Program(k: nat, n: nat): (r: seq<Call>)
    decreases n - k
  {
    if k >= n then [Join] else [Commit(k)] + Program(k + 1, n)
  }

  lemma {:induction false} ProgramShape(k: nat, n: nat)
    requires k <= n
    ensures |Program(k, n)| == n - k + 1
    ensures WorkbenchProofs.WellFormedCalls(Program(k, n))
    decreases n - k
  {
    if k < n {
      ProgramShape(k + 1, n);
    }
  }

  /** How far the client has got, with every job below it committed. */
  ghost predicate ClientAt(b: Parallel.Batch, sys: Sys, k: nat) {
    && k <= b.used
    && (sys.todo == Program(k, b.used) || (k == b.used && sys.todo == [] && sys.committed == sys.finished))
    && (forall j :: j in sys.committed <==> 0 <= j < k)
  }

  ghost predicate Inv(b: Parallel.Batch, s: State) {
    && WorkbenchProofs.Inv(s.sys) && !WorkbenchProofs.Deleted(s.sys)
    && Parallel.Inv(b, s.mem)
    && (exists k :: ClientAt(b, s.sys, k))
    && (forall j :: j in s.sys.finished ==> j < b.used && Parallel.JobDone(b, s.mem, j))
  }

  ghost function Next(b: Parallel.Batch, s: State, st: Step): (r: State)
    requires Inv(b, s) && CanStep(b, s, st)
  {
    match st
    case Work(t) =>
      Parallel.StepKeepsInv(b, s.mem, s.sys.workers[t].job);
      State(s.sys, Parallel.BlockStep(b, s.mem, s.sys.workers[t].job))
    case Protocol(a) =>
      WorkbenchProofs.StepKeepsInv(s.sys, a);
      State(Apply(s.sys, a), s.mem)
  }

  // ---------------------------------------------------------------- every step keeps Inv

  lemma WorkKeepsInv(b: Parallel.Batch, s: State, t: nat)
    requires Inv(b, s) && CanStep(b, s, Work(t))
    ensures Inv(b, Next(b, s, Work(t)))
  {
    hide WorkbenchProofs.Inv, Parallel.JobInv, ClientAt, Parallel.Batch.Valid;
    var w := s.sys.workers[t].job;
    Parallel.StepKeepsInv(b, s.mem, w);
    var s' := Next(b, s, Work(t));
    forall j | j in s'.sys.finished ensures j < b.used && Parallel.JobDone(b, s'.mem, j) {
      assert j != w;
    }
  }

  lemma ClientStepAt(b: Parallel.Batch, sys: Sys, a: Action, k: nat) returns (k': nat)
    requires WorkbenchProofs.Inv(sys) && !WorkbenchProofs.Deleted(sys) && Enabled(sys, a) && ClientAt(b, sys, k)
    ensures |sys.core.buf| == QUEUED_JOBS && sys.core.njobs <= QUEUED_JOBS
    ensures Committing(sys) ==> sys.core.njobs >= 0
    ensures ClientAt(b, Apply(sys, a), k')
    ensures !WorkbenchProofs.Deleted(Apply(sys, a))
  {
    hide Count, RunningJobs, WorkbenchProofs.JobsAccounted;
    ProgramShape(k, b.used);
    assert sys.todo != [] ==> sys.todo[0].Commit? || sys.todo[0].Join?;
    k' := if a.CommitStore? then k + 1 else k;
    if a.CommitStore? {
      assert sys.todo == [Commit(k)] + Program(k + 1, b.used);
      assert sys.todo[1..] == Program(k + 1, b.used);
    } else if a.JoinPass? {
      assert k == b.used && sys.todo == [Join];
      WorkbenchProofs.JoinMeansFinished(sys);
    } else if a.Finish? {
      if sys.todo == [] {
        NothingRunsAfterJoin(sys, a.t);
      }
    }
  }

  lemma NothingLeft(q: multiset<nat>, r: multiset<nat>, f: multiset<nat>)
    requires f == q + r + f
    ensures r == multiset{}
  {
    forall x ensures r[x] == 0 {
      assert f[x] == (q + r + f)[x];
    }
  }

  lemma NothingRunsAfterJoin(sys: Sys, t: nat)
    requires WorkbenchProofs.Inv(sys) && !WorkbenchProofs.Deleted(sys) && sys.committed == sys.finished
    requires t < |sys.workers|
    ensures !sys.workers[t].Running?
  {
    hide Count, RunningJobs;
    CountPositive(sys.workers, Running(0));
    NothingLeft(multiset(sys.core.Queued()), RunningJobs(sys.workers), sys.finished);
    assert One(sys.workers[t], Running(0)) != 1;
  }

  lemma RunningIsCommitted(sys: Sys, t: nat)
    requires WorkbenchProofs.Inv(sys) && !WorkbenchProofs.Deleted(sys) && t < |sys.workers| && sys.workers[t].Running?
    ensures sys.workers[t].job in sys.committed
  {
    hide Count, RunningJobs;
    RunningJobsUpdate(sys.workers, t, Ready);
    assert sys.workers[t].job in RunningJobs(sys.workers);
  }

  lemma ProtocolKeepsInv(b: Parallel.Batch, s: State, a: Action)
    requires Inv(b, s) && CanStep(b, s, Protocol(a))
    ensures Inv(b, Next(b, s, Protocol(a)))
  {
    hide WorkbenchProofs.Inv, Parallel.JobInv, Parallel.Batch.Valid, WorkbenchProofs.Deleted;
    WorkbenchProofs.StepKeepsInv(s.sys, a);
    var k :| ClientAt(b, s.sys, k);
    var k' := ClientStepAt(b, s.sys, a, k);
    if a.Finish? {
      RunningIsCommitted(s.sys, a.t);
    }
  }

  lemma StepKeepsInv(b: Parallel.Batch, s: State, st: Step)
    requires Inv(b, s) && CanStep(b, s, st)
    ensures Inv(b, Next(b, s, st))
  {
    if st.Work? {
      WorkKeepsInv(b, s, st.t);
    } else {
      ProtocolKeepsInv(b, s, st.a);
    }
  }

  // ---------------------------------------------------------------- runs

  ghost predicate IsRun(b: Parallel.Batch, s: State, steps: seq<Step>)
    requires Inv(b, s)
    decreases |steps|
  {
    steps == [] ||
    (CanStep(b, s, steps[0])
     && (StepKeepsInv(b, s, steps[0]); IsRun(b, Next(b, s, steps[0]), steps[1..])))
  }

  ghost function After(b: Parallel.Batch, s: State, steps: seq<Step>): (r: State)
    requires Inv(b, s) && IsRun(b, s, steps)
    ensures Inv(b, r)
    decreases |steps|
  {
    if steps == [] then s
    else
      StepKeepsInv(b, s, steps[0]);
      After(b, Next(b, s, steps[0]), steps[1..])
  }

  /** The state in which process_block_parallel starts to commit: no job is outstanding, the
      worker threads may be anywhere in their idle loop, and the worker IVs are prepared. */
  ghost predicate Start(b: Parallel.Batch, s: State): (r: bool)
    ensures r ==> Inv(b, s)
  {
    && WorkbenchProofs.Inv(s.sys) && !WorkbenchProofs.Deleted(s.sys) && s.sys.core.nworking == 0
    && s.sys.committed == s.sys.finished == multiset{}
    && s.sys.todo == Program(0, b.used)
    && Parallel.Prepared(b, s.mem)
    && (StartIsInv(b, s); true)
  }

  lemma StartIsInv(b: Parallel.Batch, s: State)
    requires WorkbenchProofs.Inv(s.sys) && !WorkbenchProofs.Deleted(s.sys) && s.sys.core.nworking == 0
    requires s.sys.committed == s.sys.finished == multiset{}
    requires s.sys.todo == Program(0, b.used) && Parallel.Prepared(b, s.mem)
    ensures Inv(b, s)
  {
    Parallel.PreparedIsInv(b, s.mem);
    assert ClientAt(b, s.sys, 0);
  }

  /** The refinement: whatever the number of workers and of blocks, however the threads and
      their block steps interleave, and whether or not input and output are the same buffer,
      once workbench_join has returned the buffer holds the output of the sequential loop and
      the IV kept for the next call is the sequential one. */
  lemma ParallelIsSequential(b: Parallel.Batch, s: State, steps: seq<Step>)
    requires Start(b, s) && IsRun(b, s, steps)
    requires After(b, s, steps).sys.todo == []
    ensures After(b, s, steps).mem.out == RunOut(b.c, b.m, b.d, b.iv, b.xs)
    ensures Parallel.FinalIv(b, After(b, s, steps).mem) == RunIv(b.c, b.m, b.d, b.iv, b.xs)
  {
    hide IsRun, After, Start;
    JoinedIsSequential(b, After(b, s, steps));
  }

  lemma JoinedIsSequential(b: Parallel.Batch, s: State)
    requires Inv(b, s) && s.sys.todo == []
    ensures s.mem.out == RunOut(b.c, b.m, b.d, b.iv, b.xs)
    ensures Parallel.FinalIv(b, s.mem) == RunIv(b.c, b.m, b.d, b.iv, b.xs)
  {
    hide WorkbenchProofs.Inv, Parallel.JobInv;
    var k :| ClientAt(b, s.sys, k);
    ProgramShape(k, b.used);
    forall w | 0 <= w < b.used ensures Parallel.JobDone(b, s.mem, w) {
      assert w in s.sys.committed;
    }
    Parallel.AllDone(b, s.mem);
  }

  // ---------------------------------------------------------------- progress

  /** Until workbench_join returns some thread can move. */
  lemma NoDeadlock(b: Parallel.Batch, s: State) returns (st: Step)
    requires Inv(b, s) && s.sys.todo != []
    ensures CanStep(b, s, st) && !Spurious(st)
  {
    hide WorkbenchProofs.Inv, Parallel.JobInv, ClientAt;
    var a := WorkbenchProofs.NoDeadlock(s.sys);
    st := if a.Finish? && Unfinished(b, s, a.t) then Work(a.t) else Protocol(a);
  }

  function BlocksLeft(b: Parallel.Batch, prog: seq<nat>): int
  {
    |b.xs| - Sum(prog)
  }

  function Sum(xs: seq<nat>): nat {
    if xs == [] then 0 else Sum(xs[..|xs| - 1]) + xs[|xs| - 1]
  }

  lemma {:induction false} SumUpdate(xs: seq<nat>, i: nat, v: nat)
    requires i < |xs|
    ensures Sum(xs[i := v]) == Sum(xs) - xs[i] + v
  {
    var n := |xs| - 1;
    if i == n {
      assert xs[i := v][..n] == xs[..n];
    } else {
      assert xs[i := v][..n] == xs[..n][i := v];
      SumUpdate(xs[..n], i, v);
    }
  }

  /** No job counts more blocks than its range has. */
  lemma {:induction false} ProgressBounded(b: Parallel.Batch, mem: Parallel.Memory, w: nat)
    requires Parallel.Inv(b, mem) && w <= b.used
    ensures Sum(mem.prog[..w]) <= b.Lo(w)
  {
    if w > 0 {
      ProgressBounded(b, mem, w - 1);
      assert Parallel.JobInv(b, mem, w - 1);
      assert mem.prog[..w][..w - 1] == mem.prog[..w - 1];
    }
  }

  ghost function Measure(b: Parallel.Batch, s: State): int {
    WorkbenchProofs.Measure(s.sys) + BlocksLeft(b, s.mem.prog)
  }

  lemma BlocksLeftBounded(b: Parallel.Batch, mem: Parallel.Memory)
    requires Parallel.Inv(b, mem)
    ensures BlocksLeft(b, mem.prog) >= 0
  {
    ProgressBounded(b, mem, b.used);
    assert mem.prog[..b.used] == mem.prog;
  }

  lemma WorkDecreasesMeasure(b: Parallel.Batch, s: State, t: nat)
    requires Inv(b, s) && CanStep(b, s, Work(t))
    ensures BlocksLeft(b, Next(b, s, Work(t)).mem.prog) == BlocksLeft(b, s.mem.prog) - 1
  {
    hide WorkbenchProofs.Inv, Parallel.JobInv, ClientAt;
    var w := s.sys.workers[t].job;
    Parallel.StepKeepsInv(b, s.mem, w);
    SumUpdate(s.mem.prog, w, s.mem.prog[w] + 1);
  }

  lemma StepDecreasesMeasure(b: Parallel.Batch, s: State, st: Step)
    requires Inv(b, s) && CanStep(b, s, st) && !Spurious(st)
    ensures 0 <= Measure(b, Next(b, s, st)) < Measure(b, s)
  {
    hide WorkbenchProofs.Inv, Parallel.Inv, ClientAt, WorkbenchProofs.Measure, BlocksLeft, Parallel.BlockStep;
    StepKeepsInv(b, s, st);
    BlocksLeftBounded(b, Next(b, s, st).mem);
    MeasureNonNegative(s.sys);
    if st.Work? {
      WorkDecreasesMeasure(b, s, st.t);
    } else {
      WorkbenchProofs.StepDecreasesMeasure(s.sys, st.a);
    }
  }

  lemma MeasureNonNegative(sys: Sys)
    ensures WorkbenchProofs.Measure(sys) >= 0
  {
  }

  function SpuriousSteps(steps: seq<Step>): (n: nat)
    ensures n <= |steps|
  {
    if steps == [] then 0 else (if Spurious(steps[0]) then 1 else 0) + SpuriousSteps(steps[1..])
  }

  /** Every run has an explicit bound, the spurious wake-ups in it counted on the other side, and
      workbench_join has returned if it cannot be continued. */
  lemma {:induction false} RunsAreBounded(b: Parallel.Batch, s: State, steps: seq<Step>)
    requires Inv(b, s) && IsRun(b, s, steps)
    ensures Measure(b, After(b, s, steps)) + (|steps| - SpuriousSteps(steps)) <= Measure(b, s) + SpuriousSteps(steps)
    ensures (forall st :: !Spurious(st) ==> !CanStep(b, After(b, s, steps), st)) ==> After(b, s, steps).sys.todo == []
    decreases |steps|
  {
    hide Measure, Next, CanStep, Inv;
    if steps == [] {
      if s.sys.todo != [] {
        var st := NoDeadlock(b, s);
      }
    } else {
      StepKeepsInv(b, s, steps[0]);
      if Spurious(steps[0]) {
        SpuriousMeasure(b, s, steps[0]);
      } else {
        StepDecreasesMeasure(b, s, steps[0]);
      }
      RunsAreBounded(b, Next(b, s, steps[0]), steps[1..]);
    }
  }

  lemma SpuriousMeasure(b: Parallel.Batch, s: State, st: Step)
    requires Inv(b, s) && CanStep(b, s, st) && Spurious(st)
    ensures Measure(b, Next(b, s, st)) <= Measure(b, s) + 1
  {
    hide WorkbenchProofs.Inv, Parallel.Inv, ClientAt, WorkbenchProofs.Measure, BlocksLeft;
    WorkbenchProofs.SpuriousMeasure(s.sys, st.a);
  }
}
