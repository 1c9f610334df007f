// Safety and progress of the workbench protocol over every interleaving.

module WorkbenchProofs {
  import opened Workbench

  /** A client calls commit and join as it likes and delete, if at all, last. */
  predicate WellFormedCalls(todo: seq<Call>) {
    forall k :: 0 <= k < |todo| ==>
      !todo[k].Reap? && (todo[k].Delete? ==> k == |todo| - 1)
  }

  predicate Deleted(s: Sys) {
    s.core.njobs < 0
  }

  /** Every committed job is in exactly one place: queued, on a worker, or finished. */
  ghost predicate JobsAccounted(s: Sys)
    requires s.core.Queueing()
  {
    s.committed == multiset(s.core.Queued()) + RunningJobs(s.workers) + s.finished
  }

  ghost predicate LiveInv(s: Sys) {
    && s.core.Queueing()
    && s.core.nworking == s.core.njobs + Count(s.workers, Running(0))
    && Count(s.workers, Exited) == 0
    && JobsAccounted(s)
    && WellFormedCalls(s.todo)
    // No lost wake-up on notempty: while a worker sleeps, every queued job has an awake worker
    // on its way to it.
    && (Count(s.workers, Asleep) > 0 ==> s.core.njobs <= Count(s.workers, Ready))
  }

  ghost predicate DeletedInv(s: Sys) {
    && s.core.njobs == -1 && s.core.nworking == 0
    && Count(s.workers, Asleep) == 0 && Count(s.workers, Running(0)) == 0
    && s.committed == s.finished
    && (s.todo == [] || s.todo == [Reap])
  }

  ghost predicate Inv(s: Sys) {
    && |s.workers| > 0 && |s.core.buf| == QUEUED_JOBS
    && (if Deleted(s) then DeletedInv(s) else LiveInv(s))
    // No lost wake-up on notfull and notworking.
    && (s.client.OnNotFull? ==> s.todo != [] && s.todo[0].Commit? && s.core.njobs == QUEUED_JOBS)
    && (s.client.OnNotWorking? ==>
          s.todo != [] && (s.todo[0].Join? || s.todo[0].Delete?) && s.core.nworking > 0)
  }

  // ---------------------------------------------------------------- every step keeps Inv

  lemma StoreKeepsAccounts(s: Sys, w: int)
    requires LiveInv(s) && Enabled(s, CommitStore(w))
    ensures JobsAccounted(Apply(s, CommitStore(w)))
  {
    hide Count, RunningJobs;
    var job, s' := s.todo[0].job, Apply(s, CommitStore(w));
    assert s'.core.Queued() == s.core.Queued() + [job];
    assert multiset(s'.core.Queued()) == multiset(s.core.Queued()) + multiset{job};
    if w >= 0 {
      CountPositive(s.workers, Asleep);
      RunningJobsUpdate(s.workers, w, Ready);
      assert RunningJobs(s'.workers) == RunningJobs(s.workers);
    }
  }

  lemma CommitStoreKeepsInv(s: Sys, w: int)
    requires Inv(s) && Enabled(s, CommitStore(w))
    ensures !Deleted(s)
    ensures Inv(Apply(s, CommitStore(w)))
  {
    hide Count, RunningJobs, JobsAccounted;
    assert !Deleted(s);
    StoreKeepsAccounts(s, w);
    CountPositive(s.workers, Asleep);
    if w >= 0 {
      assert One(s.workers[w], Asleep) == 1;
      CountUpdate(s.workers, w, Ready, Ready);
      CountUpdate(s.workers, w, Ready, Asleep);
      CountUpdate(s.workers, w, Ready, Running(0));
      CountUpdate(s.workers, w, Ready, Exited);
    }
  }

  /** The job committed last moves from the queue to a worker. */
  lemma PoppedAccounts(c: Core, r: multiset<nat>, f: multiset<nat>)
    requires c.Queueing() && c.njobs > 0
    ensures var job := c.buf[c.njobs - 1];
      multiset(c.Queued()) + r + f == multiset(Popped(c).Queued()) + (r - multiset{} + multiset{job}) + f
  {
    hide Popped, Core.Queued;
    var q, job := Popped(c).Queued(), c.buf[c.njobs - 1];
    assert c.Queued() == q + [job];
    assert multiset(q + [job]) == multiset(q) + multiset{job};
  }

  lemma TakeKeepsAccounts(s: Sys, t: nat)
    requires LiveInv(s) && Enabled(s, Take(t))
    ensures JobsAccounted(Apply(s, Take(t)))
  {
    hide Count, RunningJobs, Popped, Core.Queued, WellFormedCalls;
    var job := s.core.buf[s.core.njobs - 1];
    RunningJobsUpdate(s.workers, t, Running(job));
    PoppedAccounts(s.core, RunningJobs(s.workers), s.finished);
  }

  lemma TakeKeepsInv(s: Sys, t: nat)
    requires Inv(s) && Enabled(s, Take(t))
    ensures Inv(Apply(s, Take(t)))
  {
    hide Count, RunningJobs, JobsAccounted;
    var job := s.core.buf[s.core.njobs - 1];
    TakeKeepsAccounts(s, t);
    CountUpdate(s.workers, t, Running(job), Ready);
    CountUpdate(s.workers, t, Running(job), Asleep);
    CountUpdate(s.workers, t, Running(job), Running(0));
    CountUpdate(s.workers, t, Running(job), Exited);
  }

  lemma FinishKeepsAccounts(s: Sys, t: nat)
    requires LiveInv(s) && Enabled(s, Finish(t))
    ensures JobsAccounted(Apply(s, Finish(t)))
  {
    hide Count, RunningJobs;
    var job, s' := s.workers[t].job, Apply(s, Finish(t));
    RunningJobsUpdate(s.workers, t, Ready);
    assert RunningJobs(s.workers) == RunningJobs(s'.workers) + multiset{job};
  }

  lemma FinishKeepsInv(s: Sys, t: nat)
    requires Inv(s) && Enabled(s, Finish(t))
    ensures Inv(Apply(s, Finish(t)))
  {
    hide Count, RunningJobs, JobsAccounted;
    CountUpdate(s.workers, t, Ready, Ready);
    CountUpdate(s.workers, t, Ready, Asleep);
    CountUpdate(s.workers, t, Ready, Running(0));
    CountUpdate(s.workers, t, Ready, Exited);
    FinishKeepsAccounts(s, t);
  }

  /** A worker that starts or stops waiting, without a job. */
  lemma IdleMoveKeepsInv(s: Sys, t: nat, pc: WorkerPc)
    requires Inv(s) && t < |s.workers|
    requires (s.workers[t].Ready? && pc.Asleep? && s.core.njobs == 0)
          || (s.workers[t].Ready? && pc.Exited? && Deleted(s))
          || (s.workers[t].Asleep? && pc.Ready?)
    ensures Inv(s.(workers := s.workers[t := pc]))
  {
    hide Count, RunningJobs;
    CountUpdate(s.workers, t, pc, Ready);
    CountUpdate(s.workers, t, pc, Asleep);
    CountUpdate(s.workers, t, pc, Running(0));
    CountUpdate(s.workers, t, pc, Exited);
    RunningJobsUpdate(s.workers, t, pc);
  }

  lemma {:induction false} AllWokenCounts(ws: seq<WorkerPc>)
    requires Count(ws, Running(0)) == 0
    ensures Count(AllWoken(ws), Asleep) == 0 && Count(AllWoken(ws), Running(0)) == 0
  {
    if ws != [] {
      var n := |ws| - 1;
      AllWokenCounts(ws[..n]);
      assert AllWoken(ws)[..n] == AllWoken(ws[..n]);
    }
  }

  lemma DeletePassKeepsInv(s: Sys)
    requires Inv(s) && Enabled(s, DeletePass)
    ensures Inv(Apply(s, DeletePass))
  {
    hide Count, RunningJobs, AllWoken;
    AllWokenCounts(s.workers);
    CountPositive(s.workers, Ready);
    assert s.core.Queued() == [];
    assert |s.todo| == 1;
  }

  lemma StepAllowed(s: Sys, a: Action)
    requires Inv(s) && Enabled(s, a)
    ensures |s.core.buf| == QUEUED_JOBS && s.core.njobs <= QUEUED_JOBS
    ensures Committing(s) ==> s.core.njobs >= 0
  {
    hide Count, RunningJobs, JobsAccounted;
  }

  /** The steps of the client that leave the queue and the workers alone. */
  lemma ClientStepKeepsInv(s: Sys, a: Action)
    requires Inv(s) && Enabled(s, a)
    requires a.CommitWait? || a.JoinPass? || a.JoinWait? || a.DeleteWait? || a.ReapPass? || a.WakeClient?
    ensures |s.core.buf| == QUEUED_JOBS && s.core.njobs <= QUEUED_JOBS
    ensures Committing(s) ==> s.core.njobs >= 0
    ensures Inv(Apply(s, a))
  {
    hide Count, RunningJobs, Core.Queued;
    StepAllowed(s, a);
  }

  /** Safety: every step of any thread keeps the invariant. */
  lemma StepKeepsInv(s: Sys, a: Action)
    requires Inv(s) && Enabled(s, a)
    ensures |s.core.buf| == QUEUED_JOBS && s.core.njobs <= QUEUED_JOBS
    ensures Committing(s) ==> s.core.njobs >= 0
    ensures Inv(Apply(s, a))
  {
    hide Count, RunningJobs, Inv;
    StepAllowed(s, a);
    match a
    case CommitStore(w) => CommitStoreKeepsInv(s, w);
    case Take(t) => TakeKeepsInv(s, t);
    case Finish(t) => FinishKeepsInv(s, t);
    case GoToSleep(t) => IdleMoveKeepsInv(s, t, Asleep);
    case Exit(t) => IdleMoveKeepsInv(s, t, Exited);
    case WakeWorker(t) => IdleMoveKeepsInv(s, t, Ready);
    case DeletePass => DeletePassKeepsInv(s);
    case _ => ClientStepKeepsInv(s, a);
  }

  // ---------------------------------------------------------------- runs

  /** acts is a possible interleaving from s. */
  ghost predicate IsRun(s: Sys, acts: seq<Action>)
    requires Inv(s)
    decreases |acts|
  {
    acts == [] ||
    (Enabled(s, acts[0]) && (StepKeepsInv(s, acts[0]); IsRun(Apply(s, acts[0]), acts[1..])))
  }

  ghost function After(s: Sys, acts: seq<Action>): (r: Sys)
    requires Inv(s) && IsRun(s, acts)
    ensures Inv(r)
    decreases |acts|
  {
    if acts == [] then s
    else
      StepKeepsInv(s, acts[0]);
      After(Apply(s, acts[0]), acts[1..])
  }

  function Idle(workers: nat): (ws: seq<WorkerPc>)
    ensures |ws| == workers
  {
    seq(workers, _ => Ready)
  }

  lemma {:induction false} IdleCounts(workers: nat)
    ensures Count(Idle(workers), Ready) == workers
    ensures Count(Idle(workers), Asleep) == Count(Idle(workers), Running(0)) == Count(Idle(workers), Exited) == 0
    ensures RunningJobs(Idle(workers)) == multiset{}
  {
    if workers > 0 {
      IdleCounts(workers - 1);
      assert Idle(workers)[..workers - 1] == Idle(workers - 1);
    }
  }

  /** After workbench_create: every thread is about to lock, nothing is queued. */
  function Created(workers: nat, buf: seq<nat>, program: seq<Call>): (s: Sys)
    requires workers > 0 && |buf| == QUEUED_JOBS && WellFormedCalls(program)
    ensures Inv(s)
  {
    IdleCounts(workers);
    Sys(Core(0, 0, buf), Idle(workers), Awake, program, multiset{}, multiset{})
  }

  /** On every run of every client program: the queue stays within its bounds, nworking counts
      the queued and the running jobs, and each committed job is queued, running or finished,
      in exactly one of the three. */
  lemma SafeOnEveryRun(workers: nat, buf: seq<nat>, program: seq<Call>, acts: seq<Action>)
    requires workers > 0 && |buf| == QUEUED_JOBS && WellFormedCalls(program)
    requires IsRun(Created(workers, buf, program), acts)
    ensures var s := After(Created(workers, buf, program), acts);
      && (!Deleted(s) ==>
            && 0 <= s.core.njobs <= QUEUED_JOBS
            && s.core.nworking == s.core.njobs + Count(s.workers, Running(0))
            && s.committed == multiset(s.core.buf[..s.core.njobs]) + RunningJobs(s.workers) + s.finished)
      && s.finished <= s.committed
      && (Deleted(s) ==> s.committed == s.finished)
  {
    hide Count, RunningJobs;
  }

  /** workbench_join and workbench_delete get past their test only when every job that was
      ever committed has finished, each as often as it was committed. */
  lemma JoinMeansFinished(s: Sys)
    requires Inv(s) && (Enabled(s, JoinPass) || Enabled(s, DeletePass))
    ensures s.committed == s.finished && s.core.njobs == 0
    ensures forall t :: 0 <= t < |s.workers| ==> !s.workers[t].Running?
  {
    hide Count, RunningJobs;
    CountPositive(s.workers, Running(0));
    assert s.core.Queued() == [];
    forall t | 0 <= t < |s.workers| ensures !s.workers[t].Running? {
      assert One(s.workers[t], Running(0)) != 1;
    }
  }

  lemma RunsTwiceCounted(ws: seq<WorkerPc>, t: nat, u: nat, j: nat)
    requires t < u < |ws| && ws[t] == ws[u] == Running(j)
    ensures RunningJobs(ws)[j] >= 2
  {
    hide RunningJobs;
    RunningJobsUpdate(ws, t, Ready);
    RunningJobsUpdate(ws[t := Ready], u, Ready);
    assert multiset{j} <= RunningJobs(ws[t := Ready]) == RunningJobs(ws) - multiset{j};
  }

  /** No two workers run the same job when jobs are committed once. */
  lemma NoJobRunsTwice(s: Sys, t: nat, u: nat)
    requires Inv(s) && t < u < |s.workers| && s.workers[t].Running? && s.workers[u].Running?
    requires forall j :: s.committed[j] <= 1
    ensures s.workers[t].job != s.workers[u].job
  {
    hide Count, RunningJobs;
    CountPositive(s.workers, Running(0));
    assert One(s.workers[t], Running(0)) == 1;
    var j := s.workers[t].job;
    assert RunningJobs(s.workers)[j] <= s.committed[j];
    if s.workers[u].job == j {
      RunsTwiceCounted(s.workers, t, u, j);
    }
  }

  // ---------------------------------------------------------------- progress

  /** Some thread is not asleep in a condition variable whenever work is outstanding. */
  lemma NeverAllAsleep(s: Sys)
    requires Inv(s) && s.core.nworking > 0
    ensures exists t :: 0 <= t < |s.workers| && (s.workers[t].Ready? || s.workers[t].Running?)
  {
    hide Count, RunningJobs;
    CountTotal(s.workers);
    CountPositive(s.workers, Running(0));
    CountPositive(s.workers, Ready);
    if t :| 0 <= t < |s.workers| && One(s.workers[t], Running(0)) == 1 {
      assert s.workers[t].Running?;
    } else {
      var t :| 0 <= t < |s.workers| && One(s.workers[t], Ready) == 1;
      assert s.workers[t].Ready?;
    }
  }

  /** What a worker that is neither asleep nor gone can do next. */
  function WorkerMove(s: Sys, t: nat): Action
    requires t < |s.workers|
  {
    if s.workers[t].Running? then Finish(t)
    else if s.core.njobs > 0 then Take(t)
    else if s.core.njobs == 0 then GoToSleep(t)
    else Exit(t)
  }

  /** What the client can do next when it is awake. */
  function ClientMove(s: Sys, sleeper: int): Action
    requires s.todo != []
  {
    match s.todo[0]
    case Commit(_) => if s.core.njobs == QUEUED_JOBS then CommitWait else CommitStore(sleeper)
    case Join => if s.core.nworking > 0 then JoinWait else JoinPass
    case Delete => if s.core.nworking > 0 then DeleteWait else DeletePass
    case Reap => ReapPass
  }

  /** No deadlock: while the client has calls left or jobs are outstanding, some thread can
      move without a spurious wake-up. */
  lemma NoDeadlock(s: Sys) returns (a: Action)
    requires Inv(s) && (s.todo != [] || s.core.nworking > 0)
    ensures Enabled(s, a) && !a.Spurious()
  {
    hide Count, RunningJobs;
    if s.core.nworking > 0 && !s.client.Awake? {
      NeverAllAsleep(s);
      var t :| 0 <= t < |s.workers| && (s.workers[t].Ready? || s.workers[t].Running?);
      a := WorkerMove(s, t);
    } else if s.todo == [] {
      NeverAllAsleep(s);
      var t :| 0 <= t < |s.workers| && (s.workers[t].Ready? || s.workers[t].Running?);
      a := WorkerMove(s, t);
    } else if t :| 0 <= t < |s.workers| && s.todo[0].Reap? && !s.workers[t].Exited? {
      AwakeAfterDelete(s, t);
      a := Exit(t);
    } else {
      var sleeper := -1;
      if t :| 0 <= t < |s.workers| && s.workers[t].Asleep? {
        sleeper := t;
      }
      a := ClientMove(s, sleeper);
    }
  }

  lemma AwakeAfterDelete(s: Sys, t: nat)
    requires Inv(s) && Deleted(s) && t < |s.workers| && !s.workers[t].Exited?
    ensures s.workers[t].Ready?
  {
    hide Count, RunningJobs;
    CountPositive(s.workers, Asleep);
    CountPositive(s.workers, Running(0));
    assert One(s.workers[t], Asleep) != 1;
    assert One(s.workers[t], Running(0)) != 1;
  }

  function CallWeight(s: Sys, c: Call): nat {
    match c
    case Commit(_) => 7
    case Join => 1
    case Delete => 2 + |s.workers|
    case Reap => 1
  }

  function TodoWeight(s: Sys, todo: seq<Call>): nat {
    if todo == [] then 0 else CallWeight(s, todo[0]) + TodoWeight(s, todo[1..])
  }

  /** An upper bound on the steps left, spurious wake-ups apart. */
  function Measure(s: Sys): int {
    TodoWeight(s, s.todo)
    + 5 * (if s.core.njobs > 0 then s.core.njobs else 0)
    + 3 * Count(s.workers, Running(0)) + Count(s.workers, Ready)
    + (if s.client.Awake? then 1 else 0)
  }

  lemma {:induction false} TodoWeightSame(s: Sys, s': Sys, todo: seq<Call>)
    requires |s.workers| == |s'.workers|
    ensures TodoWeight(s, todo) == TodoWeight(s', todo)
  {
    if todo != [] {
      TodoWeightSame(s, s', todo[1..]);
    }
  }

  lemma WorkerStepWeights(s: Sys, t: nat, pc: WorkerPc)
    requires t < |s.workers|
    ensures var ws := s.workers[t := pc];
      && Count(ws, Ready) == Count(s.workers, Ready) - One(s.workers[t], Ready) + One(pc, Ready)
      && Count(ws, Running(0)) == Count(s.workers, Running(0)) - One(s.workers[t], Running(0)) + One(pc, Running(0))
      && TodoWeight(s.(workers := ws), s.todo) == TodoWeight(s, s.todo)
  {
    hide Count;
    CountUpdate(s.workers, t, pc, Ready);
    CountUpdate(s.workers, t, pc, Running(0));
    TodoWeightSame(s, s.(workers := s.workers[t := pc]), s.todo);
  }

  lemma WorkerStepDecreases(s: Sys, a: Action)
    requires Inv(s) && Enabled(s, a) && (a.Take? || a.GoToSleep? || a.Exit? || a.Finish?)
    ensures 0 <= Measure(Apply(s, a)) < Measure(s)
  {
    hide Count, RunningJobs, JobsAccounted;
    var s' := Apply(s, a);
    WorkerStepWeights(s, a.t, s'.workers[a.t]);
    TodoWeightSame(s.(workers := s'.workers), s', s.todo);
  }

  lemma CommitStoreDecreases(s: Sys, w: int)
    requires Inv(s) && Enabled(s, CommitStore(w))
    ensures 0 <= s.core.njobs < QUEUED_JOBS
    ensures 0 <= Measure(Apply(s, CommitStore(w))) < Measure(s)
  {
    hide Count, RunningJobs, JobsAccounted;
    var s' := Apply(s, CommitStore(w));
    TodoWeightSame(s, s', s.todo[1..]);
    if w >= 0 {
      CountUpdate(s.workers, w, Ready, Ready);
      CountUpdate(s.workers, w, Ready, Running(0));
    }
  }

  lemma DeletePassDecreases(s: Sys)
    requires Inv(s) && Enabled(s, DeletePass)
    ensures 0 <= Measure(Apply(s, DeletePass)) < Measure(s)
  {
    hide Count, RunningJobs, JobsAccounted;
    var s' := Apply(s, DeletePass);
    DeletePassKeepsInv(s);
    assert s'.todo == [Reap] && s'.todo[1..] == [];
    assert TodoWeight(s', s'.todo) == 1;
    CountTotal(s'.workers);
  }

  lemma ClientStepDecreases(s: Sys, a: Action)
    requires Enabled(s, a) && |s.core.buf| == QUEUED_JOBS && s.core.njobs <= QUEUED_JOBS
    requires Committing(s) ==> s.core.njobs >= 0
    requires a.CommitWait? || a.JoinPass? || a.JoinWait? || a.DeleteWait? || a.ReapPass?
    ensures 0 <= Measure(Apply(s, a)) < Measure(s)
  {
    hide Count;
    var s' := Apply(s, a);
    TodoWeightSame(s, s', s.todo);
    TodoWeightSame(s, s', s.todo[1..]);
  }

  /** Every step that is not a spurious wake-up brings the run closer to its end. */
  lemma StepDecreasesMeasure(s: Sys, a: Action)
    requires Inv(s) && Enabled(s, a) && !a.Spurious()
    ensures |s.core.buf| == QUEUED_JOBS && s.core.njobs <= QUEUED_JOBS
    ensures Committing(s) ==> s.core.njobs >= 0
    ensures 0 <= Measure(Apply(s, a)) < Measure(s)
  {
    hide Count, RunningJobs, Measure, JobsAccounted;
    match a
    case CommitStore(w) => CommitStoreDecreases(s, w);
    case DeletePass => DeletePassDecreases(s);
    case Take(_) => WorkerStepDecreases(s, a);
    case GoToSleep(_) => WorkerStepDecreases(s, a);
    case Exit(_) => WorkerStepDecreases(s, a);
    case Finish(_) => WorkerStepDecreases(s, a);
    case _ => ClientStepDecreases(s, a);
  }

  /** A spurious wake-up costs one step. */
  lemma SpuriousMeasure(s: Sys, a: Action)
    requires Inv(s) && Enabled(s, a) && a.Spurious()
    ensures Measure(Apply(s, a)) <= Measure(s) + 1
  {
    hide Count, RunningJobs, JobsAccounted;
    var s' := Apply(s, a);
    if a.WakeWorker? {
      WorkerStepWeights(s, a.t, Ready);
    } else {
      TodoWeightSame(s, s', s.todo);
    }
  }

  /** How many steps of a run are spurious wake-ups. */
  function SpuriousSteps(acts: seq<Action>): (n: nat)
    ensures n <= |acts|
  {
    if acts == [] then 0 else (if acts[0].Spurious() then 1 else 0) + SpuriousSteps(acts[1..])
  }

  /** Every run has an explicit bound: its steps, those that are spurious wake-ups counted on
      the other side. Without them it is finite. */
  lemma {:induction false} RunsAreBounded(s: Sys, acts: seq<Action>)
    requires Inv(s) && IsRun(s, acts)
    ensures Measure(After(s, acts)) + (|acts| - SpuriousSteps(acts)) <= Measure(s) + SpuriousSteps(acts)
    decreases |acts|
  {
    hide Count, RunningJobs, Measure, Apply, Enabled;
    if acts != [] {
      StepKeepsInv(s, acts[0]);
      if acts[0].Spurious() {
        SpuriousMeasure(s, acts[0]);
      } else {
        StepDecreasesMeasure(s, acts[0]);
      }
      RunsAreBounded(Apply(s, acts[0]), acts[1..]);
    }
  }

  /** A run that cannot be continued has served the whole program: every job has finished and,
      when the program deletes the workbench, every worker has exited. */
  lemma StuckMeansServed(s: Sys)
    requires Inv(s) && forall a: Action :: !a.Spurious() ==> !Enabled(s, a)
    ensures s.todo == [] && s.committed == s.finished
    ensures Deleted(s) ==> forall t :: 0 <= t < |s.workers| ==> s.workers[t].Exited?
  {
    hide Count, RunningJobs;
    if s.todo != [] || s.core.nworking > 0 {
      var a := NoDeadlock(s);
      assert false;
    }
    if !Deleted(s) {
      CountPositive(s.workers, Running(0));
      assert s.core.Queued() == [];
    }
    forall t | Deleted(s) && 0 <= t < |s.workers| ensures s.workers[t].Exited? {
      assert !Enabled(s, Exit(t));
      if !s.workers[t].Exited? {
        AwakeAfterDelete(s, t);
      }
    }
  }
}
