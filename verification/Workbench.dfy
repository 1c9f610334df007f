// The job queue of src/utils/workbench.c: its critical sections as an imperative class, and the
// lock and condition-variable protocol as a step system over all interleavings of one client
// thread and any number of worker threads.

module Workbench {

  const QUEUED_JOBS: nat := 32

  /** The fields every thread reads and writes under the lock. */
  datatype Core = Core(njobs: int, nworking: int, buf: seq<nat>) {
    predicate Queueing() {
      |buf| == QUEUED_JOBS && 0 <= njobs <= QUEUED_JOBS
    }

    function Queued(): seq<nat>
      requires Queueing()
    {
      buf[..njobs]
    }
  }

  /** workbench_commit when the queue has room. */
  function Pushed(c: Core, job: nat): (r: Core)
    requires c.Queueing() && c.njobs < QUEUED_JOBS
    ensures r.Queueing() && r.Queued() == c.Queued() + [job]
  {
    Core(c.njobs + 1, c.nworking + 1, c.buf[c.njobs := job])
  }

  /** _worker_fn taking the job committed last. */
  function Popped(c: Core): (r: Core)
    requires c.Queueing() && c.njobs > 0
    ensures r.Queueing() && r.Queued() + [c.buf[c.njobs - 1]] == c.Queued()
  {
    Core(c.njobs - 1, c.nworking, c.buf)
  }

  datatype TakeResult = Wait | Quit | Job(arg: nat)

  /** The object and the code between pthread_mutex_lock and either pthread_cond_wait or
      pthread_mutex_unlock. A result telling to wait means the caller sleeps and tests again. */
  class Bench {
    var njobs: int
    var nworking: int
    const jobBuf: array<nat>

    ghost predicate Valid()
      reads this
    {
      jobBuf.Length == QUEUED_JOBS && njobs <= QUEUED_JOBS
    }

    ghost function View(): Core
      reads this, jobBuf
    {
      Core(njobs, nworking, jobBuf[..])
    }

    constructor ()
      ensures Valid() && fresh(jobBuf) && njobs == 0 && nworking == 0
    {
      njobs, nworking := 0, 0;
      jobBuf := new nat[QUEUED_JOBS];
    }

    /** workbench_commit */
    method CommitSection(arg: nat) returns (stored: bool)
      requires Valid() && njobs >= 0
      modifies this, jobBuf
      ensures Valid()
      ensures stored <==> old(njobs) != QUEUED_JOBS
      ensures View() == if stored then Pushed(old(View()), arg) else old(View())
    {
      if njobs == QUEUED_JOBS {
        return false;
      }
      jobBuf[njobs] := arg;
      njobs := njobs + 1;
      nworking := nworking + 1;
      return true;
    }

    /** The first critical section of _worker_fn. */
    method TakeSection() returns (r: TakeResult)
      requires Valid()
      modifies this
      ensures Valid()
      ensures r.Wait? <==> old(njobs) == 0
      ensures r.Quit? <==> old(njobs) < 0
      ensures r.Job? ==> r.arg == old(View()).buf[old(njobs) - 1] && View() == Popped(old(View()))
      ensures !r.Job? ==> View() == old(View())
    {
      if njobs == 0 {
        return Wait;
      }
      if njobs < 0 {
        return Quit;
      }
      r := Job(jobBuf[njobs - 1]);
      njobs := njobs - 1;
    }

    /** The second critical section of _worker_fn. */
    method FinishSection()
      requires Valid()
      modifies this
      ensures Valid()
      ensures View() == old(View()).(nworking := old(nworking) - 1)
    {
      nworking := nworking - 1;
    }

    /** The second half of workbench_delete's critical section. */
    method DeleteSection()
      requires Valid()
      modifies this
      ensures Valid()
      ensures View() == old(View()).(njobs := -1)
    {
      njobs := -1;
    }
  }

  // ---------------------------------------------------------------- threads

  datatype WorkerPc = Ready | Asleep | Running(job: nat) | Exited

  datatype ClientPc = Awake | OnNotFull | OnNotWorking

  /** The client's calls; Reap is the pthread_join loop at the end of workbench_delete. */
  datatype Call = Commit(job: nat) | Join | Delete | Reap

  /** A state of the whole protocol. committed and finished record history. */
  datatype Sys = Sys(
    core: Core, workers: seq<WorkerPc>, client: ClientPc, todo: seq<Call>,
    committed: multiset<nat>, finished: multiset<nat>)

  datatype Action =
    | CommitStore(woken: int)
    | CommitWait
    | JoinPass
    | JoinWait
    | DeletePass
    | DeleteWait
    | ReapPass
    | Take(t: nat)
    | GoToSleep(t: nat)
    | Exit(t: nat)
    | Finish(t: nat)
    | WakeWorker(t: nat)
    | WakeClient
  {
    /** A return from pthread_cond_wait that nobody signalled. */
    predicate Spurious() {
      WakeWorker? || WakeClient?
    }
  }

  predicate Calling(s: Sys, c: Call) {
    s.todo != [] && s.client.Awake? && s.todo[0] == c
  }

  predicate Committing(s: Sys) {
    s.todo != [] && s.client.Awake? && s.todo[0].Commit?
  }

  /** pthread_cond_signal(&notempty) wakes one sleeper if there is one. */
  predicate SignalChoice(ws: seq<WorkerPc>, woken: int) {
    if exists t :: 0 <= t < |ws| && ws[t].Asleep?
    then 0 <= woken < |ws| && ws[woken].Asleep?
    else woken == -1
  }

  predicate Enabled(s: Sys, a: Action) {
    match a
    case CommitStore(w) => Committing(s) && s.core.njobs != QUEUED_JOBS && SignalChoice(s.workers, w)
    case CommitWait => Committing(s) && s.core.njobs == QUEUED_JOBS
    case JoinPass => Calling(s, Join) && s.core.nworking <= 0
    case JoinWait => Calling(s, Join) && s.core.nworking > 0
    case DeletePass => Calling(s, Delete) && s.core.nworking <= 0
    case DeleteWait => Calling(s, Delete) && s.core.nworking > 0
    case ReapPass => Calling(s, Reap) && forall t :: 0 <= t < |s.workers| ==> s.workers[t].Exited?
    case Take(t) => t < |s.workers| && s.workers[t].Ready? && s.core.njobs > 0
    case GoToSleep(t) => t < |s.workers| && s.workers[t].Ready? && s.core.njobs == 0
    case Exit(t) => t < |s.workers| && s.workers[t].Ready? && s.core.njobs < 0
    case Finish(t) => t < |s.workers| && s.workers[t].Running?
    case WakeWorker(t) => t < |s.workers| && s.workers[t].Asleep?
    case WakeClient => !s.client.Awake?
  }

  /** pthread_cond_broadcast(&notempty) */
  function AllWoken(ws: seq<WorkerPc>): (r: seq<WorkerPc>)
    ensures |r| == |ws|
    ensures forall t :: 0 <= t < |ws| ==> r[t] == if ws[t].Asleep? then Ready else ws[t]
  {
    seq(|ws|, t requires 0 <= t < |ws| => if ws[t].Asleep? then Ready else ws[t])
  }

  function Apply(s: Sys, a: Action): Sys
    requires Enabled(s, a) && |s.core.buf| == QUEUED_JOBS && s.core.njobs <= QUEUED_JOBS
    requires Committing(s) ==> s.core.njobs >= 0
  {
    match a
    case CommitStore(w) =>
      s.(core := Pushed(s.core, s.todo[0].job),
         committed := s.committed + multiset{s.todo[0].job},
         todo := s.todo[1..],
         workers := if w >= 0 then s.workers[w := Ready] else s.workers)
    case CommitWait => s.(client := OnNotFull)
    case JoinPass => s.(todo := s.todo[1..])
    case JoinWait => s.(client := OnNotWorking)
    case DeletePass =>
      s.(core := s.core.(njobs := -1), workers := AllWoken(s.workers), todo := [Reap] + s.todo[1..])
    case DeleteWait => s.(client := OnNotWorking)
    case ReapPass => s.(todo := s.todo[1..])
    case Take(t) =>
      s.(core := Popped(s.core),
         workers := s.workers[t := Running(s.core.buf[s.core.njobs - 1])],
         client := if s.client.OnNotFull? then Awake else s.client)
    case GoToSleep(t) => s.(workers := s.workers[t := Asleep])
    case Exit(t) => s.(workers := s.workers[t := Exited])
    case Finish(t) =>
      s.(core := s.core.(nworking := s.core.nworking - 1),
         workers := s.workers[t := Ready],
         finished := s.finished + multiset{s.workers[t].job},
         client := if s.client.OnNotWorking? then Awake else s.client)
    case WakeWorker(t) => s.(workers := s.workers[t := Ready])
    case WakeClient => s.(client := Awake)
  }

  // ---------------------------------------------------------------- counting threads

  function One(pc: WorkerPc, kind: WorkerPc): nat {
    match kind
    case Ready => if pc.Ready? then 1 else 0
    case Asleep => if pc.Asleep? then 1 else 0
    case Running(_) => if pc.Running? then 1 else 0
    case Exited => if pc.Exited? then 1 else 0
  }

  /** How many workers are in the same kind of place as `kind`. */
  function Count(ws: seq<WorkerPc>, kind: WorkerPc): nat {
    if ws == [] then 0 else Count(ws[..|ws| - 1], kind) + One(ws[|ws| - 1], kind)
  }

  function JobOf(pc: WorkerPc): multiset<nat> {
    if pc.Running? then multiset{pc.job} else multiset{}
  }

  /** The jobs workers are executing. */
  function RunningJobs(ws: seq<WorkerPc>): multiset<nat> {
    if ws == [] then multiset{} else RunningJobs(ws[..|ws| - 1]) + JobOf(ws[|ws| - 1])
  }

  lemma {:induction false} CountUpdate(ws: seq<WorkerPc>, t: nat, pc: WorkerPc, kind: WorkerPc)
    requires t < |ws|
    ensures Count(ws[t := pc], kind) == Count(ws, kind) - One(ws[t], kind) + One(pc, kind)
    ensures Count(ws, kind) >= One(ws[t], kind)
  {
    var n := |ws| - 1;
    if t == n {
      assert ws[t := pc][..n] == ws[..n];
    } else {
      assert ws[t := pc][..n] == ws[..n][t := pc];
      CountUpdate(ws[..n], t, pc, kind);
    }
  }

  lemma Reordered(a: multiset<nat>, o: multiset<nat>, p: multiset<nat>, l: multiset<nat>)
    requires o <= a
    ensures (a - o + p) + l == (a + l) - o + p
  {
  }

  lemma {:induction false} RunningJobsUpdate(ws: seq<WorkerPc>, t: nat, pc: WorkerPc)
    requires t < |ws|
    ensures JobOf(ws[t]) <= RunningJobs(ws)
    ensures RunningJobs(ws[t := pc]) == RunningJobs(ws) - JobOf(ws[t]) + JobOf(pc)
  {
    hide JobOf;
    var n := |ws| - 1;
    if t == n {
      assert ws[t := pc][..n] == ws[..n];
    } else {
      assert ws[t := pc][..n] == ws[..n][t := pc];
      RunningJobsUpdate(ws[..n], t, pc);
      Reordered(RunningJobs(ws[..n]), JobOf(ws[t]), JobOf(pc), JobOf(ws[n]));
    }
  }

  lemma CountPositive(ws: seq<WorkerPc>, kind: WorkerPc)
    ensures Count(ws, kind) > 0 <==> exists t :: 0 <= t < |ws| && One(ws[t], kind) == 1
    ensures RunningJobs(ws) == multiset{} <==> Count(ws, Running(0)) == 0
  {
    hide Count, RunningJobs, One;
    if Count(ws, kind) > 0 {
      var t := SomeCounted(ws, kind);
    }
    if t :| 0 <= t < |ws| && One(ws[t], kind) == 1 {
      CountUpdate(ws, t, ws[t], kind);
    }
    RunningCounted(ws);
  }

  lemma {:induction false} SomeCounted(ws: seq<WorkerPc>, kind: WorkerPc) returns (t: nat)
    requires Count(ws, kind) > 0
    ensures t < |ws| && One(ws[t], kind) == 1
  {
    t := |ws| - 1;
    if One(ws[t], kind) != 1 {
      t := SomeCounted(ws[..t], kind);
    }
  }

  lemma {:induction false} RunningCounted(ws: seq<WorkerPc>)
    ensures RunningJobs(ws) == multiset{} <==> Count(ws, Running(0)) == 0
  {
    if ws != [] {
      RunningCounted(ws[..|ws| - 1]);
    }
  }

  lemma {:induction false} CountTotal(ws: seq<WorkerPc>)
    ensures Count(ws, Ready) + Count(ws, Asleep) + Count(ws, Running(0)) + Count(ws, Exited) == |ws|
  {
    if ws != [] {
      CountTotal(ws[..|ws| - 1]);
    }
  }
}
