/** `Scheduler::run` for any number of workers, interleaved at lock steps, with one-shot callbacks. */
module WorkerPool {

  const ANY := -1

  /** `SchedulerTask`: the callback's number in submission order, and the thread it is pinned to. */
  datatype Job = Job(id: nat, thread: int)

  /** Where a worker stands in `run`. */
  datatype Pc =
    | Outside                 // run not entered yet
    | Scan                    // about to lock and look for a task
    | Exec(job: Job)          // resuming the callback's fiber
    | Counting                // the callback is over, its count not yet taken back
    | Decide                  // no task found, about to look at the idle fiber
    | IdleCheck               // inside the idle fiber, about to call stopping()
    | IdleBack                // the idle fiber yielded or ended, its count not yet taken back
    | Left                    // broke out of the loop

  /** `term`: the worker's idle fiber has ended. */
  datatype Worker = Worker(tid: int, pc: Pc, term: bool)

  datatype Run = Run(job: Job, tid: int)

  /** `submitted[i]` is the pin of job i; `done` lists the finished jobs with the thread each ran on. */
  datatype Pool = Pool(queue: seq<Job>, stopping: bool, active: int, idle: int, workers: seq<Worker>,
                       submitted: seq<int>, done: seq<Run>)

  // ---------- the locked sections ----------

  predicate Eligible(j: Job, tid: int) { j.thread == ANY || j.thread == tid }

  /** `k` is the first task thread `tid` may run, or the queue's length if there is none. */
  predicate IsFirst(queue: seq<Job>, tid: int, k: int) {
    && 0 <= k <= |queue| && (forall i :: 0 <= i < k ==> !Eligible(queue[i], tid))
    && (k < |queue| ==> Eligible(queue[k], tid))
  }

  function First(queue: seq<Job>, tid: int): (k: nat)
    ensures IsFirst(queue, tid, k)
  {
    if queue == [] || Eligible(queue[0], tid) then 0
    else
      var k := First(queue[1..], tid);
      assert forall i :: 1 <= i <= k ==> queue[i] == queue[1..][i - 1];
      1 + k
  }

  function Removed(queue: seq<Job>, k: nat): seq<Job>
    requires k < |queue|
  {
    queue[..k] + queue[k + 1..]
  }

  predicate Quiet(p: Pool) { p.stopping && p.queue == [] && p.active == 0 }

  /** The scheduler's shared fields, each method one locked section. */
  class Scheduler {
    var queue: seq<Job>      // m_fibers
    var active: int          // m_activeThreadCount

    /** The scan of `run`: the first task this thread may take leaves the queue, the others keep their order.
        Other workers are woken exactly when something is left in the queue. */
    method FetchTask(tid: int) returns (found: bool, task: Job, tickleMe: bool)
      modifies this`queue, this`active
      ensures found == (First(old(queue), tid) < |old(queue)|)
      ensures found ==> task == old(queue)[First(old(queue), tid)] && Eligible(task, tid)
      ensures found ==> queue == Removed(old(queue), First(old(queue), tid)) && active == old(active) + 1
      ensures !found ==> queue == old(queue) && active == old(active)
      ensures tickleMe <==> queue != []
    {
      found, task, tickleMe := false, Job(0, ANY), false;
      var it := 0;
      ghost var k := First(queue, tid);
      while it < |queue|
        invariant 0 <= it <= |queue| && !found && it <= k
        invariant queue == old(queue) && active == old(active)
        invariant tickleMe <==> it > 0
      {
        if queue[it].thread != -1 && queue[it].thread != tid {
          it := it + 1;
          tickleMe := true;
          continue;
        }
        found, task := true, queue[it];
        queue := queue[..it] + queue[it + 1..];
        active := active + 1;
        break;
      }
      tickleMe := tickleMe || it != |queue|;
    }
  }

  // ---------- steps ----------

  datatype Step =
    | Enter(w: nat)
    | Fetch(w: nat)
    | SubmitFrom(w: nat, thread: int)    // an executing callback calls scheduler()
    | SubmitOutside(thread: int)         // any other thread calls scheduler()
    | Finish(w: nat)
    | CountDown(w: nat)
    | Resolve(w: nat)                    // leave if the idle fiber ended, else resume it
    | Check(w: nat)                      // stopping(), inside the idle fiber
    | IdleDown(w: nat)
    | Stop                               // m_stopping = true

  /** Outsiders may submit at any time before stopping() holds, also between stop() and that moment. */
  predicate Enabled(p: Pool, a: Step) {
    match a
    case Stop => true
    case SubmitOutside(_) => !Quiet(p)
    case _ =>
      a.w < |p.workers| &&
      var pc := p.workers[a.w].pc;
      match a
      case Enter(_) => pc.Outside?
      case Fetch(_) => pc.Scan?
      case SubmitFrom(_, _) => pc.Exec?
      case Finish(_) => pc.Exec?
      case CountDown(_) => pc.Counting?
      case Resolve(_) => pc.Decide?
      case Check(_) => pc.IdleCheck?
      case IdleDown(_) => pc.IdleBack?
  }

  function At(p: Pool, w: nat, pc: Pc): Pool
    requires w < |p.workers|
  {
    p.(workers := p.workers[w := p.workers[w].(pc := pc)])
  }

  function Submitted(p: Pool, thread: int): Pool {
    p.(queue := p.queue + [Job(|p.submitted|, thread)], submitted := p.submitted + [thread])
  }

  function Next(p: Pool, a: Step): Pool
    requires Enabled(p, a)
  {
    match a
    case Enter(w) => At(p, w, Scan)
    case Fetch(w) =>
      var k := First(p.queue, p.workers[w].tid);
      if k == |p.queue| then At(p, w, Decide)
      else At(p, w, Exec(p.queue[k])).(queue := Removed(p.queue, k), active := p.active + 1)
    case SubmitFrom(_, thread) => Submitted(p, thread)
    case SubmitOutside(thread) => Submitted(p, thread)
    case Finish(w) => At(p, w, Counting).(done := p.done + [Run(p.workers[w].pc.job, p.workers[w].tid)])
    case CountDown(w) => At(p, w, Scan).(active := p.active - 1)
    case Resolve(w) => if p.workers[w].term then At(p, w, Left) else At(p, w, IdleCheck).(idle := p.idle + 1)
    case Check(w) => p.(workers := p.workers[w := p.workers[w].(pc := IdleBack, term := Quiet(p))])
    case IdleDown(w) => At(p, w, Scan).(idle := p.idle - 1)
    case Stop => p.(stopping := true)
  }

  // ---------- counting ----------

  function Sum(ws: seq<Worker>, f: Worker -> nat): nat {
    if ws == [] then 0 else Sum(ws[..|ws| - 1], f) + f(ws[|ws| - 1])
  }

  lemma {:induction false} SumUpdate(ws: seq<Worker>, f: Worker -> nat, i: nat, w: Worker)
    requires i < |ws|
    ensures Sum(ws[i := w], f) == Sum(ws, f) - f(ws[i]) + f(w)
  {
    var n := |ws| - 1;
    if i == n {
      assert ws[i := w][..n] == ws[..n];
    } else {
      assert ws[i := w][..n] == ws[..n][i := w];
      SumUpdate(ws[..n], f, i, w);
    }
  }

  lemma {:induction false} SumCovers(ws: seq<Worker>, f: Worker -> nat, i: nat)
    requires i < |ws|
    ensures Sum(ws, f) >= f(ws[i])
  {
    if i < |ws| - 1 { SumCovers(ws[..|ws| - 1], f, i); }
  }

  lemma {:induction false} SumZero(ws: seq<Worker>, f: Worker -> nat)
    requires forall i :: 0 <= i < |ws| ==> f(ws[i]) == 0
    ensures Sum(ws, f) == 0
  {
    if ws != [] { SumZero(ws[..|ws| - 1], f); }
  }

  function Active(w: Worker): nat { if w.pc.Exec? || w.pc.Counting? then 1 else 0 }
  function Idling(w: Worker): nat { if w.pc.IdleCheck? || w.pc.IdleBack? then 1 else 0 }
  function Runs(w: Worker, j: Job): nat { if w.pc == Exec(j) then 1 else 0 }

  function Executing(p: Pool, j: Job): nat { Sum(p.workers, (w: Worker) => Runs(w, j)) }

  /** How often `j` is in the log of finished jobs. */
  function Finished(done: seq<Run>, j: Job): nat {
    if done == [] then 0 else Finished(done[..|done| - 1], j) + if done[|done| - 1].job == j then 1 else 0
  }

  predicate Known(p: Pool, j: Job) { j.id < |p.submitted| && p.submitted[j.id] == j.thread }

  function Total(p: Pool, j: Job): nat { multiset(p.queue)[j] + Executing(p, j) + Finished(p.done, j) }

  // ---------- invariant ----------

  /** What holds of each worker: a pinned job is on its thread, and only after stopping() held does an idle fiber end.
      */
  predicate WorkerOk(p: Pool, w: Worker) {
    && (w.pc.Exec? ==> Eligible(w.pc.job, w.tid))
    && (w.pc.Left? ==> w.term)
    && (w.term ==> Quiet(p))
  }

  ghost predicate Inv(p: Pool) {
    && p.active == Sum(p.workers, Active) && p.idle == Sum(p.workers, Idling)
    && (forall j :: Total(p, j) == if Known(p, j) then 1 else 0)
    && (forall i :: 0 <= i < |p.workers| ==> WorkerOk(p, p.workers[i]))
    && (forall i :: 0 <= i < |p.done| ==> Eligible(p.done[i].job, p.done[i].tid))
  }

  lemma RemovedCount(queue: seq<Job>, k: nat, j: Job)
    requires k < |queue|
    ensures multiset(Removed(queue, k))[j] == multiset(queue)[j] - if queue[k] == j then 1 else 0
  {
    assert queue == queue[..k] + [queue[k]] + queue[k + 1..];
  }

  /** No step loses, invents or repeats a job: only a submission adds one, and it is new. */
  lemma TotalStep(p: Pool, a: Step, j: Job)
    requires Enabled(p, a)
    ensures var new_ := (a.SubmitFrom? || a.SubmitOutside?) && j == Job(|p.submitted|, a.thread);
      Total(Next(p, a), j) == Total(p, j) + if new_ then 1 else 0
  {
    hide Sum, Removed, First;
    if !a.Stop? && !a.SubmitOutside? && !a.SubmitFrom? { MoveExecuting(p, a.w, Next(p, a).workers[a.w], j); }
    if a.Fetch? && First(p.queue, p.workers[a.w].tid) < |p.queue| {
      RemovedCount(p.queue, First(p.queue, p.workers[a.w].tid), j);
    }
  }

  lemma MoveExecuting(p: Pool, w: nat, worker: Worker, j: Job)
    requires w < |p.workers|
    ensures Executing(p.(workers := p.workers[w := worker]), j)
         == Executing(p, j) - Runs(p.workers[w], j) + Runs(worker, j)
  {
    SumUpdate(p.workers, (w: Worker) => Runs(w, j), w, worker);
  }

  lemma CountersStep(p: Pool, a: Step)
    requires Enabled(p, a) && p.active == Sum(p.workers, Active) && p.idle == Sum(p.workers, Idling)
    ensures Next(p, a).active == Sum(Next(p, a).workers, Active) && Next(p, a).idle == Sum(Next(p, a).workers, Idling)
  {
    if !a.Stop? && !a.SubmitOutside? && !a.SubmitFrom? {
      SumUpdate(p.workers, Active, a.w, Next(p, a).workers[a.w]);
      SumUpdate(p.workers, Idling, a.w, Next(p, a).workers[a.w]);
    }
  }

  /** stopping() once true stays true: nothing is queued, nobody executes, so nobody can submit. */
  lemma QuietStays(p: Pool, a: Step)
    requires Inv(p) && Enabled(p, a) && Quiet(p)
    ensures Quiet(Next(p, a))
  {
    if !a.Stop? && !a.SubmitOutside? { SumCovers(p.workers, Active, a.w); }
  }

  lemma WorkersStep(p: Pool, a: Step, i: nat)
    requires Enabled(p, a) && i < |p.workers| && WorkerOk(p, p.workers[i]) && (Quiet(p) ==> Quiet(Next(p, a)))
    ensures i < |Next(p, a).workers| == |p.workers| && WorkerOk(Next(p, a), Next(p, a).workers[i])
  {
    hide First, Removed;
  }

  lemma DoneStep(p: Pool, a: Step)
    requires Enabled(p, a) && (forall i :: 0 <= i < |p.workers| ==> WorkerOk(p, p.workers[i]))
    requires forall i :: 0 <= i < |p.done| ==> Eligible(p.done[i].job, p.done[i].tid)
    ensures var p' := Next(p, a);
      |p'.workers| == |p.workers| && forall i :: 0 <= i < |p'.done| ==> Eligible(p'.done[i].job, p'.done[i].tid)
  {
    hide First, Removed, Eligible;
    if a.Finish? { assert WorkerOk(p, p.workers[a.w]); }
  }

  lemma KnownStep(p: Pool, a: Step, j: Job)
    requires Enabled(p, a)
    ensures var new_ := (a.SubmitFrom? || a.SubmitOutside?) && j == Job(|p.submitted|, a.thread);
      (Known(p, j) ==> Known(Next(p, a), j)) && (Known(Next(p, a), j) <==> Known(p, j) || new_)
      && !(Known(p, j) && new_)
  {
    hide First, Removed;
  }

  lemma StepInv(p: Pool, a: Step)
    requires Inv(p) && Enabled(p, a)
    ensures Inv(Next(p, a))
  {
    CountersStep(p, a);
    DoneStep(p, a);
    if Quiet(p) { QuietStays(p, a); }
    hide Sum, Total, Next, Enabled, WorkerOk, Known, Eligible, Quiet;
    var p' := Next(p, a);
    forall j ensures Total(p', j) == if Known(p', j) then 1 else 0 {
      TotalStep(p, a, j);
      KnownStep(p, a, j);
    }
    forall i | 0 <= i < |p'.workers| ensures WorkerOk(p', p'.workers[i]) { WorkersStep(p, a, i); }
  }

  // ---------- every run ----------

  /** Nothing submitted yet, every worker still outside `run`. */
  predicate Start(p: Pool) {
    && p.queue == [] && !p.stopping && p.active == 0 && p.idle == 0 && p.submitted == [] && p.done == []
    && (forall i :: 0 <= i < |p.workers| ==> p.workers[i].pc.Outside? && !p.workers[i].term)
  }

  ghost predicate IsRun(states: seq<Pool>, steps: seq<Step>) {
    && |states| == |steps| + 1 && Start(states[0])
    && forall i :: 0 <= i < |steps| ==> Enabled(states[i], steps[i]) && states[i + 1] == Next(states[i], steps[i])
  }

  lemma StartInv(p: Pool)
    requires Start(p)
    ensures Inv(p)
  {
    SumZero(p.workers, Active);
    SumZero(p.workers, Idling);
    forall j ensures Total(p, j) == 0 { SumZero(p.workers, (w: Worker) => Runs(w, j)); }
  }

  lemma {:induction false} RunInv(states: seq<Pool>, steps: seq<Step>)
    requires IsRun(states, steps)
    ensures Inv(states[|steps|])
  {
    hide Inv, Next, Enabled;
    if steps == [] {
      StartInv(states[0]);
    } else {
      var n := |steps| - 1;
      assert IsRun(states[..n + 1], steps[..n]);
      RunInv(states[..n + 1], steps[..n]);
      StepInv(states[n], steps[n]);
    }
  }

  /** In every reachable state each submitted job is queued, executing or done, exactly once over all three; whatever
      runs or ran did so on a thread its pin allows; and the two counters count the workers they are named after. */
  lemma JobsConserved(states: seq<Pool>, steps: seq<Step>, id: nat)
    requires IsRun(states, steps)
    ensures var p := states[|steps|];
      && p.active == Sum(p.workers, Active) && p.idle == Sum(p.workers, Idling)
      && (id < |p.submitted| ==> Total(p, Job(id, p.submitted[id])) == 1)
      && (forall i :: 0 <= i < |p.workers| && p.workers[i].pc.Exec? ==> Eligible(p.workers[i].pc.job, p.workers[i].tid))
      && (forall i :: 0 <= i < |p.done| ==> Eligible(p.done[i].job, p.done[i].tid))
  {
    hide Next, Enabled, Total, Sum;
    RunInv(states, steps);
    var p := states[|steps|];
    forall i | 0 <= i < |p.workers| && p.workers[i].pc.Exec?
      ensures Eligible(p.workers[i].pc.job, p.workers[i].tid)
    {
      assert WorkerOk(p, p.workers[i]);
    }
  }

  lemma {:induction false} QuietSettled(p: Pool, j: Job)
    requires Inv(p) && Quiet(p)
    ensures Executing(p, j) == 0 && multiset(p.queue)[j] == 0
  {
    forall i | 0 <= i < |p.workers| ensures Runs(p.workers[i], j) == 0 { SumCovers(p.workers, Active, i); }
    SumZero(p.workers, (w: Worker) => Runs(w, j));
  }

  /** As soon as one worker has left `run`, hence also when stop() has joined them all, every submitted job has run
      exactly once, on a thread its pin allows, and no job is queued or executing. */
  lemma StopLosesNothing(states: seq<Pool>, steps: seq<Step>, w: nat, id: nat)
    requires IsRun(states, steps) && w < |states[|steps|].workers| && states[|steps|].workers[w].pc.Left?
    ensures var p := states[|steps|];
      && p.queue == [] && (forall i :: 0 <= i < |p.workers| ==> !p.workers[i].pc.Exec?)
      && (id < |p.submitted| ==> Finished(p.done, Job(id, p.submitted[id])) == 1)
      && (forall i :: 0 <= i < |p.done| ==> Known(p, p.done[i].job) && Eligible(p.done[i].job, p.done[i].tid))
  {
    hide Next, Enabled, Sum;
    RunInv(states, steps);
    var p := states[|steps|];
    assert WorkerOk(p, p.workers[w]);
    if id < |p.submitted| {
      QuietSettled(p, Job(id, p.submitted[id]));
      assert Total(p, Job(id, p.submitted[id])) == 1;
    }
    forall i | 0 <= i < |p.workers| ensures !p.workers[i].pc.Exec? { SumCovers(p.workers, Active, i); }
    forall i | 0 <= i < |p.done| ensures Known(p, p.done[i].job) {
      FinishedCovers(p.done, i);
      assert Total(p, p.done[i].job) >= 1;
    }
  }

  lemma {:induction false} FinishedCovers(done: seq<Run>, i: nat)
    requires i < |done|
    ensures Finished(done, done[i].job) >= 1
  {
    if i < |done| - 1 { FinishedCovers(done[..|done| - 1], i); }
  }

  // ---------- first come, first served ----------

  /** The queue is in the order of submission, and of two jobs with the same pin the later is not taken before the
      earlier. */
  ghost predicate InOrder(p: Pool) {
    && (forall i :: 0 <= i < |p.queue| ==> p.queue[i].id < |p.submitted|)
    && (forall i, j :: 0 <= i < j < |p.queue| ==> p.queue[i].id < p.queue[j].id)
    && (forall a: nat, b: nat, t: int | a < b < |p.submitted| && p.submitted[a] == p.submitted[b] == t ::
          Job(a, t) in p.queue ==> Job(b, t) in p.queue)
  }

  lemma SubmittedInOrder(p: Pool, thread: int)
    requires InOrder(p)
    ensures InOrder(Submitted(p, thread))
  {
    var p', last := Submitted(p, thread), Job(|p.submitted|, thread);
    assert p'.queue[|p.queue|] == last;
    forall a: nat, b: nat, t: int
      | a < b < |p'.submitted| && p'.submitted[a] == p'.submitted[b] == t && Job(a, t) in p'.queue
      ensures Job(b, t) in p'.queue
    {
      if b < |p.submitted| { assert Job(a, t) in p.queue; }
    }
  }

  /** Among the queued jobs a thread may run, its scan takes the one submitted first. */
  lemma FirstIsEarliest(p: Pool, tid: int, j: Job)
    requires InOrder(p) && j in p.queue && Eligible(j, tid)
    ensures First(p.queue, tid) < |p.queue| && p.queue[First(p.queue, tid)].id <= j.id
  {
    FirstExists(p.queue, tid, j);
    var i :| 0 <= i < |p.queue| && p.queue[i] == j;
  }

  lemma RemovedIn(queue: seq<Job>, k: nat, j: Job)
    requires k < |queue|
    ensures j in Removed(queue, k) ==> j in queue
  {
  }

  lemma FetchedInOrder(p: Pool, w: nat)
    requires InOrder(p) && Enabled(p, Fetch(w))
    ensures InOrder(Next(p, Fetch(w)))
  {
    hide First;
    var k := First(p.queue, p.workers[w].tid);
    if k < |p.queue| {
      var q := Removed(p.queue, k);
      assert forall i :: 0 <= i < |q| ==> q[i] == p.queue[if i < k then i else i + 1];
      forall a: nat, b: nat, t: int
        | a < b < |p.submitted| && p.submitted[a] == p.submitted[b] == t && Job(a, t) in q
        ensures Job(b, t) in q
      {
        RemovedIn(p.queue, k, Job(a, t));
        if p.queue[k] == Job(b, t) {
          FirstIsEarliest(p, p.workers[w].tid, Job(a, t));
        } else {
          RemovedKeeps(p.queue, k, Job(b, t));
        }
      }
    }
  }

  lemma {:induction false} RunInOrder(states: seq<Pool>, steps: seq<Step>)
    requires IsRun(states, steps)
    ensures InOrder(states[|steps|])
  {
    if steps != [] {
      var n := |steps| - 1;
      assert IsRun(states[..n + 1], steps[..n]);
      RunInOrder(states[..n + 1], steps[..n]);
      var p, a := states[n], steps[n];
      assert Enabled(p, a) && states[n + 1] == Next(p, a);
      hide IsRun;
      if a.Fetch? {
        FetchedInOrder(p, a.w);
      } else if a.SubmitFrom? || a.SubmitOutside? {
        SubmittedInOrder(p, a.thread);
      }
    }
  }

  /** In every run: of the queued jobs a worker may run, its scan takes the earliest submitted; and while a job is still
      queued, no later one with the same pin is executing or done. */
  lemma EarliestFirst(states: seq<Pool>, steps: seq<Step>, w: nat, a: nat, b: nat)
    requires IsRun(states, steps) && w < |states[|steps|].workers| && a < b < |states[|steps|].submitted|
    ensures var p := states[|steps|]; var tid := p.workers[w].tid;
      && (forall j | j in p.queue && Eligible(j, tid) ::
            First(p.queue, tid) < |p.queue| && p.queue[First(p.queue, tid)].id <= j.id)
      && (var t := p.submitted[a]; p.submitted[b] == t && Job(a, t) in p.queue ==>
            Executing(p, Job(b, t)) == 0 && Finished(p.done, Job(b, t)) == 0)
  {
    RunInOrder(states, steps);
    RunInv(states, steps);
    hide IsRun, First, Executing, Finished;
    var p := states[|steps|];
    forall j | j in p.queue && Eligible(j, p.workers[w].tid)
      ensures First(p.queue, p.workers[w].tid) < |p.queue| && p.queue[First(p.queue, p.workers[w].tid)].id <= j.id
    {
      FirstIsEarliest(p, p.workers[w].tid, j);
    }
    var t := p.submitted[a];
    if p.submitted[b] == t && Job(a, t) in p.queue { assert Job(b, t) in p.queue; }
    assert Total(p, Job(b, t)) <= 1;
  }

  // ---------- submissions that come too late ----------

  /** Any run from `p` on: outsiders may also have submitted after stopping() held. */
  ghost predicate Goes(p: Pool, states: seq<Pool>, steps: seq<Step>) {
    && |states| == |steps| + 1 && states[0] == p
    && forall i :: 0 <= i < |steps| ==> Enabled(states[i], steps[i]) && states[i + 1] == Next(states[i], steps[i])
  }

  /** The worker will look at the queue again: it has not left and is not about to. */
  predicate WillScan(w: Worker) { !w.pc.Left? && !(w.pc.Decide? && w.term) }

  /** Some worker that may run `j` will look at the queue again. */
  predicate Reachable(p: Pool, j: Job) {
    exists w :: 0 <= w < |p.workers| && Eligible(j, p.workers[w].tid) && WillScan(p.workers[w])
  }

  predicate Executed(p: Pool, j: Job) { exists w :: 0 <= w < |p.workers| && p.workers[w].pc == Exec(j) }

  lemma StillUnreachable(p: Pool, a: Step, j: Job)
    requires Enabled(p, a) && !Reachable(p, j) && !Executed(p, j)
    ensures !Reachable(Next(p, a), j) && !Executed(Next(p, a), j)
  {
    hide First, Removed;
    var p' := Next(p, a);
    assert |p'.workers| == |p.workers|;
    forall i | 0 <= i < |p'.workers|
      ensures !(Eligible(j, p'.workers[i].tid) && WillScan(p'.workers[i])) && p'.workers[i].pc != Exec(j)
    {
      assert p'.workers[i].tid == p.workers[i].tid;
      assert !(Eligible(j, p.workers[i].tid) && WillScan(p.workers[i])) && p.workers[i].pc != Exec(j);
    }
  }

  /** Nobody will look: the job is never run. */
  lemma {:induction false} UnreachableNeverRuns(p: Pool, j: Job, states: seq<Pool>, steps: seq<Step>)
    requires Goes(p, states, steps) && !Reachable(p, j) && !Executed(p, j)
    ensures !Reachable(states[|steps|], j) && !Executed(states[|steps|], j)
    decreases |steps|
  {
    hide Enabled, Next, Reachable, Executed;
    if steps != [] {
      var n := |steps| - 1;
      assert Goes(p, states[..n + 1], steps[..n]);
      UnreachableNeverRuns(p, j, states[..n + 1], steps[..n]);
      StillUnreachable(states[n], steps[n], j);
    }
  }

  /** A worker that may run a queued job and will look again goes on doing so until somebody has taken the job. */
  lemma StaysUntilTaken(p: Pool, a: Step, j: Job, w: nat)
    requires Enabled(p, a) && j in p.queue && w < |p.workers| && Eligible(j, p.workers[w].tid) && WillScan(p.workers[w])
    ensures |Next(p, a).workers| == |p.workers| && Next(p, a).workers[w].tid == p.workers[w].tid
    ensures j in Next(p, a).queue ==> WillScan(Next(p, a).workers[w])
    ensures j !in Next(p, a).queue ==> Executed(Next(p, a), j)
  {
    hide First, Removed;
    if a.Fetch? {
      var k := First(p.queue, p.workers[a.w].tid);
      if k < |p.queue| {
        if p.queue[k] == j { assert Next(p, a).workers[a.w].pc == Exec(j); } else { RemovedKeeps(p.queue, k, j); }
      }
      if a.w == w { FirstExists(p.queue, p.workers[w].tid, j); }
    }
  }

  lemma RemovedKeeps(queue: seq<Job>, k: nat, j: Job)
    requires k < |queue| && j in queue && queue[k] != j
    ensures j in Removed(queue, k)
  {
    var i :| 0 <= i < |queue| && queue[i] == j;
    assert Removed(queue, k)[if i < k then i else i - 1] == j;
  }

  lemma FirstExists(queue: seq<Job>, tid: int, j: Job)
    requires j in queue && Eligible(j, tid)
    ensures First(queue, tid) < |queue|
  {
    var i :| 0 <= i < |queue| && queue[i] == j;
  }

  /** How many of its own steps a worker is away from its next look at the queue. */
  function Distance(pc: Pc): nat {
    match pc
    case Scan => 0 case Outside => 1 case Counting => 1 case IdleBack => 1
    case Exec(_) => 2 case IdleCheck => 2 case _ => 3
  }

  function Nudge(pc: Pc, w: nat): Step {
    match pc
    case Outside => Enter(w)
    case Scan => Fetch(w)
    case Exec(_) => Finish(w)
    case Counting => CountDown(w)
    case Decide => Resolve(w)
    case IdleCheck => Check(w)
    case _ => IdleDown(w)
  }

  lemma NudgeGetsCloser(p: Pool, w: nat, j: Job)
    requires w < |p.workers| && WillScan(p.workers[w]) && j in p.queue && Eligible(j, p.workers[w].tid)
    ensures var a := Nudge(p.workers[w].pc, w);
      Enabled(p, a) && var p' := Next(p, a);
      |p'.workers| == |p.workers| && (|p'.queue| < |p.queue|
        || (|p'.queue| == |p.queue| && Distance(p'.workers[w].pc) < Distance(p.workers[w].pc)))
  {
    FirstExists(p.queue, p.workers[w].tid, j);
  }

  /** Left to itself, a worker that will look again and may run the job comes to run it. */
  lemma {:induction false} CanRun(p: Pool, w: nat, j: Job) returns (states: seq<Pool>, steps: seq<Step>)
    requires w < |p.workers| && WillScan(p.workers[w]) && j in p.queue && Eligible(j, p.workers[w].tid)
    ensures Goes(p, states, steps) && Executed(states[|steps|], j)
    decreases |p.queue|, Distance(p.workers[w].pc)
  {
    hide Enabled, Next, WillScan, Eligible, Executed, Distance, Nudge;
    NudgeGetsCloser(p, w, j);
    var a := Nudge(p.workers[w].pc, w);
    var p' := Next(p, a);
    StaysUntilTaken(p, a, j, w);
    if j !in p'.queue {
      return [p, p'], [a];
    }
    assert p'.workers[w].tid == p.workers[w].tid;
    var later, more := CanRun(p', w, j);
    states, steps := [p] + later, [a] + more;
    assert states[|steps|] == later[|more|];
  }

  /** A queued job can still come to be run exactly when some worker that may run it will look at the queue again. */
  lemma RunsExactlyWhen(p: Pool, j: Job)
    requires j in p.queue && !Executed(p, j)
    ensures (exists states, steps :: Goes(p, states, steps) && Executed(states[|steps|], j)) <==> Reachable(p, j)
  {
    hide Executed;
    if Reachable(p, j) {
      var w :| 0 <= w < |p.workers| && Eligible(j, p.workers[w].tid) && WillScan(p.workers[w]);
      var states, steps := CanRun(p, w, j);
    } else {
      forall states, steps | Goes(p, states, steps) ensures !Executed(states[|steps|], j) {
        UnreachableNeverRuns(p, j, states, steps);
      }
    }
  }

  /** Submissions that are lost: every worker has left, or found its idle fiber ended and is about to leave. */
  lemma LateSubmissionIsLost(p: Pool, thread: int, states: seq<Pool>, steps: seq<Step>)
    requires forall i :: 0 <= i < |p.workers| ==> !WillScan(p.workers[i])
    requires Goes(Submitted(p, thread), states, steps)
    ensures !Executed(states[|steps|], Job(|p.submitted|, thread))
  {
    UnreachableNeverRuns(Submitted(p, thread), Job(|p.submitted|, thread), states, steps);
  }

  /** A run of one worker: it finds nothing, idles, sees stopping() hold, and finds nothing again. */
  const LEAVING_STEPS: seq<Step> := [Enter(0), Fetch(0), Resolve(0), Stop, Check(0), IdleDown(0), Fetch(0)]

  lemma RunExtends(states: seq<Pool>, steps: seq<Step>, a: Step) returns (longer: seq<Pool>)
    requires IsRun(states, steps) && Enabled(states[|steps|], a)
    ensures longer == states + [Next(states[|steps|], a)] && IsRun(longer, steps + [a])
  {
    hide Enabled, Next, Start;
    longer := states + [Next(states[|steps|], a)];
  }

  /** A pool of one worker with nothing to do. */
  function OneWorker(pc: Pc, term: bool, stopping: bool, idle: int): Pool {
    Pool([], stopping, 0, idle, [Worker(1, pc, term)], [], [])
  }

  lemma OneWorkerMoves()
    ensures Start(OneWorker(Outside, false, false, 0))
    ensures var p := OneWorker(Outside, false, false, 0);
      Enabled(p, Enter(0)) && Next(p, Enter(0)) == OneWorker(Scan, false, false, 0)
    ensures var p := OneWorker(Decide, false, false, 0);
      Enabled(p, Resolve(0)) && Next(p, Resolve(0)) == OneWorker(IdleCheck, false, false, 1)
    ensures var p := OneWorker(IdleCheck, false, false, 1);
      Enabled(p, Stop) && Next(p, Stop) == OneWorker(IdleCheck, false, true, 1)
    ensures var p := OneWorker(IdleCheck, false, true, 1);
      Enabled(p, Check(0)) && Next(p, Check(0)) == OneWorker(IdleBack, true, true, 1)
    ensures var p := OneWorker(IdleBack, true, true, 1);
      Enabled(p, IdleDown(0)) && Next(p, IdleDown(0)) == OneWorker(Scan, true, true, 0)
  {
  }

  lemma OneWorkerFinds(term: bool, stopping: bool)
    ensures var p := OneWorker(Scan, term, stopping, 0);
      Enabled(p, Fetch(0)) && Next(p, Fetch(0)) == OneWorker(Decide, term, stopping, 0)
  {
  }

  /** It ends at the point of leaving, with its idle fiber over, and nothing queued. */
  lemma LeavingRun() returns (run: seq<Pool>)
    ensures |run| == 8 && IsRun(run, LEAVING_STEPS) && run[7] == OneWorker(Decide, true, true, 0)
  {
    OneWorkerMoves();
    OneWorkerFinds(false, false);
    OneWorkerFinds(true, true);
    run := [OneWorker(Outside, false, false, 0)];
    assert IsRun(run, []);
    hide IsRun, Enabled, Next, Start, OneWorker;
    run := RunExtends(run, [], Enter(0));
    run := RunExtends(run, [] + [Enter(0)], Fetch(0));
    run := RunExtends(run, [] + [Enter(0)] + [Fetch(0)], Resolve(0));
    run := RunExtends(run, [] + [Enter(0)] + [Fetch(0)] + [Resolve(0)], Stop);
    run := RunExtends(run, [] + [Enter(0)] + [Fetch(0)] + [Resolve(0)] + [Stop], Check(0));
    run := RunExtends(run, [] + [Enter(0)] + [Fetch(0)] + [Resolve(0)] + [Stop] + [Check(0)], IdleDown(0));
    var six := [] + [Enter(0)] + [Fetch(0)] + [Resolve(0)] + [Stop] + [Check(0)] + [IdleDown(0)];
    run := RunExtends(run, six, Fetch(0));
    assert six + [Fetch(0)] == LEAVING_STEPS;
  }

  /** The run is one of the pool's own; a job submitted at its end is never run, although the worker has not left. */
  lemma LostWhileLeaving(thread: int) returns (run: seq<Pool>)
    ensures |run| == 8 && IsRun(run, LEAVING_STEPS)
    ensures var p := run[7];
      && p.workers == [Worker(1, Decide, true)] && Quiet(p)
      && forall states, steps :: Goes(Submitted(p, thread), states, steps) ==>
        !Executed(states[|steps|], Job(0, thread))
  {
    hide Goes, Executed, IsRun;
    run := LeavingRun();
    forall states, steps | Goes(Submitted(run[7], thread), states, steps)
      ensures |states| == |steps| + 1 && !Executed(states[|steps|], Job(0, thread))
    {
      GoesLength(Submitted(run[7], thread), states, steps);
      LateSubmissionIsLost(run[7], thread, states, steps);
    }
  }

  lemma GoesLength(p: Pool, states: seq<Pool>, steps: seq<Step>)
    requires Goes(p, states, steps)
    ensures |states| == |steps| + 1
  {
  }
}
