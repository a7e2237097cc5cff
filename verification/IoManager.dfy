/** `IOManager` as the object the source updates in place, proved against the operations of IoEvents. */
module IoManager {
  import opened Options
  import opened IoEvents

  /** A batch from one `epoll_wait`: every context at most once, readiness within registered interest. */
  predicate BatchFits(io: Io, batch: seq<Report>) {
    && (forall i :: 0 <= i < |batch| ==> ReportFits(io, batch[i]))
    && (forall i, j :: 0 <= i < j < |batch| ==> batch[i].fd != batch[j].fd)
  }

  function HandleBatch(io: Io, batch: seq<Report>): (r: Io)
    requires forall i :: 0 <= i < |batch| ==> batch[i].fd < |io.ctxs|
    ensures |r.ctxs| == |io.ctxs|
  {
    if batch == [] then io
    else
      var io1 := HandleBatch(io, batch[..|batch| - 1]);
      HandleReport(io1, batch[|batch| - 1])
  }

  /** A whole idle round keeps the invariant, loses nothing, repeats nothing, and touches only reported fds. */
  lemma {:induction false} BatchKeeps(io: Io, batch: seq<Report>, t: Task)
    requires Inv(io) && BatchFits(io, batch)
    ensures var io' := HandleBatch(io, batch);
      && Inv(io') && Owed(io', t) == Owed(io, t)
      && (forall i | 0 <= i < |io.ctxs| && (forall j :: 0 <= j < |batch| ==> batch[j].fd != i) ::
            io'.ctxs[i] == io.ctxs[i])
  {
    hide Inv, HandleReport, Owed;
    if batch != [] {
      var init, r := batch[..|batch| - 1], batch[|batch| - 1];
      BatchKeeps(io, init, t);
      assert ReportFits(HandleBatch(io, init), r);
      ReportKeeps(HandleBatch(io, init), r, t);
    }
  }

  /** What one report does to the events of its fd. */
  ghost predicate Answered(c: FdContext, c': FdContext, r: Report) {
    forall e: Event ::
      if Covered(c, r, e) then !c'.event.Has(e) && c'.At(e).Empty()
      else c'.event.Has(e) == c.event.Has(e) && c'.At(e) == c.At(e)
  }

  /** The continuations a batch wakes, from the contexts as they were before it. */
  function WokenBy(io: Io, batch: seq<Report>): seq<Task>
    requires forall i :: 0 <= i < |batch| ==> batch[i].fd < |io.ctxs|
  {
    if batch == [] then []
    else
      var r := batch[|batch| - 1];
      var c := io.ctxs[r.fd];
      WokenBy(io, batch[..|batch| - 1]) + WaitersOf(c, Covered(c, r, READ), Covered(c, r, WRITE))
  }

  /** Every reported fd is answered from what it was before the batch. */
  ghost predicate BatchAnswered(io: Io, io': Io, batch: seq<Report>) {
    forall j :: 0 <= j < |batch| ==>
      batch[j].fd < |io.ctxs| == |io'.ctxs| && Answered(io.ctxs[batch[j].fd], io'.ctxs[batch[j].fd], batch[j])
  }

  /** A whole batch: of every reported fd exactly the covered armed events are cleared, of every other fd none
      (BatchKeeps), and their continuations are appended in the order of the reports. */
  lemma {:induction false} BatchWakes(io: Io, batch: seq<Report>)
    requires Inv(io) && BatchFits(io, batch)
    ensures var io' := HandleBatch(io, batch);
      BatchAnswered(io, io', batch) && io'.queue == io.queue + WokenBy(io, batch)
  {
    hide Inv, HandleReport, Covered, WaitersOf, Answered, BatchAnswered, OnlyAt;
    if batch == [] {
      NoReports(io);
    } else {
      var init, r := batch[..|batch| - 1], batch[|batch| - 1];
      assert batch == init + [r];
      BatchWakes(io, init);
      BatchKeeps(io, init, UserTask(0));
      var io1 := HandleBatch(io, init);
      assert io1.ctxs[r.fd] == io.ctxs[r.fd];
      ReportAnswers(io1, r);
      OneMore(io, io1, HandleReport(io1, r), init, r);
    }
  }

  lemma NoReports(io: Io)
    ensures BatchAnswered(io, io, [])
  {
  }

  lemma OneMore(io: Io, io1: Io, io2: Io, init: seq<Report>, r: Report)
    requires BatchAnswered(io, io1, init) && r.fd < |io.ctxs| == |io1.ctxs| && io1.ctxs[r.fd] == io.ctxs[r.fd]
    requires OnlyAt(io1, io2, r.fd) && Answered(io1.ctxs[r.fd], io2.ctxs[r.fd], r)
    requires forall j :: 0 <= j < |init| ==> init[j].fd != r.fd
    ensures BatchAnswered(io, io2, init + [r])
  {
    hide Answered;
  }

  lemma ReportAnswers(io: Io, r: Report)
    requires Inv(io) && ReportFits(io, r)
    ensures var io', c := HandleReport(io, r), io.ctxs[r.fd];
      && OnlyAt(io, io', r.fd) && Answered(c, io'.ctxs[r.fd], r)
      && io'.queue == io.queue + WaitersOf(c, Covered(c, r, READ), Covered(c, r, WRITE))
  {
    hide Inv, HandleReport, Covered, WaitersOf;
    ReportWakes(io, r);
  }

  class IOManager {
    var ctxs: seq<FdContext>       // m_fdContexts
    var epoll: map<int, Mask>      // the kernel's interest table for m_epfd
    var pending: int               // m_pendingEventCount
    var queue: seq<Task>           // the scheduler's m_fibers, as far as events fill it

    ghost function Abs(): Io
      reads this
    {
      Io(ctxs, epoll, pending, queue)
    }

    ghost predicate Valid()
      reads this
    {
      Inv(Abs())
    }

    constructor ()
      ensures Valid() && Abs() == Io(Resized([], 32), map[], 0, [])
    {
      ctxs, epoll, pending, queue := [], map[], 0, [];
      new;
      ContextResize(32);
      StartInv();
    }

    method ContextResize(size: nat)
      modifies this`ctxs
      ensures ctxs == Resized(old(ctxs), size)
    {
      while |ctxs| < size
        invariant Resized(ctxs, size) == Resized(old(ctxs), size)
      {
        ctxs := ctxs + [Fresh(|ctxs|)];
      }
    }

    /** `epoll_ctl`: fails on an illegal operation and whenever the kernel refuses. */
    method EpollCtl(op: CtlOp, fd: int, m: Mask, accepted: bool) returns (rt: int)
      modifies this`epoll
      ensures rt == 0 <==> accepted && CtlLegal(old(epoll), op, fd)
      ensures epoll == if rt == 0 then Ctl(old(epoll), op, fd, m) else old(epoll)
    {
      if !accepted || (op.ADD? && fd in epoll) || (!op.ADD? && fd !in epoll) { return -1; }
      if op.DEL? { epoll := epoll - {fd}; } else { epoll := epoll[fd := m]; }
      return 0;
    }

    /** `FdContext::triggerEvent` on the context of `fd`, without the caller's counter update. */
    method TriggerEvent(fd: nat, e: Event)
      requires fd < |ctxs| && ctxs[fd].event.Has(e)
      modifies this`ctxs, this`queue
      ensures ctxs == old(ctxs)[fd := Triggered(old(ctxs)[fd], e)]
      ensures queue == Enqueued(old(queue), old(ctxs)[fd].At(e))
    {
      var c := ctxs[fd].(event := ctxs[fd].event.Without(e));
      var slot := c.At(e);
      if slot.cb.Some? {
        queue := queue + [slot.cb.value];
      } else if slot.fiber.Some? {
        queue := queue + [slot.fiber.value];
      }
      ctxs := ctxs[fd := c.Put(e, EMPTY_SLOT)];
    }

    method AddEvent(fd: nat, e: Event, t: Task, accepted: bool) returns (ok: bool)
      requires Valid() && (fd < |ctxs| ==> !ctxs[fd].event.Has(e))
      modifies this
      ensures Valid() && ok == accepted
      ensures (Abs(), ok) == IoEvents.AddEvent(old(Abs()), fd, e, t, accepted)
    {
      AddEventKeeps(Abs(), fd, e, t, accepted, t);
      if |ctxs| <= fd {
        ResizedLength(ctxs, fd * 2);
        ContextResize(fd * 2);
      }
      var c := ctxs[fd];
      var op := if c.event.Any() then MOD else ADD;
      var rt := EpollCtl(op, fd, c.event.With(e), accepted);
      if rt != 0 { return false; }
      pending := pending + 1;
      c := c.(event := c.event.With(e));
      var slot := Slot(true, if t.FiberTask? then Some(t) else None, if t.FiberTask? then None else Some(t));
      ctxs := ctxs[fd := c.Put(e, slot)];
      return true;
    }

    method DelEvent(fd: nat, e: Event, accepted: bool) returns (ok: bool)
      requires Valid()
      modifies this
      ensures Valid() && (Abs(), ok) == IoEvents.DelEvent(old(Abs()), fd, e, accepted)
    {
      hide Inv;
      TakeEventKeeps(Abs(), fd, e, false, accepted, UserTask(0));
      if |ctxs| <= fd || !ctxs[fd].event.Has(e) { return false; }
      var left := ctxs[fd].event.Without(e);
      var rt := EpollCtl(if left.Any() then MOD else DEL, fd, left, accepted);
      if rt != 0 { return false; }
      pending := pending - 1;
      ctxs := ctxs[fd := ctxs[fd].(event := left).Put(e, EMPTY_SLOT)];
      return true;
    }

    method CancelEvent(fd: nat, e: Event, accepted: bool) returns (ok: bool)
      requires Valid()
      modifies this
      ensures Valid() && (Abs(), ok) == IoEvents.CancelEvent(old(Abs()), fd, e, accepted)
    {
      hide Inv;
      TakeEventKeeps(Abs(), fd, e, true, accepted, UserTask(0));
      if |ctxs| <= fd || !ctxs[fd].event.Has(e) { return false; }
      var left := ctxs[fd].event.Without(e);
      var rt := EpollCtl(if left.Any() then MOD else DEL, fd, left, accepted);
      if rt != 0 { return false; }
      TriggerEvent(fd, e);
      pending := pending - 1;
      return true;
    }

    method CancelAll(fd: nat, accepted: bool) returns (ok: bool)
      requires Valid()
      modifies this
      ensures Valid() && (Abs(), ok) == IoEvents.CancelAll(old(Abs()), fd, accepted)
      ensures ok ==> ctxs[fd].event == NONE
    {
      hide Inv;
      CancelAllKeeps(Abs(), fd, accepted, UserTask(0));
      if |ctxs| <= fd || !ctxs[fd].event.Any() { return false; }
      var rt := EpollCtl(DEL, fd, NONE, accepted);
      if rt != 0 { return false; }
      if ctxs[fd].event.read {
        TriggerEvent(fd, READ);
        pending := pending - 1;
      }
      if ctxs[fd].event.write {
        TriggerEvent(fd, WRITE);
        pending := pending - 1;
      }
      return true;
    }

    /** The body of the idle loop for one report. */
    method OnReport(r: Report)
      requires Valid() && ReportFits(Abs(), r)
      modifies this
      ensures Valid() && Abs() == HandleReport(old(Abs()), r)
    {
      hide Inv, TriggerAll;
      ReportKeeps(Abs(), r, UserTask(0));
      var c := ctxs[r.fd];
      var hit := if r.error then Mask(r.ready.read || c.event.read, r.ready.write || c.event.write) else r.ready;
      if !(c.event.read && hit.read) && !(c.event.write && hit.write) { return; }
      var left := c.event.Minus(hit);
      var rt := EpollCtl(if left.Any() then MOD else DEL, r.fd, left, r.accepted);
      if rt != 0 { return; }
      TriggerHits(r.fd, hit);
    }

    /** The tail of the loop body: each reported event is triggered, READ first. */
    method TriggerHits(fd: nat, hit: Mask)
      requires fd < |ctxs| && (hit.read ==> ctxs[fd].event.read) && (hit.write ==> ctxs[fd].event.write)
      modifies this`ctxs, this`queue, this`pending
      ensures Abs() == TriggerAll(old(Abs()), fd, hit)
    {
      hide Enqueued;
      if hit.read {
        TriggerEvent(fd, READ);
        pending := pending - 1;
      }
      if hit.write {
        TriggerEvent(fd, WRITE);
        pending := pending - 1;
      }
    }

    /** The event loop of `idle` over one batch of reports. */
    method OnBatch(batch: seq<Report>)
      requires Valid() && BatchFits(Abs(), batch)
      modifies this
      ensures Valid() && Abs() == HandleBatch(old(Abs()), batch)
    {
      hide Inv, HandleReport;
      for i := 0 to |batch|
        invariant Valid() && Abs() == HandleBatch(old(Abs()), batch[..i])
        invariant forall j :: i <= j < |batch| ==> ReportFits(Abs(), batch[j])
      {
        assert batch[..i + 1][..i] == batch[..i];
        ghost var before := Abs();
        ReportKeeps(before, batch[i], UserTask(0));
        OnReport(batch[i]);
      }
      assert batch[..|batch|] == batch;
    }
  }

  lemma StartInv()
    ensures Inv(Io(Resized([], 32), map[], 0, []))
  {
    StartBits([], 32);
    ResizedLength([], 32);
  }

  lemma {:induction false} StartBits(ctxs: seq<FdContext>, n: nat)
    requires ArmedBits(ctxs) == 0 && (forall i :: 0 <= i < |ctxs| ==> ctxs[i] == Fresh(i))
    ensures ArmedBits(Resized(ctxs, n)) == 0
    ensures forall i :: 0 <= i < |Resized(ctxs, n)| ==> Resized(ctxs, n)[i] == Fresh(i)
    decreases n - |ctxs|
  {
    if n > |ctxs| {
      var one := ctxs + [Fresh(|ctxs|)];
      assert one[..|one| - 1] == ctxs;
      StartBits(one, n);
    }
  }

  // ---------- whole runs ----------

  /** Everything that can happen to the event half, on one dispatching thread. */
  datatype Action =
    | Add(fd: nat, e: Event, t: Task, accepted: bool)
    | Drop(fd: nat, e: Event, accepted: bool)
    | Cancel(fd: nat, e: Event, accepted: bool)
    | CancelFd(fd: nat, accepted: bool)
    | Idle(batch: seq<Report>)
    | Pop

  /** Callers do not arm an armed event; the kernel reports only registered interest; a worker pops what is there. */
  predicate Enabled(io: Io, a: Action) {
    match a
    case Add(fd, e, _, _) => |io.ctxs| >= 1 && (fd < |io.ctxs| ==> !io.ctxs[fd].event.Has(e))
    case Idle(batch) => BatchFits(io, batch)
    case Pop => io.queue != []
    case _ => true
  }

  function Next(io: Io, a: Action): Io
    requires Enabled(io, a)
  {
    match a
    case Add(fd, e, t, accepted) => IoEvents.AddEvent(io, fd, e, t, accepted).0
    case Drop(fd, e, accepted) => IoEvents.DelEvent(io, fd, e, accepted).0
    case Cancel(fd, e, accepted) => IoEvents.CancelEvent(io, fd, e, accepted).0
    case CancelFd(fd, accepted) => IoEvents.CancelAll(io, fd, accepted).0
    case Idle(batch) => HandleBatch(io, batch)
    case Pop => io.(queue := io.queue[1..])
  }

  function Armings(io: Io, a: Action, t: Task): int { if a.Add? && a.accepted && a.t == t then 1 else 0 }

  /** What an action takes out of the reactor: a pop runs one continuation, a successful delEvent drops one. */
  function Settled(io: Io, a: Action, t: Task): int {
    match a
    case Pop => if io.queue != [] && io.queue[0] == t then 1 else 0
    case Drop(fd, e, accepted) =>
      if accepted && fd < |io.ctxs| && io.ctxs[fd].event.Has(e) && io.ctxs[fd].At(e).Continuation() == Some(t)
      then 1 else 0
    case _ => 0
  }

  lemma NextKeeps(io: Io, a: Action, t: Task)
    requires Inv(io) && Enabled(io, a)
    ensures Inv(Next(io, a))
    ensures Owed(Next(io, a), t) == Owed(io, t) + Armings(io, a, t) - Settled(io, a, t)
  {
    hide Inv, IoEvents.AddEvent, TakeEvent, IoEvents.CancelAll, HandleBatch, Waiting;
    match a
    case Add(fd, e, u, accepted) =>
      assert fd < |io.ctxs| ==> !io.ctxs[fd].event.Has(e);
      AddEventKeeps(io, fd, e, u, accepted, t);
    case Drop(fd, e, accepted) => TakeEventKeeps(io, fd, e, false, accepted, t);
    case Cancel(fd, e, accepted) => TakeEventKeeps(io, fd, e, true, accepted, t);
    case CancelFd(fd, accepted) => CancelAllKeeps(io, fd, accepted, t);
    case Idle(batch) => BatchKeeps(io, batch, t);
    case Pop => PopKeeps(io, t);
  }

  lemma PopKeeps(io: Io, t: Task)
    requires Inv(io) && io.queue != []
    ensures Inv(io.(queue := io.queue[1..]))
    ensures Owed(io.(queue := io.queue[1..]), t) == Owed(io, t) - (if io.queue[0] == t then 1 else 0)
  {
    assert io.queue == [io.queue[0]] + io.queue[1..];
  }

  /** The states along a run of actions, each enabled where it happens. */
  ghost predicate IsRun(states: seq<Io>, actions: seq<Action>) {
    && |states| == |actions| + 1 && Inv(states[0])
    && forall i :: 0 <= i < |actions| ==> Enabled(states[i], actions[i]) && states[i + 1] == Next(states[i], actions[i])
  }

  function TotalArmed(states: seq<Io>, actions: seq<Action>, t: Task): int
    requires |states| == |actions| + 1
  {
    if actions == [] then 0
    else TotalArmed(states[..|states| - 1], actions[..|actions| - 1], t)
         + Armings(states[|states| - 2], actions[|actions| - 1], t)
  }

  function TotalSettled(states: seq<Io>, actions: seq<Action>, t: Task): int
    requires |states| == |actions| + 1
  {
    if actions == [] then 0
    else TotalSettled(states[..|states| - 1], actions[..|actions| - 1], t)
         + Settled(states[|states| - 2], actions[|actions| - 1], t)
  }

  /** Over every run: each arming of a continuation is settled once (popped or dropped) or still owed once. */
  lemma {:induction false} RunConserves(states: seq<Io>, actions: seq<Action>, t: Task)
    requires IsRun(states, actions)
    ensures Inv(states[|actions|])
    ensures Owed(states[0], t) + TotalArmed(states, actions, t)
         == TotalSettled(states, actions, t) + Owed(states[|actions|], t)
  {
    hide Inv, Next, Owed, Armings, Settled, Enabled;
    if actions != [] {
      var n := |actions| - 1;
      assert states[..|states| - 1][0] == states[0];
      RunConserves(states[..|states| - 1], actions[..n], t);
      NextKeeps(states[n], actions[n], t);
    }
  }

  // ---------- when nothing is owed ----------

  lemma {:induction false} NoBitsNoWaiting(ctxs: seq<FdContext>, t: Task)
    requires ArmedBits(ctxs) == 0
    ensures Waiting(ctxs, t) == 0
  {
    if ctxs != [] { NoBitsNoWaiting(ctxs[..|ctxs| - 1], t); }
  }

  lemma {:induction false} SomeoneWaits(ctxs: seq<FdContext>) returns (t: Task)
    requires AllConsistent(ctxs) && ArmedBits(ctxs) > 0
    ensures Waiting(ctxs, t) > 0
  {
    var n := |ctxs| - 1;
    if ctxs[n].event.read {
      t := ctxs[n].read.Continuation().value;
    } else if ctxs[n].event.write {
      t := ctxs[n].write.Continuation().value;
    } else {
      t := SomeoneWaits(ctxs[..n]);
    }
  }

  /** What `IOManager::stopping` adds to the scheduler's test: with an empty queue, no event is pending exactly when no
      continuation is owed a run. So a worker leaves only when every armed continuation has been run or dropped. */
  lemma NothingOwedExactlyWhen(io: Io)
    requires Inv(io)
    ensures io.queue == [] && io.pending == 0 <==> forall t: Task :: Owed(io, t) == 0
  {
    if io.queue == [] && io.pending == 0 {
      forall t: Task ensures Owed(io, t) == 0 { NoBitsNoWaiting(io.ctxs, t); }
    }
    if io.queue != [] { assert Owed(io, io.queue[0]) > 0; }
    if io.pending != 0 {
      var t := SomeoneWaits(io.ctxs);
      assert Owed(io, t) > 0;
    }
  }
}
