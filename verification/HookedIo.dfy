/** Hooked I/O on one dispatching thread: `do_io` suspends a fiber on an event and an optional timeout.
    The queue is first-in first-out and the idle round runs only when it is empty. */
module HookedIo {
  import opened Options
  import opened IoEvents
  import opened IoManager

  datatype Phase = Suspended | Returned(timedOut: bool)

  /** One `do_io` call that had to wait: its event, the timer of the current attempt, `tinfo->cancelled`,
      and how often its fiber was suspended and resumed. */
  datatype Call = Call(fd: nat, e: Event, timer: Option<nat>, cancelled: bool, phase: Phase, suspends: nat,
                       resumes: nat)

  /** `timers` are the pending one-shots, `fired` those whose callback has run, `owner` who armed each. */
  datatype Sys = Sys(io: Io, timers: set<nat>, fired: set<nat>, calls: map<nat, Call>, owner: map<nat, nat>,
                     nextTimer: nat)

  // ---------- steps ----------

  /** Arm the timeout (if any) and the event, then yield: hook.cpp, lines 120-139 and 148-154. A refused event cancels
      the timer. */
  function Suspend(s: Sys, id: nat, c: Call, timed: bool, accepted: bool): Sys
    requires |s.io.ctxs| >= 1 && (c.fd < |s.io.ctxs| ==> !s.io.ctxs[c.fd].event.Has(c.e))
  {
    var io := AddEvent(s.io, c.fd, c.e, FiberTask(id), accepted).0;
    if !accepted
    then s.(io := io, nextTimer := s.nextTimer + 1, calls := s.calls[id := c.(phase := Returned(false), timer := None)])
    else
      var timer := if timed then Some(s.nextTimer) else None;
      Sys(io, if timed then s.timers + {s.nextTimer} else s.timers, s.fired,
          s.calls[id := c.(timer := timer, phase := Suspended, suspends := c.suspends + 1)],
          if timed then s.owner[s.nextTimer := id] else s.owner, s.nextTimer + 1)
  }

  datatype Retry = Complete | Again(timed: bool, accepted: bool)

  datatype Step =
    | Start(id: nat, fd: nat, e: Event, timed: bool, accepted: bool)   // a new call finds EAGAIN
    | Cancel(fd: nat, e: Event, accepted: bool)                        // anyone's cancelEvent
    | CancelFd(fd: nat, accepted: bool)                                // anyone's cancelAll, e.g. close
    | AddUser(fd: nat, e: Event, id: nat, accepted: bool)              // anyone's addEvent with a callback
    | Idle(expired: seq<nat>, batch: seq<Report>)                      // timers first, then events
    | RunTimer(accepted: bool)                                         // the queue's head is a timer callback
    | Resume(retry: Retry)                                             // the queue's head is a fiber
    | RunUser                                                          // the queue's head is something else

  predicate Free(io: Io, fd: nat, e: Event) { |io.ctxs| >= 1 && (fd < |io.ctxs| ==> !io.ctxs[fd].event.Has(e)) }

  predicate Distinct(xs: seq<nat>) { forall i, j :: 0 <= i < j < |xs| ==> xs[i] != xs[j] }

  function TimerTasks(xs: seq<nat>): seq<Task> { seq(|xs|, i requires 0 <= i < |xs| => TimerTask(xs[i])) }

  function Popped(s: Sys): Sys
    requires s.io.queue != []
  {
    s.(io := s.io.(queue := s.io.queue[1..]))
  }

  predicate Enabled(s: Sys, a: Step) {
    match a
    case Start(id, fd, e, _, _) => id !in s.calls && Free(s.io, fd, e)
    case AddUser(fd, e, _, _) => Free(s.io, fd, e)
    case Idle(expired, batch) =>
      CanExpire(s, expired) && BatchFits(s.io, batch)
    case RunTimer(_) => s.io.queue != [] && s.io.queue[0].TimerTask? && s.io.queue[0].id in s.owner
                        && s.owner[s.io.queue[0].id] in s.calls
    case Resume(retry) =>
      && s.io.queue != [] && s.io.queue[0].FiberTask? && s.io.queue[0].id in s.calls
      && (retry.Again? ==> Free(s.io, s.calls[s.io.queue[0].id].fd, s.calls[s.io.queue[0].id].e))
    case RunUser => s.io.queue != [] && s.io.queue[0].UserTask?
    case _ => true
  }

  /** The timeout callback, hook.cpp, lines 127-134: nothing if the call is over or already marked, else mark and
      cancel. */
  function TimerRan(s: Sys, accepted: bool): Sys
    requires s.io.queue != [] && s.io.queue[0].id in s.owner && s.owner[s.io.queue[0].id] in s.calls
  {
    var t := s.io.queue[0].id;
    var id := s.owner[t];
    var c := s.calls[id];
    var s := Popped(s).(fired := s.fired + {t});
    if !c.phase.Suspended? || c.cancelled then s
    else s.(calls := s.calls[id := c.(cancelled := true)], io := CancelEvent(s.io, c.fd, c.e, accepted).0)
  }

  predicate FiberFirst(s: Sys) { s.io.queue != [] && s.io.queue[0].FiberTask? && s.io.queue[0].id in s.calls }

  /** After the yield, hook.cpp, lines 140-146: cancel the timer, and take the mark as the outcome. */
  function Woken(s: Sys): Sys
    requires FiberFirst(s)
  {
    var id := s.io.queue[0].id;
    var c := s.calls[id];
    Popped(s).(timers := if c.timer.Some? then s.timers - {c.timer.value} else s.timers,
               calls := s.calls[id := c.(resumes := c.resumes + 1, phase := Returned(c.cancelled))])
  }

  /** Hook.cpp, lines 143-147: report the timeout, or try again and perhaps wait again. */
  function Resumed(s: Sys, retry: Retry): Sys
    requires Enabled(s, Resume(retry))
  {
    var id, w := s.io.queue[0].id, Woken(s);
    if w.calls[id].cancelled || retry.Complete? then w else Suspend(w, id, w.calls[id], retry.timed, retry.accepted)
  }

  function Next(s: Sys, a: Step): Sys
    requires Enabled(s, a)
  {
    match a
    case Start(id, fd, e, timed, accepted) => Suspend(s, id, Call(fd, e, None, false, Returned(false), 0, 0), timed,
                                                      accepted)
    case Cancel(fd, e, accepted) => s.(io := CancelEvent(s.io, fd, e, accepted).0)
    case CancelFd(fd, accepted) => s.(io := CancelAll(s.io, fd, accepted).0)
    case AddUser(fd, e, id, accepted) => s.(io := AddEvent(s.io, fd, e, UserTask(id), accepted).0)
    case Idle(expired, batch) => var x := Expired(s, expired); x.(io := HandleBatch(x.io, batch))
    case RunTimer(accepted) => TimerRan(s, accepted)
    case Resume(retry) => Resumed(s, retry)
    case RunUser => Popped(s)
  }

  // ---------- invariant ----------

  function Owes(s: Sys, id: nat): nat { if id in s.calls && s.calls[id].phase.Suspended? then 1 else 0 }

  /** A timer that can still matter: its call is suspended on exactly this attempt and not yet marked. */
  predicate Live(s: Sys, t: nat) {
    && t in s.owner && s.owner[t] in s.calls && t < s.nextTimer && t !in s.fired
    && var c := s.calls[s.owner[t]]; c.phase.Suspended? && c.timer == Some(t) && !c.cancelled
  }

  function Queued(s: Sys, t: nat): nat { multiset(s.io.queue)[TimerTask(t)] }

  /** A call's record agrees with where its fiber and its timer are. */
  predicate CallOk(s: Sys, id: nat)
    requires id in s.calls
  {
    var c := s.calls[id];
    && c.suspends == c.resumes + Owes(s, id)
    && (c.phase.Returned? ==> c.phase.timedOut == c.cancelled)
    && match c.timer
       case None => !c.cancelled
       case Some(t) => t in s.owner && s.owner[t] == id && t < s.nextTimer && (c.cancelled <==> t in s.fired)
                       && (c.phase.Suspended? ==> (c.cancelled <==> t !in s.timers && Queued(s, t) == 0))
  }

  /** No queued fiber stands before its own timer callback. */
  predicate OrderOk(s: Sys) {
    forall i, j :: 0 <= i < j < |s.io.queue| && s.io.queue[i].FiberTask? && s.io.queue[j].TimerTask? ==>
      !(s.io.queue[i].id in s.calls && s.calls[s.io.queue[i].id].timer == Some(s.io.queue[j].id))
  }

  ghost predicate Wf(s: Sys) {
    && Inv(s.io)
    && (forall id :: Owed(s.io, FiberTask(id)) == Owes(s, id))
    && (forall id | id in s.calls :: CallOk(s, id))
    && (forall t :: Waiting(s.io.ctxs, TimerTask(t)) == 0)
    && (forall t :: Queued(s, t) <= 1)
    && (forall t | t in s.timers :: Live(s, t) && Queued(s, t) == 0)
    && (forall t :: Queued(s, t) == 1 ==> Live(s, t))
    && (forall t | t in s.owner :: t < s.nextTimer)
    && (forall t | t in s.fired :: t in s.owner)
    && OrderOk(s)
  }

  // ---------- the event half moves fibers from armed to queued, never loses or repeats them ----------

  ghost predicate Moves(io: Io, io': Io) {
    Inv(io') && io.queue <= io'.queue && forall t: Task | !t.UserTask? :: Owed(io', t) == Owed(io, t)
  }

  lemma CancelMoves(io: Io, fd: nat, e: Event, accepted: bool)
    requires Inv(io)
    ensures Moves(io, CancelEvent(io, fd, e, accepted).0)
  {
    hide Inv, TakeEvent, Owed;
    forall t: Task ensures Owed(CancelEvent(io, fd, e, accepted).0, t) == Owed(io, t) {
      TakeEventKeeps(io, fd, e, true, accepted, t);
    }
    TakeEventKeeps(io, fd, e, true, accepted, UserTask(0));
  }

  lemma TriggerAllPrefix(io: Io, fd: nat, m: Mask)
    requires fd < |io.ctxs|
    ensures io.queue <= TriggerAll(io, fd, m).queue
  {
  }

  lemma CancelAllMoves(io: Io, fd: nat, accepted: bool)
    requires Inv(io)
    ensures Moves(io, CancelAll(io, fd, accepted).0)
  {
    hide Inv, TriggerAll, Owed;
    forall t: Task ensures Owed(CancelAll(io, fd, accepted).0, t) == Owed(io, t) {
      CancelAllKeeps(io, fd, accepted, t);
    }
    CancelAllKeeps(io, fd, accepted, UserTask(0));
    if fd < |io.ctxs| && io.ctxs[fd].event.Any() {
      TriggerAllPrefix(io.(epoll := Ctl(io.epoll, DEL, fd, NONE)), fd, io.ctxs[fd].event);
    }
  }

  lemma {:induction false} BatchPrefix(io: Io, batch: seq<Report>)
    requires forall i :: 0 <= i < |batch| ==> batch[i].fd < |io.ctxs|
    ensures io.queue <= HandleBatch(io, batch).queue
  {
    hide TriggerAll;
    if batch != [] {
      BatchPrefix(io, batch[..|batch| - 1]);
      var io1, r := HandleBatch(io, batch[..|batch| - 1]), batch[|batch| - 1];
      var left := io1.ctxs[r.fd].event.Minus(RealEvents(io1.ctxs[r.fd], r));
      TriggerAllPrefix(io1.(epoll := Ctl(io1.epoll, if left.Any() then MOD else DEL, r.fd, left)), r.fd,
                       RealEvents(io1.ctxs[r.fd], r));
    }
  }

  lemma BatchMoves(io: Io, batch: seq<Report>)
    requires Inv(io) && BatchFits(io, batch)
    ensures Moves(io, HandleBatch(io, batch))
  {
    hide Inv, HandleBatch, Owed;
    forall t: Task ensures Owed(HandleBatch(io, batch), t) == Owed(io, t) { BatchKeeps(io, batch, t); }
    BatchKeeps(io, batch, UserTask(0));
    BatchPrefix(io, batch);
  }

  lemma CountAppend(a: seq<Task>, b: seq<Task>, t: Task)
    requires a <= b
    ensures multiset(b)[t] == multiset(a)[t] + multiset(b[|a|..])[t]
  {
    assert b == a + b[|a|..];
  }

  /** Moving continuations keeps timer tasks exactly where they were. */
  lemma MovesTimers(s: Sys, io': Io, t: nat)
    requires Wf(s) && Moves(s.io, io')
    ensures Queued(s.(io := io'), t) == Queued(s, t) && Waiting(io'.ctxs, TimerTask(t)) == 0
    ensures TimerTask(t) !in io'.queue[|s.io.queue|..]
  {
    hide Inv, OrderOk;
    assert Owed(io', TimerTask(t)) == Owed(s.io, TimerTask(t));
    CountAppend(s.io.queue, io'.queue, TimerTask(t));
  }

  lemma NoLateTimer(s: Sys, io': Io, j: nat)
    requires Wf(s) && Moves(s.io, io') && j < |io'.queue| && io'.queue[j].TimerTask?
    ensures j < |s.io.queue|
  {
    MovesTimers(s, io', io'.queue[j].id);
    var late := io'.queue[|s.io.queue|..];
    assert forall k :: |s.io.queue| <= k < |io'.queue| ==> io'.queue[k] == late[k - |s.io.queue|];
  }

  lemma MovesWf(s: Sys, io': Io)
    requires Wf(s) && Moves(s.io, io')
    ensures Wf(s.(io := io'))
  {
    hide Inv, Owed;
    var s' := s.(io := io');
    forall t ensures Queued(s', t) == Queued(s, t) && Waiting(io'.ctxs, TimerTask(t)) == 0 { MovesTimers(s, io', t); }
    forall id | id in s'.calls ensures CallOk(s', id) { assert CallOk(s, id); }
    forall i, j | 0 <= i < j < |io'.queue| && io'.queue[i].FiberTask? && io'.queue[j].TimerTask?
      ensures !(io'.queue[i].id in s.calls && s.calls[io'.queue[i].id].timer == Some(io'.queue[j].id))
    {
      assert io'.queue[j] == TimerTask(io'.queue[j].id);
      NoLateTimer(s, io', j);
      assert s.io.queue[i] == io'.queue[i] && s.io.queue[j] == io'.queue[j];
    }
    assert OrderOk(s');
    forall t | t in s'.timers ensures Live(s', t) && Queued(s', t) == 0 { assert Live(s, t); }
    forall t | Queued(s', t) == 1 ensures Live(s', t) { assert Queued(s, t) == 1; assert Live(s, t); }
  }

  // ---------- popping ----------

  lemma PopCount(s: Sys, t: Task)
    requires s.io.queue != [] && Inv(s.io)
    ensures Inv(Popped(s).io)
    ensures multiset(s.io.queue[1..])[t] == multiset(s.io.queue)[t] - (if s.io.queue[0] == t then 1 else 0)
    ensures Owed(Popped(s).io, t) == Owed(s.io, t) - (if s.io.queue[0] == t then 1 else 0)
  {
    hide Inv;
    PopKeeps(s.io, t);
    assert s.io.queue == [s.io.queue[0]] + s.io.queue[1..];
  }

  lemma PopOrder(s: Sys)
    requires s.io.queue != [] && OrderOk(s)
    ensures OrderOk(Popped(s))
  {
    var q := s.io.queue;
    forall i, j | 0 <= i < j < |q[1..]| && q[1..][i].FiberTask? && q[1..][j].TimerTask?
      ensures !(q[1..][i].id in s.calls && s.calls[q[1..][i].id].timer == Some(q[1..][j].id))
    {
      assert q[i + 1] == q[1..][i] && q[j + 1] == q[1..][j];
    }
  }

  lemma UserPopWf(s: Sys)
    requires Wf(s) && s.io.queue != [] && s.io.queue[0].UserTask?
    ensures Wf(Popped(s))
  {
    hide Inv, Owed;
    var s' := Popped(s);
    forall id ensures Owed(s'.io, FiberTask(id)) == Owes(s', id) { PopCount(s, FiberTask(id)); }
    forall t ensures Queued(s', t) == Queued(s, t) { PopCount(s, TimerTask(t)); }
    PopOrder(s);
    PopCount(s, UserTask(0));
    forall id | id in s'.calls ensures CallOk(s', id) { assert CallOk(s, id); }
    forall t | t in s'.timers ensures Live(s', t) { assert Live(s, t); }
    forall t | Queued(s', t) == 1 ensures Live(s', t) { assert Queued(s, t) == 1; assert Live(s, t); }
  }

  // ---------- the timeout callback ----------

  /** The callback's own bookkeeping, before its cancelEvent. */
  function Marked(s: Sys): Sys
    requires s.io.queue != [] && s.io.queue[0].id in s.owner && s.owner[s.io.queue[0].id] in s.calls
  {
    var t := s.io.queue[0].id;
    var id := s.owner[t];
    Popped(s).(fired := s.fired + {t}, calls := s.calls[id := s.calls[id].(cancelled := true)])
  }

  lemma TimerHead(s: Sys)
    requires Wf(s) && s.io.queue != [] && s.io.queue[0].TimerTask?
    ensures var t := s.io.queue[0].id; Live(s, t) && Queued(s, t) == 1 && t !in s.timers
  {
    hide Inv, Owed, OrderOk;
    var t := s.io.queue[0].id;
    assert s.io.queue[0] == TimerTask(t);
    assert TimerTask(t) in multiset(s.io.queue);
  }

  lemma MarkedCalls(s: Sys, id: nat)
    requires Wf(s) && s.io.queue != [] && s.io.queue[0].TimerTask? && Live(s, s.io.queue[0].id) && id in s.calls
    ensures id in Marked(s).calls && CallOk(Marked(s), id) && Owes(Marked(s), id) == Owes(s, id)
  {
    hide Inv, Owed, OrderOk;
    var t := s.io.queue[0].id;
    TimerHead(s);
    assert CallOk(s, id);
    var c := s.calls[id];
    if c.phase.Suspended? && c.timer.Some? {
      PopCount(s, TimerTask(c.timer.value));
    }
  }

  lemma MarkedLive(s: Sys, t: nat)
    requires Wf(s) && s.io.queue != [] && s.io.queue[0].TimerTask? && Live(s, s.io.queue[0].id)
    requires t in s.timers || (Queued(s, t) == 1 && t != s.io.queue[0].id)
    ensures Live(Marked(s), t)
  {
    hide Inv, Owed, OrderOk;
    TimerHead(s);
    assert Live(s, t);
  }

  lemma MarkedOrder(s: Sys)
    requires Wf(s) && s.io.queue != [] && s.io.queue[0].TimerTask? && Live(s, s.io.queue[0].id)
    ensures OrderOk(Marked(s))
  {
    hide Inv, Owed;
    PopOrder(s);
    var q := Popped(s).io.queue;
    forall i, j | 0 <= i < j < |q| && q[i].FiberTask? && q[j].TimerTask?
      ensures !(q[i].id in Marked(s).calls && Marked(s).calls[q[i].id].timer == Some(q[j].id))
    {
      assert !(q[i].id in s.calls && s.calls[q[i].id].timer == Some(q[j].id));
    }
  }

  lemma MarkedWf(s: Sys)
    requires Wf(s) && s.io.queue != [] && s.io.queue[0].TimerTask? && Live(s, s.io.queue[0].id)
    ensures Wf(Marked(s))
  {
    hide Inv, Owed, OrderOk, CallOk, Live;
    LiveOwner(s, s.io.queue[0].id);
    var s', t := Marked(s), s.io.queue[0].id;
    PopCount(s, UserTask(0));
    TimerHead(s);
    forall id ensures Owed(s'.io, FiberTask(id)) == Owes(s', id) {
      PopCount(s, FiberTask(id));
      if id in s.calls { MarkedCalls(s, id); }
    }
    forall id | id in s'.calls ensures CallOk(s', id) { MarkedCalls(s, id); }
    forall x ensures Queued(s', x) == Queued(s, x) - (if x == t then 1 else 0) { PopCount(s, TimerTask(x)); }
    forall x | x in s'.timers ensures Live(s', x) && Queued(s', x) == 0 { MarkedLive(s, x); }
    forall x | Queued(s', x) == 1 ensures Live(s', x) {
      assert Queued(s, x) <= 1;
      MarkedLive(s, x);
    }
    MarkedOrder(s);
  }

  lemma LiveOwner(s: Sys, t: nat)
    requires Live(s, t)
    ensures t in s.owner && s.owner[t] in s.calls
  {
  }

  lemma RunTimerWf(s: Sys, accepted: bool)
    requires Wf(s) && Enabled(s, RunTimer(accepted))
    ensures Wf(Next(s, RunTimer(accepted)))
  {
    TimerHead(s);
    var t := s.io.queue[0].id;
    var c := s.calls[s.owner[t]];
    assert c.phase.Suspended? && !c.cancelled;
    MarkedWf(s);
    assert Inv(Popped(s).io) by { PopCount(s, UserTask(0)); }
    hide Wf, Inv, Owed, TakeEvent;
    CancelMoves(Popped(s).io, c.fd, c.e, accepted);
    MovesWf(Marked(s), CancelEvent(Popped(s).io, c.fd, c.e, accepted).0);
  }

  // ---------- resuming ----------

  /** A queued fiber is suspended, and its timer is not queued behind it. */
  lemma FiberHead(s: Sys)
    requires Wf(s) && s.io.queue != [] && s.io.queue[0].FiberTask?
    ensures var id := s.io.queue[0].id;
      id in s.calls && s.calls[id].phase.Suspended?
      && (s.calls[id].timer.Some? ==> Queued(s, s.calls[id].timer.value) == 0)
  {
    hide Inv, CallOk, Live;
    var id := s.io.queue[0].id;
    assert s.io.queue[0] == FiberTask(id);
    assert Owed(s.io, FiberTask(id)) >= 1;
    assert Owes(s, id) == 1;
    var timer := s.calls[id].timer;
    if timer.Some? && Queued(s, timer.value) > 0 {
      assert false;
    }
  }

  lemma WokenCall(s: Sys, id: nat)
    requires Wf(s) && FiberFirst(s) && id in s.calls
    ensures CallOk(Woken(s), id)
    ensures Owes(Woken(s), id) == Owes(s, id) - (if id == s.io.queue[0].id then 1 else 0)
  {
    hide Inv, Owed, OrderOk;
    FiberHead(s);
    assert CallOk(s, id);
    assert CallOk(s, s.io.queue[0].id);
    var c := s.calls[id];
    if c.timer.Some? { PopCount(s, TimerTask(c.timer.value)); }
  }

  lemma WokenLive(s: Sys, t: nat)
    requires Wf(s) && FiberFirst(s) && (t in Woken(s).timers || Queued(s, t) == 1)
    ensures Live(Woken(s), t)
  {
    hide Inv, Owed, OrderOk;
    FiberHead(s);
    assert Live(s, t);
  }

  lemma WokenOrder(s: Sys)
    requires Wf(s) && FiberFirst(s)
    ensures OrderOk(Woken(s))
  {
    hide Inv, Owed;
    PopOrder(s);
    var q := Popped(s).io.queue;
    forall i, j | 0 <= i < j < |q| && q[i].FiberTask? && q[j].TimerTask?
      ensures !(q[i].id in Woken(s).calls && Woken(s).calls[q[i].id].timer == Some(q[j].id))
    {
      assert !(q[i].id in s.calls && s.calls[q[i].id].timer == Some(q[j].id));
    }
  }

  lemma WokenWf(s: Sys)
    requires Wf(s) && FiberFirst(s)
    ensures Wf(Woken(s))
  {
    hide Inv, Owed, OrderOk, CallOk, Live;
    var s' := Woken(s);
    PopCount(s, UserTask(0));
    forall id ensures Owed(s'.io, FiberTask(id)) == Owes(s', id) {
      PopCount(s, FiberTask(id));
      if id in s.calls { WokenCall(s, id); }
    }
    forall id | id in s'.calls ensures CallOk(s', id) { WokenCall(s, id); }
    forall t ensures Queued(s', t) == Queued(s, t) { PopCount(s, TimerTask(t)); }
    forall t | t in s'.timers ensures Live(s', t) && Queued(s', t) == 0 { WokenLive(s, t); }
    forall t | Queued(s', t) == 1 ensures Live(s', t) { WokenLive(s, t); }
    WokenOrder(s);
  }

  // ---------- suspending ----------

  /** A call that is not waiting, about to wait. */
  predicate CanWait(s: Sys, id: nat, c: Call) {
    && (id in s.calls ==> s.calls[id].phase.Returned?)
    && !c.cancelled && c.suspends == c.resumes && Free(s.io, c.fd, c.e)
  }

  lemma FreshTimer(s: Sys)
    requires Wf(s)
    ensures s.nextTimer !in s.timers && s.nextTimer !in s.owner && s.nextTimer !in s.fired
    ensures Queued(s, s.nextTimer) == 0
  {
    hide Inv, Owed, OrderOk, CallOk;
  }

  lemma SuspendCall(s: Sys, id: nat, c: Call, timed: bool, accepted: bool, x: nat)
    requires Wf(s) && CanWait(s, id, c) && (x in s.calls || x == id)
    requires Suspend(s, id, c, timed, accepted).io.queue == s.io.queue
    ensures CallOk(Suspend(s, id, c, timed, accepted), x)
  {
    hide Inv, Owed, OrderOk, AddEvent;
    FreshTimer(s);
    if x != id { assert CallOk(s, x); }
  }

  lemma SuspendLive(s: Sys, id: nat, c: Call, timed: bool, accepted: bool, t: nat)
    requires Wf(s) && CanWait(s, id, c) && (t in Suspend(s, id, c, timed, accepted).timers || Queued(s, t) == 1)
    requires Suspend(s, id, c, timed, accepted).io.queue == s.io.queue
    ensures Live(Suspend(s, id, c, timed, accepted), t)
  {
    hide Inv, Owed, OrderOk, AddEvent;
    FreshTimer(s);
    if t in s.timers || Queued(s, t) == 1 { assert Live(s, t); }
  }

  lemma SuspendOrder(s: Sys, id: nat, c: Call, timed: bool, accepted: bool)
    requires Wf(s) && CanWait(s, id, c) && Suspend(s, id, c, timed, accepted).io.queue == s.io.queue
    ensures OrderOk(Suspend(s, id, c, timed, accepted))
  {
    hide Inv, AddEvent, CallOk, Live;
    var s', q := Suspend(s, id, c, timed, accepted), s.io.queue;
    assert Owed(s.io, FiberTask(id)) == 0;
    forall i, j | 0 <= i < j < |q| && q[i].FiberTask? && q[j].TimerTask?
      ensures !(q[i].id in s'.calls && s'.calls[q[i].id].timer == Some(q[j].id))
    {
      assert q[i] in multiset(q);
      assert q[i] == FiberTask(q[i].id);
      assert q[i].id != id;
      assert !(q[i].id in s.calls && s.calls[q[i].id].timer == Some(q[j].id));
    }
  }

  lemma SuspendWf(s: Sys, id: nat, c: Call, timed: bool, accepted: bool)
    requires Wf(s) && CanWait(s, id, c)
    ensures Wf(Suspend(s, id, c, timed, accepted))
  {
    hide Inv, Owed, OrderOk, CallOk, Live, AddEvent;
    var s', f := Suspend(s, id, c, timed, accepted), FiberTask(id);
    AddEventKeeps(s.io, c.fd, c.e, f, accepted, f);
    FreshTimer(s);
    forall x ensures Owed(s'.io, FiberTask(x)) == Owes(s', x) {
      AddEventKeeps(s.io, c.fd, c.e, f, accepted, FiberTask(x));
    }
    forall x | x in s'.calls ensures CallOk(s', x) { SuspendCall(s, id, c, timed, accepted, x); }
    forall t ensures Waiting(s'.io.ctxs, TimerTask(t)) == 0 {
      AddEventKeeps(s.io, c.fd, c.e, f, accepted, TimerTask(t));
      OwedParts(s.io, TimerTask(t));
      OwedParts(s'.io, TimerTask(t));
    }
    forall t ensures Queued(s', t) == Queued(s, t) {}
    forall t | t in s'.timers ensures Live(s', t) && Queued(s', t) == 0 { SuspendLive(s, id, c, timed, accepted, t); }
    forall t | Queued(s', t) == 1 ensures Live(s', t) { SuspendLive(s, id, c, timed, accepted, t); }
    SuspendOrder(s, id, c, timed, accepted);
  }

  lemma OwedParts(io: Io, t: Task)
    ensures Owed(io, t) == multiset(io.queue)[t] + Waiting(io.ctxs, t)
  {
  }

  lemma CanRetry(s: Sys, retry: Retry)
    requires Wf(s) && Enabled(s, Resume(retry)) && retry.Again? && !s.calls[s.io.queue[0].id].cancelled
    ensures var id := s.io.queue[0].id; CanWait(Woken(s), id, Woken(s).calls[id])
  {
    hide Inv, Owed, OrderOk, Live;
    FiberHead(s);
    assert CallOk(s, s.io.queue[0].id);
  }

  lemma ResumeWf(s: Sys, retry: Retry)
    requires Wf(s) && Enabled(s, Resume(retry))
    ensures Wf(Next(s, Resume(retry)))
  {
    hide Wf, CallOk, Suspend, CanWait;
    WokenWf(s);
    var id := s.io.queue[0].id;
    if !s.calls[id].cancelled && retry.Again? {
      CanRetry(s, retry);
      SuspendWf(Woken(s), id, Woken(s).calls[id], retry.timed, retry.accepted);
    }
  }

  // ---------- the idle round ----------

  lemma {:induction false} TimerTasksCount(xs: seq<nat>, t: Task)
    requires Distinct(xs)
    ensures multiset(TimerTasks(xs))[t] == if t.TimerTask? && t.id in xs then 1 else 0
  {
    if xs != [] {
      var n := |xs| - 1;
      TimerTasksCount(xs[..n], t);
      assert TimerTasks(xs) == TimerTasks(xs[..n]) + [TimerTask(xs[n])];
      assert xs == xs[..n] + [xs[n]];
    }
  }

  /** The first half of an idle round: the expired callbacks are queued. */
  function Expired(s: Sys, expired: seq<nat>): Sys {
    s.(io := s.io.(queue := TimerTasks(expired)), timers := s.timers - (set i | 0 <= i < |expired| :: expired[i]))
  }

  predicate CanExpire(s: Sys, expired: seq<nat>) {
    s.io.queue == [] && Distinct(expired) && forall i :: 0 <= i < |expired| ==> expired[i] in s.timers
  }

  lemma ExpiredCounts(s: Sys, expired: seq<nat>, t: Task)
    requires Inv(s.io) && CanExpire(s, expired)
    ensures Inv(Expired(s, expired).io)
    ensures Owed(Expired(s, expired).io, t) == Owed(s.io, t) + if t.TimerTask? && t.id in expired then 1 else 0
    ensures Queued(Expired(s, expired), t.id) == if t.id in expired then 1 else 0
  {
    TimerTasksCount(expired, t);
    TimerTasksCount(expired, TimerTask(t.id));
  }

  lemma ExpiredCall(s: Sys, expired: seq<nat>, id: nat)
    requires Wf(s) && CanExpire(s, expired) && id in s.calls
    ensures CallOk(Expired(s, expired), id)
  {
    hide Inv, Owed, OrderOk, TimerTasks;
    assert CallOk(s, id);
    var c := s.calls[id];
    if c.timer.Some? { ExpiredCounts(s, expired, TimerTask(c.timer.value)); }
  }

  lemma ExpiredWf(s: Sys, expired: seq<nat>)
    requires Wf(s) && CanExpire(s, expired)
    ensures Wf(Expired(s, expired))
  {
    var s' := Expired(s, expired);
    assert OrderOk(s');
    hide Inv, Owed, OrderOk, CallOk, TimerTasks;
    ExpiredCounts(s, expired, UserTask(0));
    forall id ensures Owed(s'.io, FiberTask(id)) == Owes(s', id) { ExpiredCounts(s, expired, FiberTask(id)); }
    forall id | id in s'.calls ensures CallOk(s', id) { ExpiredCall(s, expired, id); }
    forall t ensures Queued(s', t) == if t in expired then 1 else 0 { ExpiredCounts(s, expired, TimerTask(t)); }
    forall t | Queued(s', t) == 1 ensures Live(s', t) { assert t in s.timers; assert Live(s, t); }
    forall t | t in s'.timers ensures Live(s', t) && Queued(s', t) == 0 { assert Live(s, t); }
  }

  // ---------- every step, every run ----------

  lemma AddUserMoves(io: Io, fd: nat, e: Event, id: nat, accepted: bool)
    requires Inv(io) && Free(io, fd, e)
    ensures Moves(io, AddEvent(io, fd, e, UserTask(id), accepted).0)
  {
    hide Inv, AddEvent, Owed;
    forall t: Task | !t.UserTask? ensures Owed(AddEvent(io, fd, e, UserTask(id), accepted).0, t) == Owed(io, t) {
      AddEventKeeps(io, fd, e, UserTask(id), accepted, t);
    }
    AddEventKeeps(io, fd, e, UserTask(id), accepted, UserTask(0));
  }

  lemma IdleWf(s: Sys, expired: seq<nat>, batch: seq<Report>)
    requires Wf(s) && Enabled(s, Step.Idle(expired, batch))
    ensures Wf(Next(s, Step.Idle(expired, batch)))
  {
    ExpiredWf(s, expired);
    var x := Expired(s, expired);
    assert Inv(x.io);
    hide Wf, Inv, HandleBatch, TimerTasks;
    BatchMoves(x.io, batch);
    MovesWf(x, HandleBatch(x.io, batch));
  }

  lemma NextWf(s: Sys, a: Step)
    requires Wf(s) && Enabled(s, a)
    ensures Wf(Next(s, a))
  {
    assert Inv(s.io);
    hide Wf, Inv, Suspend, TakeEvent, CancelAll, AddEvent, Expired, TimerRan, Resumed;
    match a
    case Start(id, fd, e, timed, accepted) =>
      SuspendWf(s, id, Call(fd, e, None, false, Returned(false), 0, 0), timed, accepted);
    case Cancel(fd, e, accepted) =>
      CancelMoves(s.io, fd, e, accepted);
      MovesWf(s, CancelEvent(s.io, fd, e, accepted).0);
    case CancelFd(fd, accepted) =>
      CancelAllMoves(s.io, fd, accepted);
      MovesWf(s, CancelAll(s.io, fd, accepted).0);
    case AddUser(fd, e, id, accepted) =>
      AddUserMoves(s.io, fd, e, id, accepted);
      MovesWf(s, AddEvent(s.io, fd, e, UserTask(id), accepted).0);
    case Idle(expired, batch) => IdleWf(s, expired, batch);
    case RunTimer(accepted) => RunTimerWf(s, accepted);
    case Resume(retry) => ResumeWf(s, retry);
    case RunUser => UserPopWf(s);
  }

  const START := Sys(Io(Resized([], 32), map[], 0, []), {}, {}, map[], map[], 0)

  ghost predicate IsRun(states: seq<Sys>, steps: seq<Step>) {
    && |states| == |steps| + 1 && states[0] == START
    && forall i :: 0 <= i < |steps| ==> Enabled(states[i], steps[i]) && states[i + 1] == Next(states[i], steps[i])
  }

  lemma {:induction false} NothingWaits(ctxs: seq<FdContext>, t: Task)
    requires forall i :: 0 <= i < |ctxs| ==> ctxs[i] == Fresh(i)
    ensures Waiting(ctxs, t) == 0
  {
    if ctxs != [] { NothingWaits(ctxs[..|ctxs| - 1], t); }
  }

  lemma StartWf()
    ensures Wf(START)
  {
    StartInv();
    StartBits([], 32);
    hide Resized, Inv;
    forall t: Task ensures Waiting(START.io.ctxs, t) == 0 { NothingWaits(START.io.ctxs, t); }
  }

  lemma {:induction false} RunWf(states: seq<Sys>, steps: seq<Step>)
    requires IsRun(states, steps)
    ensures Wf(states[|steps|])
  {
    hide Wf, Next, Enabled;
    if steps == [] {
      StartWf();
    } else {
      var n := |steps| - 1;
      assert IsRun(states[..n + 1], steps[..n]);
      RunWf(states[..n + 1], steps[..n]);
      NextWf(states[n], steps[n]);
    }
  }

  // ---------- where a suspended fiber is ----------

  /** A suspended fiber is queued, or waits in the slot of its own call's fd and event. */
  ghost predicate Placed(s: Sys) {
    forall id | id in s.calls && s.calls[id].phase.Suspended? ::
      FiberTask(id) in s.io.queue || Holds(s.io, s.calls[id].fd, s.calls[id].e, FiberTask(id))
  }

  /** What waits goes on waiting at its place or is queued; what is queued stays so, in order. */
  ghost predicate Stays(io: Io, io': Io) {
    && io.queue <= io'.queue
    && forall fd: nat, e: Event, t: Task | Holds(io, fd, e, t) :: Holds(io', fd, e, t) || t in io'.queue
  }

  lemma CancelStays(io: Io, fd: nat, e: Event, accepted: bool)
    requires Inv(io)
    ensures Stays(io, CancelEvent(io, fd, e, accepted).0)
  {
    hide Inv, TakeEvent;
    TakeEventTakes(io, fd, e, true, accepted);
  }

  lemma CancelAllStays(io: Io, fd: nat, accepted: bool)
    requires Inv(io)
    ensures Stays(io, CancelAll(io, fd, accepted).0)
  {
    hide Inv, CancelAll;
    CancelAllTakes(io, fd, accepted);
  }

  lemma AddStays(io: Io, fd: nat, e: Event, t: Task, accepted: bool)
    requires Inv(io) && Free(io, fd, e)
    ensures Stays(io, AddEvent(io, fd, e, t, accepted).0)
  {
    hide Inv, AddEvent;
    AddEventArms(io, fd, e, t, accepted);
    AddEventKeeps(io, fd, e, t, accepted, t);
  }

  lemma {:induction false} CoveredWakes(io: Io, batch: seq<Report>, j: nat, e: Event, t: Task)
    requires (forall i :: 0 <= i < |batch| ==> batch[i].fd < |io.ctxs|) && j < |batch|
    requires Covered(io.ctxs[batch[j].fd], batch[j], e) && io.ctxs[batch[j].fd].At(e).Continuation() == Some(t)
    ensures t in WokenBy(io, batch)
  {
    var n := |batch| - 1;
    if j < n { CoveredWakes(io, batch[..n], j, e, t); }
  }

  lemma BatchStays(io: Io, batch: seq<Report>)
    requires Inv(io) && BatchFits(io, batch)
    ensures Stays(io, HandleBatch(io, batch))
  {
    hide Inv, HandleBatch, WokenBy, Covered;
    BatchWakes(io, batch);
    BatchKeeps(io, batch, UserTask(0));
    var io' := HandleBatch(io, batch);
    forall fd: nat, e: Event, t: Task | Holds(io, fd, e, t) ensures Holds(io', fd, e, t) || t in io'.queue {
      if j :| 0 <= j < |batch| && batch[j].fd == fd {
        assert Answered(io.ctxs[fd], io'.ctxs[fd], batch[j]);
        if Covered(io.ctxs[fd], batch[j], e) { CoveredWakes(io, batch, j, e, t); }
      }
    }
  }

  lemma StaysPlaced(s: Sys, io': Io)
    requires Placed(s) && Stays(s.io, io')
    ensures Placed(s.(io := io'))
  {
  }

  lemma SuspendPlaced(s: Sys, id: nat, c: Call, timed: bool, accepted: bool)
    requires Inv(s.io) && Placed(s) && Free(s.io, c.fd, c.e)
    ensures Placed(Suspend(s, id, c, timed, accepted))
  {
    hide Inv, AddEvent;
    AddStays(s.io, c.fd, c.e, FiberTask(id), accepted);
    AddEventArms(s.io, c.fd, c.e, FiberTask(id), accepted);
  }

  /** Taking the head away leaves every other fiber where it was. */
  lemma PopPlaced(s: Sys)
    requires Placed(s) && s.io.queue != []
    ensures forall id | id in s.calls && s.calls[id].phase.Suspended? && s.io.queue[0] != FiberTask(id) ::
      var io := Popped(s).io;
      FiberTask(id) in io.queue || Holds(io, s.calls[id].fd, s.calls[id].e, FiberTask(id))
  {
    assert s.io.queue == [s.io.queue[0]] + s.io.queue[1..];
  }

  lemma RunTimerPlaced(s: Sys, accepted: bool)
    requires Wf(s) && Placed(s) && Enabled(s, RunTimer(accepted))
    ensures Placed(Next(s, RunTimer(accepted)))
  {
    TimerHead(s);
    PopCount(s, UserTask(0));
    var c := s.calls[s.owner[s.io.queue[0].id]];
    hide Inv, Owed, TakeEvent, Wf;
    PopPlaced(s);
    CancelStays(Popped(s).io, c.fd, c.e, accepted);
    StaysPlaced(Marked(s), CancelEvent(Popped(s).io, c.fd, c.e, accepted).0);
  }

  lemma ResumePlaced(s: Sys, retry: Retry)
    requires Wf(s) && Placed(s) && Enabled(s, Resume(retry))
    ensures Placed(Next(s, Resume(retry)))
  {
    PopCount(s, UserTask(0));
    hide Inv, Owed, Suspend, Wf, Holds;
    var id := s.io.queue[0].id;
    PopPlaced(s);
    assert Placed(Woken(s));
    if !s.calls[id].cancelled && retry.Again? {
      CanRetry(s, retry);
      SuspendPlaced(Woken(s), id, Woken(s).calls[id], retry.timed, retry.accepted);
    }
  }

  lemma IdlePlaced(s: Sys, expired: seq<nat>, batch: seq<Report>)
    requires Wf(s) && Placed(s) && Enabled(s, Step.Idle(expired, batch))
    ensures Placed(Next(s, Step.Idle(expired, batch)))
  {
    ExpiredCounts(s, expired, UserTask(0));
    hide Wf, Inv, HandleBatch;
    var x := Expired(s, expired);
    assert Placed(x);
    BatchStays(x.io, batch);
    StaysPlaced(x, HandleBatch(x.io, batch));
  }

  lemma NextPlaced(s: Sys, a: Step)
    requires Wf(s) && Placed(s) && Enabled(s, a)
    ensures Placed(Next(s, a))
  {
    assert Inv(s.io);
    hide Wf, Inv, Suspend, TakeEvent, CancelAll, AddEvent, Expired, TimerRan, Resumed, Placed;
    match a
    case Start(id, fd, e, timed, accepted) =>
      SuspendPlaced(s, id, Call(fd, e, None, false, Returned(false), 0, 0), timed, accepted);
    case Cancel(fd, e, accepted) =>
      CancelStays(s.io, fd, e, accepted);
      StaysPlaced(s, CancelEvent(s.io, fd, e, accepted).0);
    case CancelFd(fd, accepted) =>
      CancelAllStays(s.io, fd, accepted);
      StaysPlaced(s, CancelAll(s.io, fd, accepted).0);
    case AddUser(fd, e, id, accepted) =>
      AddStays(s.io, fd, e, UserTask(id), accepted);
      StaysPlaced(s, AddEvent(s.io, fd, e, UserTask(id), accepted).0);
    case Idle(expired, batch) => IdlePlaced(s, expired, batch);
    case RunTimer(accepted) => RunTimerPlaced(s, accepted);
    case Resume(retry) => ResumePlaced(s, retry);
    case RunUser => UserPopPlaced(s);
  }

  lemma UserPopPlaced(s: Sys)
    requires Placed(s) && s.io.queue != [] && s.io.queue[0].UserTask?
    ensures Placed(Popped(s))
  {
    PopPlaced(s);
  }

  lemma {:induction false} RunPlaced(states: seq<Sys>, steps: seq<Step>)
    requires IsRun(states, steps)
    ensures Placed(states[|steps|])
  {
    hide Wf, Next, Enabled, Placed;
    if steps == [] {
      assert Placed(START) by { StartPlaced(); }
    } else {
      var n := |steps| - 1;
      assert IsRun(states[..n + 1], steps[..n]);
      RunWf(states[..n + 1], steps[..n]);
      RunPlaced(states[..n + 1], steps[..n]);
      NextPlaced(states[n], steps[n]);
    }
  }

  lemma StartPlaced()
    ensures Placed(START)
  {
  }

  // ---------- the queue is first-in first-out ----------

  predicate Takes(a: Step) { a.RunTimer? || a.Resume? || a.RunUser? }

  /** How many of the steps take the head of the queue. */
  function Taken(steps: seq<Step>): nat {
    if steps == [] then 0 else Taken(steps[..|steps| - 1]) + if Takes(steps[|steps| - 1]) then 1 else 0
  }

  lemma NextQueue(s: Sys, a: Step)
    requires Wf(s) && Enabled(s, a)
    ensures (if Takes(a) then s.io.queue[1..] else s.io.queue) <= Next(s, a).io.queue
  {
    assert Inv(s.io);
    hide Wf, Inv, TakeEvent, CancelAll, AddEvent, Holds, TimerRan, Resumed;
    match a
    case Start(id, fd, e, timed, accepted) => AddStays(s.io, fd, e, FiberTask(id), accepted);
    case Cancel(fd, e, accepted) => CancelStays(s.io, fd, e, accepted);
    case CancelFd(fd, accepted) => CancelAllStays(s.io, fd, accepted);
    case AddUser(fd, e, id, accepted) => AddStays(s.io, fd, e, UserTask(id), accepted);
    case Idle(expired, batch) =>
    case RunTimer(accepted) => TimerRanQueue(s, accepted);
    case Resume(retry) => ResumedQueue(s, retry);
    case RunUser =>
  }

  lemma TimerRanQueue(s: Sys, accepted: bool)
    requires Wf(s) && Enabled(s, RunTimer(accepted))
    ensures s.io.queue[1..] <= TimerRan(s, accepted).io.queue
  {
    PopCount(s, UserTask(0));
    hide Wf, Inv, Owed, TakeEvent, Holds;
    var c := s.calls[s.owner[s.io.queue[0].id]];
    CancelStays(Popped(s).io, c.fd, c.e, accepted);
  }

  lemma ResumedQueue(s: Sys, retry: Retry)
    requires Wf(s) && Enabled(s, Resume(retry))
    ensures s.io.queue[1..] <= Resumed(s, retry).io.queue
  {
    PopCount(s, UserTask(0));
    hide Wf, Inv, Owed, AddEvent, Holds;
    var c := s.calls[s.io.queue[0].id];
    if retry.Again? { AddStays(Woken(s).io, c.fd, c.e, FiberTask(s.io.queue[0].id), retry.accepted); }
  }

  /** A task at position `k` of the queue is the head once `k` tasks have been taken, whatever else happens. */
  lemma {:induction false} TurnComes(states: seq<Sys>, steps: seq<Step>, i: nat, j: nat, k: nat)
    requires IsRun(states, steps) && i <= j <= |steps| && k < |states[i].io.queue| && Taken(steps[i..j]) <= k
    ensures var m := k - Taken(steps[i..j]); m < |states[j].io.queue| && states[j].io.queue[m] == states[i].io.queue[k]
    decreases j
  {
    hide Wf, Next, Enabled;
    if i == j {
      assert steps[i..j] == [];
    } else {
      assert steps[i..j][..j - i - 1] == steps[i..j - 1];
      TurnComes(states, steps, i, j - 1, k);
      ReachableWf(states, steps, j - 1);
      NextQueue(states[j - 1], steps[j - 1]);
    }
  }

  lemma ReachableWf(states: seq<Sys>, steps: seq<Step>, i: nat)
    requires IsRun(states, steps) && i <= |steps|
    ensures Wf(states[i]) && Placed(states[i])
  {
    hide Wf, Placed, Next, Enabled;
    assert IsRun(states[..i + 1], steps[..i]);
    RunWf(states[..i + 1], steps[..i]);
    RunPlaced(states[..i + 1], steps[..i]);
  }

  // ---------- what do_io promises ----------

  /** In every reachable state: a call was resumed once per suspension, except for the one it is in now; that one
      is owed exactly one resumption, a finished call none; and it finished with ETIMEDOUT exactly when the
      callback of its last timer ran. */
  lemma ResumedOnce(states: seq<Sys>, steps: seq<Step>, id: nat)
    requires IsRun(states, steps) && id in states[|steps|].calls
    ensures var s := states[|steps|]; var c := s.calls[id];
      && Owed(s.io, FiberTask(id)) == c.suspends - c.resumes
      && (c.phase.Suspended? ==> c.suspends == c.resumes + 1)
      && (c.phase.Returned? ==> c.suspends == c.resumes)
      && (c.phase.Returned? ==> (c.phase.timedOut <==> c.timer.Some? && c.timer.value in s.fired))
  {
    hide Next, Enabled, Inv, Owed, OrderOk, Live;
    RunWf(states, steps);
    assert CallOk(states[|steps|], id);
  }

  /** Whenever a timeout callback reaches a worker, its call is still waiting on that very attempt and unmarked,
      so the callback always marks it: the guard at hook.cpp, lines 129-131, never fires on one dispatching thread. */
  lemma CallbackFindsItsCall(states: seq<Sys>, steps: seq<Step>)
    requires IsRun(states, steps)
    ensures var s := states[|steps|];
      s.io.queue != [] && s.io.queue[0].TimerTask? ==>
        var t := s.io.queue[0].id;
        t in s.owner && s.owner[t] in s.calls && s.calls[s.owner[t]].phase.Suspended?
        && s.calls[s.owner[t]].timer == Some(t) && !s.calls[s.owner[t]].cancelled
  {
    hide Next, Enabled, Wf;
    RunWf(states, steps);
    if states[|steps|].io.queue != [] && states[|steps|].io.queue[0].TimerTask? { TimerHead(states[|steps|]); }
  }

  /** Whenever a fiber reaches a worker it is a waiting call; the resumption reports ETIMEDOUT exactly when its
      timer's callback ran, and exactly then `timer->cancel()` (hook.cpp, line 141) looks up a timer that has left the
      set. */
  lemma CancelMissesFiredTimer(states: seq<Sys>, steps: seq<Step>)
    requires IsRun(states, steps)
    ensures var s := states[|steps|];
      s.io.queue != [] && s.io.queue[0].FiberTask? ==>
        var id := s.io.queue[0].id;
        FiberFirst(s) && s.calls[id].phase.Suspended?
        && var c := s.calls[id]; var out := Woken(s).calls[id].phase;
        && (out.timedOut <==> c.timer.Some? && c.timer.value in s.fired)
        && (out.timedOut <==> c.timer.Some? && c.timer.value !in s.timers)
  {
    hide Next, Enabled, Inv, Owed, OrderOk, Live;
    RunWf(states, steps);
    var s := states[|steps|];
    if s.io.queue != [] && s.io.queue[0].FiberTask? {
      FiberHead(s);
      assert CallOk(s, s.io.queue[0].id);
    }
  }

  // ---------- who wakes a waiting call ----------

  /** A timeout whose cancelEvent the kernel accepts wakes its call, whatever event it waits for: the fiber is queued
      and its event is no longer armed. */
  lemma TimeoutWakes(states: seq<Sys>, steps: seq<Step>)
    requires IsRun(states, steps)
    requires states[|steps|].io.queue != [] && states[|steps|].io.queue[0].TimerTask?
    ensures var s := states[|steps|]; var t := s.io.queue[0].id;
      && Enabled(s, RunTimer(true))
      && var id, s' := s.owner[t], Next(s, RunTimer(true)); var c := s.calls[id];
      && FiberTask(id) in s'.io.queue && !IsArmed(s'.io, c.fd, c.e)
      && s'.calls == s.calls[id := c.(cancelled := true)] && s'.fired == s.fired + {t}
  {
    hide Wf, Placed, Next, Enabled;
    RunWf(states, steps);
    RunPlaced(states, steps);
    TimerHead(states[|steps|]);
    WakesOwner(states[|steps|]);
  }

  lemma WakesOwner(s: Sys)
    requires Wf(s) && Placed(s) && s.io.queue != [] && s.io.queue[0].TimerTask?
    ensures var t := s.io.queue[0].id;
      && Enabled(s, RunTimer(true))
      && var id, s' := s.owner[t], Next(s, RunTimer(true)); var c := s.calls[id];
      && FiberTask(id) in s'.io.queue && !IsArmed(s'.io, c.fd, c.e)
      && s'.calls == s.calls[id := c.(cancelled := true)] && s'.fired == s.fired + {t}
  {
    TimerHead(s);
    PopCount(s, UserTask(0));
    hide Wf, Inv, Owed, TakeEvent;
    var id := s.owner[s.io.queue[0].id];
    var c, io := s.calls[id], Popped(s).io;
    PopPlaced(s);
    TakeEventTakes(io, c.fd, c.e, true, true);
    CancelStays(io, c.fd, c.e, true);
    var io' := CancelEvent(io, c.fd, c.e, true).0;
    assert Next(s, RunTimer(true)).io == io';
    assert Holds(io', c.fd, c.e, FiberTask(id)) ==> IsArmed(io', c.fd, c.e);
  }

  /** A report that covers the event a call waits for wakes it. */
  lemma ReadinessWakes(states: seq<Sys>, steps: seq<Step>, id: nat, expired: seq<nat>, batch: seq<Report>, j: nat)
    requires IsRun(states, steps) && id in states[|steps|].calls && states[|steps|].calls[id].phase.Suspended?
    requires Enabled(states[|steps|], Step.Idle(expired, batch)) && j < |batch| && batch[j].accepted
    requires var c := states[|steps|].calls[id]; batch[j].fd == c.fd && (batch[j].error || batch[j].ready.Has(c.e))
    ensures var s := states[|steps|]; var c, s' := s.calls[id], Next(s, Step.Idle(expired, batch));
      FiberTask(id) in s'.io.queue && !IsArmed(s'.io, c.fd, c.e)
  {
    var s := states[|steps|];
    RunWf(states, steps);
    RunPlaced(states, steps);
    ExpiredCounts(s, expired, UserTask(0));
    hide Inv, Wf, HandleBatch, WokenBy, IsRun;
    var x, c := Expired(s, expired), s.calls[id];
    assert Holds(x.io, c.fd, c.e, FiberTask(id));
    BatchWakes(x.io, batch);
    assert Answered(x.io.ctxs[c.fd], HandleBatch(x.io, batch).ctxs[c.fd], batch[j]);
    CoveredWakes(x.io, batch, j, c.e, FiberTask(id));
  }

  lemma OnceQueued(s: Sys, id: nat, m: nat)
    requires Wf(s) && 0 < m < |s.io.queue| && s.io.queue[m] == FiberTask(id)
    ensures s.io.queue[0] != FiberTask(id)
  {
    hide Inv, OrderOk, CallOk, Live;
    var q := s.io.queue;
    assert q == [q[0]] + q[1..] && q[1..][m - 1] == q[m];
    assert multiset(q[1..])[FiberTask(id)] >= 1;
    assert Owed(s.io, FiberTask(id)) == Owes(s, id);
  }

  /** Only its own resumption changes the record of a call that is marked. */
  lemma MarkStays(s: Sys, a: Step, id: nat)
    requires Wf(s) && Enabled(s, a) && id in s.calls && s.calls[id].phase.Suspended? && s.calls[id].cancelled
    requires a.Resume? ==> s.io.queue[0] != FiberTask(id)
    ensures id in Next(s, a).calls && Next(s, a).calls[id] == s.calls[id]
  {
    hide Wf, AddEvent, TakeEvent, CancelAll, HandleBatch;
    if a.RunTimer? { TimerHead(s); }
  }

  lemma {:induction false} MarkedUntilResumed(states: seq<Sys>, steps: seq<Step>, i: nat, j: nat, k: nat, id: nat)
    requires IsRun(states, steps) && i <= j <= |steps| && k < |states[i].io.queue| && Taken(steps[i..j]) <= k
    requires states[i].io.queue[k] == FiberTask(id)
    requires id in states[i].calls && states[i].calls[id].phase.Suspended? && states[i].calls[id].cancelled
    ensures id in states[j].calls && states[j].calls[id] == states[i].calls[id]
    decreases j
  {
    hide Wf, Placed, Next, Enabled;
    if i < j {
      assert steps[i..j][..j - i - 1] == steps[i..j - 1];
      MarkedUntilResumed(states, steps, i, j - 1, k, id);
      TurnComes(states, steps, i, j - 1, k);
      ReachableWf(states, steps, j - 1);
      if steps[j - 1].Resume? { OnceQueued(states[j - 1], id, k - Taken(steps[i..j - 1])); }
      MarkStays(states[j - 1], steps[j - 1], id);
    }
  }

  /** The call's fiber is next, and its do_io will return with ETIMEDOUT. */
  predicate ReportsTimeout(s: Sys, id: nat) {
    FiberFirst(s) && s.io.queue[0].id == id && Woken(s).calls[id].phase == Returned(true)
  }

  lemma TurnReports(states: seq<Sys>, steps: seq<Step>, i: nat, j: nat, k: nat, id: nat)
    requires IsRun(states, steps) && i <= j <= |steps| && k < |states[i].io.queue| && Taken(steps[i..j]) == k
    requires states[i].io.queue[k] == FiberTask(id)
    requires id in states[i].calls && states[i].calls[id].phase.Suspended? && states[i].calls[id].cancelled
    ensures ReportsTimeout(states[j], id)
  {
    hide Next, Enabled, Taken;
    TurnComes(states, steps, i, j, k);
    MarkedUntilResumed(states, steps, i, j, k, id);
  }

  /** After the callback the fiber has a place in the queue; when everything before it has been taken it is resumed
      and its call reports ETIMEDOUT, whatever the reactor and all other calls do meanwhile. */
  lemma TimeoutReported(states: seq<Sys>, steps: seq<Step>, i: nat) returns (k: nat)
    requires IsRun(states, steps) && i < |steps| && steps[i] == RunTimer(true)
    ensures states[i].io.queue != [] && states[i].io.queue[0].TimerTask? && states[i].io.queue[0].id in states[i].owner
    ensures var id := states[i].owner[states[i].io.queue[0].id];
      && k < |states[i + 1].io.queue| && states[i + 1].io.queue[k] == FiberTask(id)
      && forall j | i < j <= |steps| && Taken(steps[i + 1..j]) == k ::
           ReportsTimeout(states[j], id)
  {
    ReachableWf(states, steps, i);
    assert Enabled(states[i], steps[i]);
    TimerHead(states[i]);
    hide Wf, Placed, Next, Enabled, Taken, ReportsTimeout, TimerRan, CallOk;
    WakesOwner(states[i]);
    var s, id := states[i + 1], states[i].owner[states[i].io.queue[0].id];
    k :| 0 <= k < |s.io.queue| && s.io.queue[k] == FiberTask(id);
    forall j | i < j <= |steps| && Taken(steps[i + 1..j]) == k ensures ReportsTimeout(states[j], id) {
      TurnReports(states, steps, i + 1, j, k, id);
    }
  }

  // ---------- a call that times out ----------

  /** A call waits for READ on fd 0 with a timeout, the timer expires, its callback runs. */
  const TIMEOUT_RUN: seq<Step> := [Start(5, 0, READ, true, true), Step.Idle([0], []), RunTimer(true)]

  lemma StartTable()
    ensures |START.io.ctxs| == 32 && START.io.ctxs[0] == Fresh(0)
  {
    StartBits([], 32);
    ResizedLength([], 32);
  }

  /** After the first step the event is armed and the timer pending. */
  lemma Waits() returns (s1: Sys)
    ensures Enabled(START, TIMEOUT_RUN[0]) && s1 == Next(START, TIMEOUT_RUN[0])
    ensures s1.io.queue == [] && s1.timers == {0} && s1.owner == map[0 := 5] && s1.fired == {}
    ensures s1.calls == map[5 := Call(0, READ, Some(0), false, Suspended, 1, 0)]
    ensures |s1.io.ctxs| == 32 && s1.io.ctxs[0] == Armed(Fresh(0), READ, FiberTask(5))
  {
    hide Resized;
    StartTable();
    s1 := Next(START, TIMEOUT_RUN[0]);
  }

  /** The run: the fiber is queued with its call marked, and its timer has left the set. */
  lemma TimesOut() returns (states: seq<Sys>)
    ensures IsRun(states, TIMEOUT_RUN)
    ensures var s := states[3];
      && s.io.queue == [FiberTask(5)] && FiberFirst(s) && s.calls[5].cancelled && 0 !in s.timers && 0 in s.fired
      && Woken(s).calls[5].phase == Returned(true)
  {
    hide Resized;
    var s1 := Waits();
    assert Distinct([0]);
    var s2 := Expired(s1, [0]);
    assert TimerTasks([0]) == [TimerTask(0)];
    assert s1.timers - (set i | 0 <= i < |[0]| :: [0][i]) == {} by { assert [0][0] == 0; }
    assert HandleBatch(s2.io, []) == s2.io;
    assert s2 == Next(s1, TIMEOUT_RUN[1]);
    var s3 := Next(s2, TIMEOUT_RUN[2]);
    assert Popped(s2).io.queue == [];
    states := [START, s1, s2, s3];
  }
}
