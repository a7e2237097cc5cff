/** The event half of `IOManager`: fd contexts, the epoll interest table, the pending counter and the task
    queue, as values. The class in IoManager.dfy is proved against these operations. */
module IoEvents {
  import opened Options

  datatype Event = READ | WRITE

  /** An event mask: the READ and WRITE bits. */
  datatype Mask = Mask(read: bool, write: bool) {
    predicate Has(e: Event) { if e.READ? then read else write }
    predicate Any() { read || write }
    function With(e: Event): Mask { if e.READ? then this.(read := true) else this.(write := true) }
    function Without(e: Event): Mask { if e.READ? then this.(read := false) else this.(write := false) }
    function Minus(m: Mask): Mask { Mask(read && !m.read, write && !m.write) }
    function Size(): nat { (if read then 1 else 0) + (if write then 1 else 0) }
  }

  const NONE := Mask(false, false)

  /** What the scheduler's queue holds: a suspended fiber, a timer callback, or any other callback. */
  datatype Task = FiberTask(id: nat) | TimerTask(id: nat) | UserTask(id: nat)

  /** `EventContext`: the scheduler pointer, a fiber and a callback, each possibly null. */
  datatype Slot = Slot(scheduler: bool, fiber: Option<Task>, cb: Option<Task>) {
    predicate Empty() { !scheduler && fiber.None? && cb.None? }
    predicate Filled() { scheduler && fiber.Some? != cb.Some? }
    /** What `triggerEvent` hands to the scheduler: the callback if there is one, else the fiber. */
    function Continuation(): Option<Task> { if cb.Some? then cb else fiber }
  }

  const EMPTY_SLOT := Slot(false, None, None)

  datatype FdContext = FdContext(fd: int, read: Slot, write: Slot, event: Mask) {
    function At(e: Event): Slot { if e.READ? then read else write }
    function Put(e: Event, s: Slot): FdContext { if e.READ? then this.(read := s) else this.(write := s) }
    predicate SlotMatches(e: Event) { if event.Has(e) then At(e).Filled() else At(e).Empty() }
    predicate Consistent() { SlotMatches(READ) && SlotMatches(WRITE) }
    /** How often `t` waits in this context. */
    function Waiting(t: Task): nat {
      (if event.read && read.Continuation() == Some(t) then 1 else 0)
      + (if event.write && write.Continuation() == Some(t) then 1 else 0)
    }
  }

  function Fresh(fd: int): FdContext { FdContext(fd, EMPTY_SLOT, EMPTY_SLOT, NONE) }

  /** `fiber` for a null callback, the callback otherwise: how `addEvent` fills a slot. */
  function Fill(t: Task): Slot {
    if t.FiberTask? then Slot(true, Some(t), None) else Slot(true, None, Some(t))
  }

  datatype CtlOp = ADD | MOD | DEL

  /** The kernel's own rule: ADD needs an unregistered fd, MOD and DEL a registered one. */
  predicate CtlLegal(epoll: map<int, Mask>, op: CtlOp, fd: int) { op.ADD? <==> fd !in epoll }

  function Ctl(epoll: map<int, Mask>, op: CtlOp, fd: int, m: Mask): map<int, Mask> {
    if op.DEL? then epoll - {fd} else epoll[fd := m]
  }

  datatype Io = Io(ctxs: seq<FdContext>, epoll: map<int, Mask>, pending: int, queue: seq<Task>)

  // ---------- totals ----------

  predicate AllConsistent(ctxs: seq<FdContext>) { forall i :: 0 <= i < |ctxs| ==> ctxs[i].Consistent() }

  function ArmedBits(ctxs: seq<FdContext>): nat {
    if ctxs == [] then 0 else ArmedBits(ctxs[..|ctxs| - 1]) + ctxs[|ctxs| - 1].event.Size()
  }

  /** How often `t` is armed. */
  function Waiting(ctxs: seq<FdContext>, t: Task): nat {
    if ctxs == [] then 0 else Waiting(ctxs[..|ctxs| - 1], t) + ctxs[|ctxs| - 1].Waiting(t)
  }

  /** How often the reactor owes a run to `t`: queued or armed. */
  function Owed(io: Io, t: Task): nat { multiset(io.queue)[t] + Waiting(io.ctxs, t) }

  /** The invariant of the event half: slot i holds fd i, a slot is filled exactly when its bit is set, the
      epoll table mirrors the masks, and the pending counter is the number of armed bits. */
  ghost predicate Inv(io: Io) {
    && |io.ctxs| >= 1 && AllConsistent(io.ctxs)
    && (forall i :: 0 <= i < |io.ctxs| ==> io.ctxs[i].fd == i)
    && (forall fd | fd in io.epoll :: 0 <= fd < |io.ctxs|)
    && (forall i :: 0 <= i < |io.ctxs| ==> (i in io.epoll <==> io.ctxs[i].event.Any()))
    && (forall i :: 0 <= i < |io.ctxs| && i in io.epoll ==> io.epoll[i] == io.ctxs[i].event)
    && io.pending == ArmedBits(io.ctxs)
  }

  lemma {:induction false} UpdateBits(ctxs: seq<FdContext>, i: nat, c: FdContext)
    requires i < |ctxs|
    ensures ArmedBits(ctxs[i := c]) == ArmedBits(ctxs) - ctxs[i].event.Size() + c.event.Size()
  {
    var n := |ctxs| - 1;
    if i == n {
      assert ctxs[i := c][..n] == ctxs[..n];
    } else {
      assert ctxs[i := c][..n] == ctxs[..n][i := c];
      UpdateBits(ctxs[..n], i, c);
    }
  }

  lemma {:induction false} UpdateWaiting(ctxs: seq<FdContext>, i: nat, c: FdContext, t: Task)
    requires i < |ctxs|
    ensures Waiting(ctxs[i := c], t) == Waiting(ctxs, t) - ctxs[i].Waiting(t) + c.Waiting(t)
  {
    var n := |ctxs| - 1;
    if i == n {
      assert ctxs[i := c][..n] == ctxs[..n];
    } else {
      assert ctxs[i := c][..n] == ctxs[..n][i := c];
      UpdateWaiting(ctxs[..n], i, c, t);
    }
  }

  lemma {:induction false} BitsCover(ctxs: seq<FdContext>, i: nat)
    requires i < |ctxs|
    ensures ArmedBits(ctxs) >= ctxs[i].event.Size()
  {
    if i < |ctxs| - 1 { BitsCover(ctxs[..|ctxs| - 1], i); }
  }

  // ---------- contextResize ----------

  function Resized(ctxs: seq<FdContext>, n: nat): seq<FdContext>
    decreases n - |ctxs|
  {
    if n <= |ctxs| then ctxs else Resized(ctxs + [Fresh(|ctxs|)], n)
  }

  lemma FreshConsistent(fd: int)
    ensures Fresh(fd).Consistent() && Fresh(fd).event.Size() == 0
  {
  }

  /** Growing the table adds only idle contexts: nothing armed, registered or counted changes. */
  lemma {:induction false} ResizeKeeps(io: Io, n: nat)
    requires Inv(io)
    ensures var io' := io.(ctxs := Resized(io.ctxs, n));
      && Inv(io') && |io'.ctxs| >= n && |io'.ctxs| >= |io.ctxs| && io'.ctxs[..|io.ctxs|] == io.ctxs
      && (forall i :: |io.ctxs| <= i < |io'.ctxs| ==> io'.ctxs[i] == Fresh(i))
    decreases n - |io.ctxs|
  {
    if n > |io.ctxs| {
      var one := io.ctxs + [Fresh(|io.ctxs|)];
      GrowOne(io);
      hide Inv;
      ResizeKeeps(io.(ctxs := one), n);
      assert Resized(one, n)[..|io.ctxs|] == Resized(one, n)[..|one|][..|io.ctxs|] == io.ctxs;
      assert Resized(one, n)[|io.ctxs|] == Resized(one, n)[..|one|][|io.ctxs|];
    }
  }

  lemma GrowOne(io: Io)
    requires Inv(io)
    ensures Inv(io.(ctxs := io.ctxs + [Fresh(|io.ctxs|)]))
  {
    var one := io.ctxs + [Fresh(|io.ctxs|)];
    FreshConsistent(|io.ctxs|);
    assert one[..|one| - 1] == io.ctxs;
  }

  lemma {:induction false} ResizeWaiting(ctxs: seq<FdContext>, n: nat, t: Task)
    ensures Waiting(Resized(ctxs, n), t) == Waiting(ctxs, t)
    decreases n - |ctxs|
  {
    if n > |ctxs| {
      var one := ctxs + [Fresh(|ctxs|)];
      assert one[..|one| - 1] == ctxs;
      ResizeWaiting(one, n, t);
    }
  }

  // ---------- triggerEvent ----------

  /** Clear the bit, empty the slot, and name the task to schedule. */
  function Triggered(c: FdContext, e: Event): FdContext { c.Put(e, EMPTY_SLOT).(event := c.event.Without(e)) }

  lemma TriggerTotals(c: FdContext, e: Event, t: Task)
    requires c.Consistent() && c.event.Has(e)
    ensures Triggered(c, e).Consistent() && c.At(e).Filled() && c.At(e).Continuation().Some?
    ensures c.Waiting(t) == Triggered(c, e).Waiting(t) + (if c.At(e).Continuation() == Some(t) then 1 else 0)
    ensures c.event.Size() == Triggered(c, e).event.Size() + 1
  {
  }

  lemma TriggeredMask(c: FdContext, e: Event)
    ensures Triggered(c, e).event == c.event.Without(e) && Triggered(c, e).fd == c.fd
  {
  }

  // ---------- addEvent, delEvent, cancelEvent, cancelAll ----------

  /** `addEvent` of an event that is not armed; `accepted` is the kernel's answer to a legal request. */
  function AddEvent(io: Io, fd: nat, e: Event, t: Task, accepted: bool): (Io, bool)
    requires |io.ctxs| >= 1
    requires fd < |io.ctxs| ==> !io.ctxs[fd].event.Has(e)
  {
    ResizedLength(io.ctxs, fd * 2);
    var ctxs := if fd < |io.ctxs| then io.ctxs else Resized(io.ctxs, fd * 2);
    var c := ctxs[fd];
    var op := if c.event.Any() then MOD else ADD;
    if !(accepted && CtlLegal(io.epoll, op, fd)) then (io.(ctxs := ctxs), false)
    else (Io(ctxs[fd := c.Put(e, Fill(t)).(event := c.event.With(e))],
             Ctl(io.epoll, op, fd, c.event.With(e)), io.pending + 1, io.queue), true)
  }

  lemma {:induction false} ResizedLength(ctxs: seq<FdContext>, n: nat)
    ensures |Resized(ctxs, n)| == if n <= |ctxs| then |ctxs| else n
    decreases n - |ctxs|
  {
    if n > |ctxs| { ResizedLength(ctxs + [Fresh(|ctxs|)], n); }
  }

  /** `Scheduler::scheduler` on a slot's callback or fiber. */
  function Enqueued(queue: seq<Task>, s: Slot): seq<Task> {
    match s.Continuation() case Some(t) => queue + [t] case None => queue
  }

  lemma EnqueuedCount(queue: seq<Task>, s: Slot, t: Task)
    ensures multiset(Enqueued(queue, s))[t] == multiset(queue)[t] + (if s.Continuation() == Some(t) then 1 else 0)
  {
  }

  /** Taking one armed event away: the common part of `delEvent` and `cancelEvent`. */
  function TakeEvent(io: Io, fd: nat, e: Event, schedule: bool, accepted: bool): (Io, bool) {
    if fd >= |io.ctxs| || !io.ctxs[fd].event.Has(e) then (io, false)
    else
      var c := io.ctxs[fd];
      var left := c.event.Without(e);
      var op := if left.Any() then MOD else DEL;
      if !(accepted && CtlLegal(io.epoll, op, fd)) then (io, false)
      else (Io(io.ctxs[fd := Triggered(c, e)], Ctl(io.epoll, op, fd, left), io.pending - 1,
               if schedule then Enqueued(io.queue, c.At(e)) else io.queue), true)
  }

  function DelEvent(io: Io, fd: nat, e: Event, accepted: bool): (Io, bool) { TakeEvent(io, fd, e, false, accepted) }

  function CancelEvent(io: Io, fd: nat, e: Event, accepted: bool): (Io, bool) { TakeEvent(io, fd, e, true, accepted) }

  /** Trigger the events of `m` that are armed, READ first: the tail of `cancelAll` and of the idle loop. */
  function TriggerAll(io: Io, fd: nat, m: Mask): Io
    requires fd < |io.ctxs|
  {
    var io := if m.read && io.ctxs[fd].event.read then TriggerOne(io, fd, READ) else io;
    if m.write && io.ctxs[fd].event.write then TriggerOne(io, fd, WRITE) else io
  }

  function TriggerOne(io: Io, fd: nat, e: Event): (r: Io)
    requires fd < |io.ctxs|
    ensures |r.ctxs| == |io.ctxs|
  {
    var c := io.ctxs[fd];
    io.(ctxs := io.ctxs[fd := Triggered(c, e)], pending := io.pending - 1,
        queue := Enqueued(io.queue, c.At(e)))
  }

  function CancelAll(io: Io, fd: nat, accepted: bool): (Io, bool) {
    if fd >= |io.ctxs| || !io.ctxs[fd].event.Any() then (io, false)
    else if !(accepted && CtlLegal(io.epoll, DEL, fd)) then (io, false)
    else (TriggerAll(io.(epoll := Ctl(io.epoll, DEL, fd, NONE)), fd, io.ctxs[fd].event), true)
  }

  // ---------- one epoll report in the idle loop ----------

  /** A report of `epoll_wait` for an fd context: readiness bits and the error/hang-up bits. */
  datatype Report = Report(fd: nat, ready: Mask, error: bool, accepted: bool)

  function RealEvents(c: FdContext, r: Report): Mask {
    if r.error then Mask(r.ready.read || c.event.read, r.ready.write || c.event.write) else r.ready
  }

  /** Readiness is only reported for registered interest. */
  predicate ReportFits(io: Io, r: Report) {
    r.fd < |io.ctxs| && (r.ready.read ==> io.ctxs[r.fd].event.read) && (r.ready.write ==> io.ctxs[r.fd].event.write)
  }

  function HandleReport(io: Io, r: Report): Io
    requires r.fd < |io.ctxs|
  {
    var c := io.ctxs[r.fd];
    var hit := RealEvents(c, r);
    if !(c.event.read && hit.read) && !(c.event.write && hit.write) then io
    else
      var left := c.event.Minus(hit);
      var op := if left.Any() then MOD else DEL;
      if !(r.accepted && CtlLegal(io.epoll, op, r.fd)) then io
      else TriggerAll(io.(epoll := Ctl(io.epoll, op, r.fd, left)), r.fd, hit)
  }

  // ---------- what an operation changes ----------

  /** The context has lost exactly the events of `gone`, with their slots. */
  ghost predicate Lost(c: FdContext, c': FdContext, gone: Mask) {
    c'.fd == c.fd && forall e: Event ::
      if gone.Has(e) then !c'.event.Has(e) && c'.At(e).Empty()
      else c'.event.Has(e) == c.event.Has(e) && c'.At(e) == c.At(e)
  }

  /** Nothing but the context of `fd` is different. */
  ghost predicate OnlyAt(io: Io, io': Io, fd: nat) {
    |io'.ctxs| == |io.ctxs| && forall i :: 0 <= i < |io.ctxs| && i != fd ==> io'.ctxs[i] == io.ctxs[i]
  }

  /** The continuation waiting for `e`, if it is one of the events asked for. */
  function WaiterOf(c: FdContext, e: Event, asked: bool): seq<Task> {
    if asked && c.At(e).Continuation().Some? then [c.At(e).Continuation().value] else []
  }

  /** The continuations of two events are scheduled READ first. */
  function WaitersOf(c: FdContext, read: bool, write: bool): seq<Task> {
    WaiterOf(c, READ, read) + WaiterOf(c, WRITE, write)
  }

  /** `t` waits for `e` on `fd`: the bit is set and the slot holds it. */
  predicate Holds(io: Io, fd: nat, e: Event, t: Task) {
    fd < |io.ctxs| && io.ctxs[fd].event.Has(e) && io.ctxs[fd].At(e).Continuation() == Some(t)
  }

  predicate IsArmed(io: Io, fd: nat, e: Event) { fd < |io.ctxs| && io.ctxs[fd].event.Has(e) }

  /** A report reaches an armed event: ready, or any armed event on an error, if the kernel then takes the new mask. */
  predicate Covered(c: FdContext, r: Report, e: Event) { c.event.Has(e) && r.accepted && (r.error || r.ready.Has(e)) }

  // ---------- what every operation keeps ----------

  /** The invariant, except that the epoll entry of `fd` is already that of the final mask `m`. */
  ghost predicate MidTrigger(io: Io, fd: nat, m: Mask) {
    && |io.ctxs| >= 1 && fd < |io.ctxs| && AllConsistent(io.ctxs)
    && (forall i :: 0 <= i < |io.ctxs| ==> io.ctxs[i].fd == i)
    && (forall f | f in io.epoll :: 0 <= f < |io.ctxs|)
    && (forall i :: 0 <= i < |io.ctxs| && i != fd ==> (i in io.epoll <==> io.ctxs[i].event.Any()))
    && (forall i :: 0 <= i < |io.ctxs| && i != fd && i in io.epoll ==> io.epoll[i] == io.ctxs[i].event)
    && (fd in io.epoll <==> m.Any()) && (fd in io.epoll ==> io.epoll[fd] == m)
    && io.pending == ArmedBits(io.ctxs)
  }

  lemma TriggerOneKeeps(io: Io, fd: nat, m: Mask, e: Event, t: Task)
    requires MidTrigger(io, fd, m) && io.ctxs[fd].event.Has(e)
    ensures MidTrigger(TriggerOne(io, fd, e), fd, m)
    ensures Owed(TriggerOne(io, fd, e), t) == Owed(io, t)
    ensures TriggerOne(io, fd, e).ctxs[fd].event == io.ctxs[fd].event.Without(e)
    ensures io.pending >= 1
  {
    var c := io.ctxs[fd];
    TriggerTotals(c, e, t);
    UpdateBits(io.ctxs, fd, Triggered(c, e));
    UpdateWaiting(io.ctxs, fd, Triggered(c, e), t);
    EnqueuedCount(io.queue, c.At(e), t);
    BitsCover(io.ctxs, fd);
  }

  lemma TriggerAllKeeps(io: Io, fd: nat, m: Mask, hit: Mask, t: Task)
    requires MidTrigger(io, fd, m) && m == io.ctxs[fd].event.Minus(hit)
    ensures Inv(TriggerAll(io, fd, hit)) && Owed(TriggerAll(io, fd, hit), t) == Owed(io, t)
    ensures TriggerAll(io, fd, hit).ctxs[fd].event == m
  {
    var io1 := if hit.read && io.ctxs[fd].event.read then TriggerOne(io, fd, READ) else io;
    if hit.read && io.ctxs[fd].event.read { TriggerOneKeeps(io, fd, m, READ, t); }
    if hit.write && io1.ctxs[fd].event.write { TriggerOneKeeps(io1, fd, m, WRITE, t); }
  }

  function Armed(c: FdContext, e: Event, t: Task): FdContext { c.Put(e, Fill(t)).(event := c.event.With(e)) }

  lemma ArmedTotals(c: FdContext, e: Event, t: Task, u: Task)
    requires c.Consistent() && !c.event.Has(e)
    ensures Armed(c, e, t).Consistent() && c.At(e).Empty()
    ensures Armed(c, e, t).Waiting(u) == c.Waiting(u) + (if t == u then 1 else 0)
    ensures Armed(c, e, t).event.Size() == c.event.Size() + 1
  {
  }

  lemma ArmedMask(c: FdContext, e: Event, t: Task)
    ensures Armed(c, e, t).event == c.event.With(e) && Armed(c, e, t).fd == c.fd && c.event.With(e).Any()
  {
  }

  lemma AddArmed(io: Io, fd: nat, e: Event, t: Task, u: Task)
    requires Inv(io) && fd < |io.ctxs| && !io.ctxs[fd].event.Has(e)
    ensures var c := io.ctxs[fd]; var op := if c.event.Any() then MOD else ADD;
      var io' := Io(io.ctxs[fd := Armed(c, e, t)], Ctl(io.epoll, op, fd, c.event.With(e)), io.pending + 1, io.queue);
      CtlLegal(io.epoll, op, fd) && Inv(io') && Owed(io', u) == Owed(io, u) + (if t == u then 1 else 0)
  {
    hide ArmedBits, Waiting, Armed;
    var c := io.ctxs[fd];
    ArmedTotals(c, e, t, u);
    ArmedMask(c, e, t);
    UpdateBits(io.ctxs, fd, Armed(c, e, t));
    UpdateWaiting(io.ctxs, fd, Armed(c, e, t), u);
  }

  /** Arming: legal by construction, so it succeeds exactly when the kernel accepts; one more run is owed. */
  lemma AddEventKeeps(io: Io, fd: nat, e: Event, t: Task, accepted: bool, u: Task)
    requires Inv(io) && (fd < |io.ctxs| ==> !io.ctxs[fd].event.Has(e))
    ensures var r := AddEvent(io, fd, e, t, accepted);
      && Inv(r.0) && r.1 == accepted && r.0.queue == io.queue && |r.0.ctxs| >= |io.ctxs| && fd < |r.0.ctxs|
      && Owed(r.0, u) == Owed(io, u) + (if accepted && t == u then 1 else 0)
  {
    if fd >= |io.ctxs| {
      ResizeKeeps(io, fd * 2);
      ResizeWaiting(io.ctxs, fd * 2, u);
    }
    var grown := if fd < |io.ctxs| then io else io.(ctxs := Resized(io.ctxs, fd * 2));
    AddArmed(grown, fd, e, t, u);
  }

  /** Disarming: fails only if the event is not armed or the kernel refuses. `cancelEvent` moves the
      continuation to the queue; `delEvent` drops exactly it. */
  lemma TakeEventKeeps(io: Io, fd: nat, e: Event, schedule: bool, accepted: bool, t: Task)
    requires Inv(io)
    ensures var r := TakeEvent(io, fd, e, schedule, accepted);
      && Inv(r.0) && r.1 == (fd < |io.ctxs| && io.ctxs[fd].event.Has(e) && accepted) && |r.0.ctxs| == |io.ctxs|
      && (!r.1 ==> r.0 == io)
      && (r.1 ==> io.ctxs[fd].At(e).Filled() && io.pending >= 1)
      && (r.1 && schedule ==> Owed(r.0, t) == Owed(io, t) && r.0.queue == Enqueued(io.queue, io.ctxs[fd].At(e)))
      && (r.1 && !schedule ==> r.0.queue == io.queue)
      && (r.1 && !schedule ==>
            Owed(r.0, t) == Owed(io, t) - (if io.ctxs[fd].At(e).Continuation() == Some(t) then 1 else 0))
  {
    hide ArmedBits, Waiting, Enqueued, Triggered;
    if fd < |io.ctxs| && io.ctxs[fd].event.Has(e) {
      var c := io.ctxs[fd];
      TriggerTotals(c, e, t);
      TriggeredMask(c, e);
      UpdateBits(io.ctxs, fd, Triggered(c, e));
      UpdateWaiting(io.ctxs, fd, Triggered(c, e), t);
      EnqueuedCount(io.queue, c.At(e), t);
      BitsCover(io.ctxs, fd);
    }
  }

  lemma CancelAllKeeps(io: Io, fd: nat, accepted: bool, t: Task)
    requires Inv(io)
    ensures var (io', ok) := CancelAll(io, fd, accepted);
      && Inv(io') && Owed(io', t) == Owed(io, t) && ok == (fd < |io.ctxs| && io.ctxs[fd].event.Any() && accepted)
      && (ok ==> io'.ctxs[fd].event == NONE)
  {
    if fd < |io.ctxs| && io.ctxs[fd].event.Any() && accepted {
      var mid := io.(epoll := Ctl(io.epoll, DEL, fd, NONE));
      assert io.ctxs[fd].event.Minus(io.ctxs[fd].event) == NONE;
      TriggerAllKeeps(mid, fd, NONE, io.ctxs[fd].event, t);
    }
  }

  /** A report whose readiness is a subset of the armed mask: the asserts of `triggerEvent` hold and every
      triggered continuation moves to the queue, exactly once. */
  lemma ReportKeeps(io: Io, r: Report, t: Task)
    requires Inv(io) && ReportFits(io, r)
    ensures var io' := HandleReport(io, r);
      && Inv(io') && Owed(io', t) == Owed(io, t) && |io'.ctxs| == |io.ctxs|
      && (forall i :: 0 <= i < |io.ctxs| && i != r.fd ==> io'.ctxs[i] == io.ctxs[i])
  {
    hide ArmedBits, Waiting, Enqueued, MidTrigger, TriggerAll;
    var c := io.ctxs[r.fd];
    var hit := RealEvents(c, r);
    var left := c.event.Minus(hit);
    if (c.event.read && hit.read) || (c.event.write && hit.write) {
      MidReport(io, r.fd, left);
      if r.accepted {
        var mid := io.(epoll := Ctl(io.epoll, if left.Any() then MOD else DEL, r.fd, left));
        TriggerAllKeeps(mid, r.fd, left, hit, t);
        OwedTables(io, mid, t);
        TriggerElsewhere(mid, r.fd, hit);
      }
    }
  }

  /** The new mask of an armed fd is a legal request. */
  lemma MidReport(io: Io, fd: nat, left: Mask)
    requires Inv(io) && fd < |io.ctxs| && io.ctxs[fd].event.Any()
    ensures var op := if left.Any() then MOD else DEL;
      CtlLegal(io.epoll, op, fd) && MidTrigger(io.(epoll := Ctl(io.epoll, op, fd, left)), fd, left)
  {
    hide ArmedBits;
  }

  lemma OwedTables(a: Io, b: Io, t: Task)
    requires a.ctxs == b.ctxs && a.queue == b.queue
    ensures Owed(a, t) == Owed(b, t)
  {
  }

  lemma TriggerElsewhere(io: Io, fd: nat, hit: Mask)
    requires fd < |io.ctxs|
    ensures var io' := TriggerAll(io, fd, hit);
      |io'.ctxs| == |io.ctxs| && forall i :: 0 <= i < |io.ctxs| && i != fd ==> io'.ctxs[i] == io.ctxs[i]
  {
    hide Enqueued, Triggered;
  }

  // ---------- which continuations run, and what stays armed ----------

  lemma TriggerOneDoes(io: Io, fd: nat, e: Event)
    requires fd < |io.ctxs| && io.ctxs[fd].Consistent() && io.ctxs[fd].event.Has(e)
    ensures var io', c := TriggerOne(io, fd, e), io.ctxs[fd];
      && OnlyAt(io, io', fd) && Lost(c, io'.ctxs[fd], NONE.With(e)) && io'.ctxs[fd].Consistent()
      && io'.queue == io.queue + WaiterOf(c, e, true) && |WaiterOf(c, e, true)| == 1
  {
  }

  lemma TriggerAllDoes(io: Io, fd: nat, hit: Mask)
    requires fd < |io.ctxs| && io.ctxs[fd].Consistent()
    ensures var io', c := TriggerAll(io, fd, hit), io.ctxs[fd];
      var gone := Mask(hit.read && c.event.read, hit.write && c.event.write);
      && OnlyAt(io, io', fd) && Lost(c, io'.ctxs[fd], gone)
      && io'.queue == io.queue + WaitersOf(c, gone.read, gone.write)
  {
    hide TriggerOne, WaiterOf;
    var c := io.ctxs[fd];
    var io1 := if hit.read && c.event.read then TriggerOne(io, fd, READ) else io;
    if hit.read && c.event.read { TriggerOneDoes(io, fd, READ); }
    if hit.write && c.event.write { TriggerOneDoes(io1, fd, WRITE); }
    NoWaiter(c);
    SlotsOnly(c, io1.ctxs[fd]);
  }

  lemma NoWaiter(c: FdContext)
    ensures forall e :: WaiterOf(c, e, false) == []
  {
  }

  lemma SlotsOnly(c: FdContext, d: FdContext)
    ensures c.At(WRITE) == d.At(WRITE) ==> WaiterOf(c, WRITE, true) == WaiterOf(d, WRITE, true)
  {
  }

  /** An accepted arming puts the continuation into the slot of that event on that fd, and changes nothing else. */
  lemma AddEventArms(io: Io, fd: nat, e: Event, t: Task, accepted: bool)
    requires Inv(io) && !IsArmed(io, fd, e)
    ensures var io' := AddEvent(io, fd, e, t, accepted).0;
      && (accepted ==> Holds(io', fd, e, t))
      && (forall f: nat, d: Event | f != fd || d != e || !accepted :: IsArmed(io', f, d) == IsArmed(io, f, d))
      && (forall f: nat, d: Event, u: Task | f != fd || d != e || !accepted ::
            Holds(io', f, d, u) == Holds(io, f, d, u))
  {
    hide ArmedBits, Waiting;
    if fd >= |io.ctxs| { ResizeKeeps(io, fd * 2); }
    ResizedLength(io.ctxs, fd * 2);
    assert io.ctxs <= AddEvent(io, fd, e, t, accepted).0.ctxs || fd < |io.ctxs|;
  }

  /** A cancel that succeeds empties that event's slot and appends its continuation; nothing else is touched. */
  lemma TakeEventTakes(io: Io, fd: nat, e: Event, schedule: bool, accepted: bool)
    requires Inv(io)
    ensures var (io', ok) := TakeEvent(io, fd, e, schedule, accepted);
      && OnlyAt(io, io', fd) && (accepted ==> !IsArmed(io', fd, e))
      && (fd < |io.ctxs| ==> Lost(io.ctxs[fd], io'.ctxs[fd], if ok then NONE.With(e) else NONE))
      && io'.queue == io.queue + (if ok && schedule then WaiterOf(io.ctxs[fd], e, true) else [])
  {
    hide ArmedBits, Waiting;
  }

  /** cancelAll empties both slots of the fd and schedules what waited there, READ first. */
  lemma CancelAllTakes(io: Io, fd: nat, accepted: bool)
    requires Inv(io)
    ensures var (io', ok) := CancelAll(io, fd, accepted);
      && OnlyAt(io, io', fd)
      && (fd < |io.ctxs| ==> Lost(io.ctxs[fd], io'.ctxs[fd], if ok then io.ctxs[fd].event else NONE))
      && io'.queue == io.queue +
           if ok then WaitersOf(io.ctxs[fd], IsArmed(io, fd, READ), IsArmed(io, fd, WRITE)) else []
  {
    hide TriggerAll, WaitersOf, ArmedBits;
    if fd < |io.ctxs| && io.ctxs[fd].event.Any() && accepted {
      TriggerAllDoes(io.(epoll := Ctl(io.epoll, DEL, fd, NONE)), fd, io.ctxs[fd].event);
    }
  }

  /** One report: each armed event that is ready, or any armed one on an error, loses its bit and slot, and its
      continuation is appended to the queue, READ before WRITE; every other event keeps both. */
  lemma ReportWakes(io: Io, r: Report)
    requires Inv(io) && ReportFits(io, r)
    ensures var io', c := HandleReport(io, r), io.ctxs[r.fd];
      && OnlyAt(io, io', r.fd)
      && (forall e: Event | Covered(c, r, e) :: !io'.ctxs[r.fd].event.Has(e) && io'.ctxs[r.fd].At(e).Empty())
      && (forall e: Event | !Covered(c, r, e) ::
            io'.ctxs[r.fd].event.Has(e) == c.event.Has(e) && io'.ctxs[r.fd].At(e) == c.At(e))
      && io'.queue == io.queue + WaitersOf(c, Covered(c, r, READ), Covered(c, r, WRITE))
      && io'.pending == io.pending - |WaitersOf(c, Covered(c, r, READ), Covered(c, r, WRITE))|
  {
    hide TriggerAll, ArmedBits, Waiting;
    var c := io.ctxs[r.fd];
    var hit := RealEvents(c, r);
    var left := c.event.Minus(hit);
    var mid := io.(epoll := Ctl(io.epoll, if left.Any() then MOD else DEL, r.fd, left));
    TriggerAllDoes(mid, r.fd, hit);
    TriggerAllCounts(mid, r.fd, hit);
  }

  lemma TriggerAllCounts(io: Io, fd: nat, hit: Mask)
    requires fd < |io.ctxs| && io.ctxs[fd].Consistent()
    ensures TriggerAll(io, fd, hit).pending
      == io.pending - |WaitersOf(io.ctxs[fd], hit.read && io.ctxs[fd].event.read, hit.write && io.ctxs[fd].event.write)|
  {
  }
}
