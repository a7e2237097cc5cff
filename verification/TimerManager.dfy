/** `TimerManager` as the object the source updates in place, and how long the idle loop sleeps on it. */
module TimerManager {
  import opened Options
  import opened Words
  import opened TimerSet

  class TimerManager {
    var heap: Heap             // the Timer objects, by address
    var timers: seq<nat>       // m_timers, in the comparator's order
    var tickled: bool          // m_tickled
    ghost var notices: nat     // onTimerInsertAtFront calls since the last getNextTimer
    ghost var fired: set<nat>
    ghost var seen: Option<nat>
    ghost var clock: nat       // the last reading of GetCurrentMS

    ghost function Abs(): State
      reads this
    {
      State(heap, timers, tickled, notices, fired, seen, clock)
    }

    /** The same manager at a later moment. */
    ghost function AbsAt(now: nat): State
      reads this
    {
      Abs().(now := now)
    }

    ghost predicate Valid()
      reads this
    {
      Inv(Abs())
    }

    constructor ()
      ensures Valid() && Abs() == START
    {
      heap, timers, tickled, notices, fired, seen, clock := map[], [], false, 0, {}, None, 0;
    }

    /** The private `addTimer`: the timer object is already written, the lock is held. */
    method AddLocked(t: nat)
      requires AllIn(heap, timers) && t in heap
      modifies this`timers, this`tickled, this`notices
      ensures Abs() == Add(old(Abs()), t)
    {
      timers := Insert(heap, timers, t);
      var atFront := |timers| > 0 && timers[0] == t && !tickled;
      if atFront { tickled := true; }
      if atFront { notices := notices + 1; }
    }

    method AddTimer(ms: nat, cb: nat, recurring: bool, t: nat, now: nat)
      requires Valid() && t !in heap && clock <= now
      modifies this
      ensures Valid() && Abs() == TimerSet.AddTimer(old(AbsAt(now)), t, ms, cb, recurring)
    {
      hide Inv, Insert, Add;
      TickKeeps(Abs(), now - clock);
      SortedInv(AbsAt(now));
      AddTimerKeeps(AbsAt(now), t, ms, cb, recurring);
      clock := now;
      heap := heap[t := Timer(now + ms, ms, Some(cb), recurring)];
      AddLocked(t);
    }

    /** Where the source would erase end(), on a one-shot that has fired, nothing leaves the set. */
    method Cancel(t: nat) returns (ok: bool)
      requires Valid() && t in heap
      modifies this`heap, this`timers
      ensures Valid() && ok == old(heap[t].cb.Some?) && t !in timers
      ensures AllIn(old(heap), old(timers)) && (Abs(), ok) == TimerSet.Cancel(old(Abs()), t)
    {
      SortedInv(Abs());
      CancelKeeps(Abs(), t);
      if heap[t].cb.None? { return false; }
      var it := Find(heap, timers, t);
      heap := heap[t := heap[t].(cb := None)];
      if it < |timers| { timers := timers[..it] + timers[it + 1..]; }
      return true;
    }

    method Refresh(t: nat, now: nat) returns (ok: bool)
      requires Valid() && t in heap && clock <= now
      modifies this
      ensures Valid() && ok == (t in old(timers))
      ensures (Abs(), ok) == TimerSet.Refresh(old(AbsAt(now)), t)
    {
      hide Inv, Insert, TimerSet.Find;
      TickKeeps(Abs(), now - clock);
      LookupAgrees(AbsAt(now), t);
      RefreshKeeps(AbsAt(now), t);
      clock := now;
      if heap[t].cb.None? { return false; }
      var it := Find(heap, timers, t);
      if it == |timers| { return false; }
      timers := timers[..it] + timers[it + 1..];
      heap := heap[t := heap[t].(next := now + heap[t].ms)];
      timers := Insert(heap, timers, t);
      return true;
    }

    method Reset(t: nat, ms: nat, fromNow: bool, now: nat) returns (ok: bool)
      requires Valid() && t in heap && clock <= now
      modifies this
      ensures Valid() && ok == (t in old(timers) || (ms == old(heap[t].ms) && !fromNow))
      ensures old(heap[t].ms <= heap[t].next) && (Abs(), ok) == TimerSet.Reset(old(AbsAt(now)), t, ms, fromNow)
    {
      hide Inv, Insert, Add;
      TickKeeps(Abs(), now - clock);
      LookupAgrees(AbsAt(now), t);
      ResetKeeps(AbsAt(now), t, ms, fromNow);
      clock := now;
      if ms == heap[t].ms && !fromNow { return true; }
      if heap[t].cb.None? { return false; }
      var it := Find(heap, timers, t);
      if it == |timers| { return false; }
      timers := timers[..it] + timers[it + 1..];
      var start := if fromNow then now else heap[t].next - heap[t].ms;
      heap := heap[t := heap[t].(ms := ms)];
      heap := heap[t := heap[t].(next := start + ms)];
      assert heap == old(heap)[t := old(heap)[t].(ms := ms, next := start + ms)];
      AddLocked(t);
      return true;
    }

    method GetNextTimer(now: nat) returns (wait: Option<nat>)
      requires Valid() && clock <= now
      modifies this`tickled, this`notices, this`seen, this`clock
      ensures Valid() && (Abs(), wait) == TimerSet.GetNextTimer(old(AbsAt(now)))
    {
      TickKeeps(Abs(), now - clock);
      GetNextKeeps(AbsAt(now));
      clock := now;
      tickled, notices := false, 0;
      if |timers| == 0 {
        seen := None;
        return None;
      }
      var next := heap[timers[0]].next;
      seen := Some(next);
      if now >= next { return Some(0); }
      return Some(next - now);
    }

    method ListExpiredCb(nowPtr: nat, now: nat) returns (cbs: seq<Option<nat>>)
      requires Valid() && nowPtr !in heap && clock <= now
      modifies this
      ensures Valid() && AllIn(old(heap), old(timers))
      ensures (Abs(), cbs) == ListExpired(old(AbsAt(now)), nowPtr)
    {
      hide Inv, ExpireAll, UpperBound, Took, Callbacks;
      TickKeeps(Abs(), now - clock);
      SortedInv(AbsAt(now));
      ListExpiredTakes(AbsAt(now), nowPtr);
      clock := now;
      var expired := timers[..UpperBound(heap, timers, Key(now, nowPtr))];
      cbs := TakeAll(expired, now);
    }

    method TakeAll(expired: seq<nat>, now: nat) returns (cbs: seq<Option<nat>>)
      requires AllIn(heap, timers) && AllIn(heap, expired) && now == clock
      modifies this`heap, this`timers, this`fired
      ensures Abs() == ExpireAll(old(Abs()), expired) && cbs == Callbacks(old(heap), expired)
    {
      hide ExpireOne;
      cbs := [];
      ghost var s := Abs();
      for i := 0 to |expired|
        invariant Abs() == ExpireAll(s, expired[..i]) && cbs == Callbacks(s.heap, expired[..i])
      {
        assert expired[..i + 1][..i] == expired[..i];
        SameCb(s, expired[..i], expired[i]);
        cbs := cbs + [heap[expired[i]].cb];
        ExpireTurn(expired[i], now);
      }
      assert expired[..|expired|] == expired;
    }

    /** The loop body after the callback is copied. */
    method ExpireTurn(t: nat, now: nat)
      requires AllIn(heap, timers) && t in heap && now == clock
      modifies this`heap, this`timers, this`fired
      ensures Abs() == ExpireOne(old(Abs()), t)
    {
      if heap[t].recurring {
        timers := EraseKey(heap, timers, t);
        heap := heap[t := heap[t].(next := now + heap[t].ms)];
        timers := Insert(heap, timers, t);
      } else {
        timers := EraseKey(heap, timers, t);
        fired := fired + {t};
      }
    }
  }

  /** The loop never changes a callback. */
  lemma {:induction false} SameCb(s: State, xs: seq<nat>, t: nat)
    requires AllIn(s.heap, s.timers) && AllIn(s.heap, xs) && t in s.heap
    ensures t in ExpireAll(s, xs).heap && ExpireAll(s, xs).heap[t].cb == s.heap[t].cb && ExpireAll(s, xs).now == s.now
  {
    if xs != [] { SameCb(s, xs[..|xs| - 1], t); }
  }

  // ---------- how long idle sleeps ----------

  const MAX_TIMEOUT := 3000

  /** The timeout handed to epoll_wait; a negative one means no timeout at all. */
  function EpollTimeout(next: Option<nat>): int {
    match next
    case None => MAX_TIMEOUT
    case Some(x) => if CastInt(x) < MAX_TIMEOUT then CastInt(x) else MAX_TIMEOUT
  }

  /** The sleep is bounded by 3000 ms and by the wait asked for exactly when bit 31 of that wait is clear. */
  lemma SleepBounded(next: Option<nat>)
    ensures (0 <= EpollTimeout(next) <= MAX_TIMEOUT && (next.Some? ==> EpollTimeout(next) <= next.value))
         <==> (next.Some? ==> (next.value / 0x8000_0000) % 2 == 0)
    ensures next.None? ==> EpollTimeout(next) == 3000
    ensures next.Some? && next.value < 0x8000_0000 ==>
      EpollTimeout(next) == if next.value < 3000 then next.value else 3000
  {
    if next.Some? { HighBit(next.value); }
  }

  lemma HighBit(x: nat)
    ensures x % 0x1_0000_0000 < 0x8000_0000 <==> (x / 0x8000_0000) % 2 == 0
    ensures x % 0x1_0000_0000 <= x
  {
    var q, r := x / 0x8000_0000, x % 0x8000_0000;
    assert x == 0x1_0000_0000 * (q / 2) + 0x8000_0000 * (q % 2) + r;
  }

  lemma SeenKept(s: State, a: Action)
    requires Inv(s) && Enabled(s, a) && !a.AskNext?
    ensures Next(s, a).seen == s.seen
  {
    SortedInv(s);
    if a.TakeExpired? { ListExpiredTakes(s, a.nowPtr); }
  }

  /** While idle sleeps: from a getNextTimer on, any actions but another getNextTimer. */
  ghost predicate Sleeps(states: seq<State>, actions: seq<Action>) {
    && |states| == |actions| + 1 && Inv(states[0])
    && forall i :: 0 <= i < |actions| ==>
         && !actions[i].AskNext? && Enabled(states[i], actions[i])
         && (Inv(states[i]) ==> states[i + 1] == Next(states[i], actions[i]))
  }

  lemma {:induction false} SleepKeeps(states: seq<State>, actions: seq<Action>)
    requires Sleeps(states, actions)
    ensures Inv(states[|actions|]) && states[|actions|].seen == states[0].seen
  {
    hide Inv, Next, Enabled;
    if actions != [] {
      var n := |actions| - 1;
      SleepKeeps(states[..n + 1], actions[..n]);
      NextKeeps(states[n], actions[n]);
      SeenKept(states[n], actions[n]);
    }
  }

  // ---------- the wait loop ----------

  function Sum(xs: seq<nat>): nat { if xs == [] then 0 else Sum(xs[..|xs| - 1]) + xs[|xs| - 1] }

  /** How the calls of epoll_wait went: the interrupted ones, each after so many milliseconds, and the last. */
  datatype Naps = Naps(interrupted: seq<nat>, last: nat)

  /** No call outlasts its timeout. */
  predicate NapsFit(n: Naps, w: int) { n.last <= w && forall i :: 0 <= i < |n.interrupted| ==> n.interrupted[i] <= w }

  function Slept(n: Naps): nat { Sum(n.interrupted) + n.last }

  /** The do-while of `idle`: after an interruption it computes the timeout again from the one it had, and calls
      again. */
  method WaitLoop(next: Option<nat>, n: Naps) returns (w: int, slept: nat)
    ensures 0 <= EpollTimeout(next) ==> w == EpollTimeout(next)
    ensures slept == Slept(n)
  {
    slept := 0;
    w := EpollTimeout(next);
    assert n.interrupted[..0] == [];
    for i := 0 to |n.interrupted|
      invariant slept == Sum(n.interrupted[..i]) && (0 <= EpollTimeout(next) ==> w == EpollTimeout(next))
    {
      assert n.interrupted[..i + 1][..i] == n.interrupted[..i];
      slept := slept + n.interrupted[i];
      if w >= 0 { w := EpollTimeout(Some(w)); }
    }
    assert n.interrupted[..|n.interrupted|] == n.interrupted;
    slept := slept + n.last;
  }

  /** The whole wait stays within its timeout, however long the last call takes, exactly when the calls before it took
      no time at all. */
  lemma LoopWithinTimeout(interrupted: seq<nat>, w: nat)
    requires forall i :: 0 <= i < |interrupted| ==> interrupted[i] <= w
    ensures (forall last: nat | last <= w :: Slept(Naps(interrupted, last)) <= w) <==> Sum(interrupted) == 0
  {
    if forall last: nat | last <= w :: Slept(Naps(interrupted, last)) <= w { assert Slept(Naps(interrupted, w)) <= w; }
  }

  /** The idle loop asks for the next timer and sleeps. Whatever is added, reset, refreshed, cancelled or re-armed
      meanwhile, at every moment either exactly one front-insert notification is out, or one call of epoll_wait ends
      no later than every pending deadline (or does not sleep), and it never exceeds 3000 ms. The same holds of the
      whole wait if the interrupted calls took no time. */
  lemma NeverOversleeps(s: State, states: seq<State>, actions: seq<Action>, n: Naps)
    requires Inv(s) && Sleeps(states, actions)
    requires AllIn(s.heap, s.timers) && states[0] == GetNextTimer(s).0
    requires var wait := GetNextTimer(s).1; wait.Some? ==> (wait.value / 0x8000_0000) % 2 == 0
    requires NapsFit(n, EpollTimeout(GetNextTimer(s).1))
    ensures var w := EpollTimeout(GetNextTimer(s).1); var r := states[|actions|];
      && 0 <= w <= MAX_TIMEOUT
      && (r.tickled ==> r.notices == 1)
      && (r.tickled || w == 0 || forall x | x in r.timers :: x in r.heap && s.now + w <= r.heap[x].next)
      && (Sum(n.interrupted) == 0 ==> Slept(n) <= w)
  {
    hide Next, Enabled, Less, TimerOk;
    SleepKeeps(states, actions);
    SleepBounded(GetNextTimer(s).1);
    hide EpollTimeout;
    var r := states[|actions|];
    if !r.tickled {
      forall x | x in r.timers ensures x in r.heap && r.seen.Some? && r.seen.value <= r.heap[x].next {
        PromiseHolds(r, x);
      }
    }
  }

  /** With a timer due within 3000 ms and nothing else happening, the loop wakes by its deadline in every case exactly
      when no time was spent before the last call. */
  lemma WakesInTimeExactlyWhen(s: State, interrupted: seq<nat>)
    requires Inv(s) && s.timers != [] && AllIn(s.heap, s.timers)
    requires s.now < s.heap[s.timers[0]].next <= s.now + MAX_TIMEOUT
    requires forall i :: 0 <= i < |interrupted| ==> interrupted[i] <= EpollTimeout(GetNextTimer(s).1)
    ensures var w := EpollTimeout(GetNextTimer(s).1);
      (forall last: nat | last <= w :: s.now + Slept(Naps(interrupted, last)) <= s.heap[s.timers[0]].next)
      <==> Sum(interrupted) == 0
  {
    var w := EpollTimeout(GetNextTimer(s).1);
    assert w == s.heap[s.timers[0]].next - s.now;
    LoopWithinTimeout(interrupted, w);
  }

  /** A run: a timer added at 0 for 1000 ms later, an interruption after 900 ms, then the full timeout again: the wait
      ends 900 ms after the deadline. */
  lemma InterruptedSleepIsLate()
    ensures var s := AddTimer(START, 7, 1000, 0, false); var n := Naps([900], 1000);
      && Inv(s) && AllIn(s.heap, s.timers) && s.timers == [7] && s.heap[7].next == 1000 && s.now == 0
      && EpollTimeout(GetNextTimer(s).1) == 1000 && NapsFit(n, 1000)
      && s.now + Slept(n) == s.heap[s.timers[0]].next + 900
      && !(forall last: nat | last <= 1000 :: s.now + Slept(Naps([900], last)) <= s.heap[s.timers[0]].next)
  {
    var s := AddTimer(START, 7, 1000, 0, false);
    AddTimerKeeps(START, 7, 1000, 0, false);
    assert s.timers == [7];
    assert [900][..0] == [];
    assert Sum([900]) == Sum([]) + 900;
    WakesInTimeExactlyWhen(s, [900]);
  }

  /** A wait of 2^31 ms: the timeout is negative, so epoll_wait does not time out at all. */
  lemma LongWaitNeverEnds()
    ensures EpollTimeout(Some(0x8000_0000)) < 0
  {
  }
}
