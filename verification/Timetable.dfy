/** When timers run, over whole histories. A timer's plan is computed from the actions and the clock alone; the set of
    pointers, its keys and its lookups are proved to follow it. */
module Timetable {
  import opened Options
  import opened TimerSet

  /** A pending timer: the moment its period began, the period, and what to call. */
  datatype Plan = Plan(start: nat, ms: nat, cb: nat, recurring: bool)

  /** Due at a listing: the period is over, or ends this very millisecond and the timer's address is the lower one. */
  predicate IsDue(p: Plan, t: nat, now: nat, nowPtr: nat) {
    p.start + p.ms < now || (p.start + p.ms == now && t < nowPtr)
  }

  /** What an action at time `now` does to the plan of timer `t`. */
  function Planned(p: Option<Plan>, t: nat, now: nat, a: Action): Option<Plan> {
    match a
    case NewTimer(x, ms, cb, recurring) => if x == t then Some(Plan(now, ms, cb, recurring)) else p
    case CancelTimer(x) => if x == t then None else p
    case RefreshTimer(x) => if x == t && p.Some? then Some(p.value.(start := now)) else p
    case ResetTimer(x, ms, fromNow) =>
      if x == t && p.Some? then Some(p.value.(ms := ms, start := if fromNow then now else p.value.start)) else p
    case TakeExpired(nowPtr) =>
      if p.Some? && IsDue(p.value, t, now, nowPtr)
      then (if p.value.recurring then Some(p.value.(start := now)) else None) else p
    case Tick(_) => p
    case AskNext => p
  }

  function Clock(actions: seq<Action>): nat {
    if actions == [] then 0
    else Clock(actions[..|actions| - 1]) + (match actions[|actions| - 1] case Tick(ms) => ms case _ => 0)
  }

  function PlanOf(actions: seq<Action>, t: nat): Option<Plan> {
    if actions == [] then None
    else
      var init := actions[..|actions| - 1];
      Planned(PlanOf(init, t), t, Clock(init), actions[|actions| - 1])
  }

  // ---------- the set follows the plan ----------

  predicate Follows(s: State, t: nat, p: Option<Plan>) {
    && (t in s.timers <==> p.Some?)
    && (p.Some? ==> t in s.heap
                    && s.heap[t] == Timer(p.value.start + p.value.ms, p.value.ms, Some(p.value.cb), p.value.recurring))
  }

  lemma NewFollows(s: State, x: nat, ms: nat, cb: nat, recurring: bool, t: nat, p: Option<Plan>)
    requires Inv(s) && x !in s.heap && Follows(s, t, p)
    ensures Follows(AddTimer(s, x, ms, cb, recurring), t, Planned(p, t, s.now, NewTimer(x, ms, cb, recurring)))
  {
    SortedInv(s);
    NotThere(s, x);
    hide Inv, Sorted, Insert, LowerBound;
    var v := AddTimer(s, x, ms, cb, recurring).heap[x];
    OutsideWrite(s.heap, s.timers, x, v);
    InsertPlace(s.heap[x := v], s.timers, x, t);
  }

  lemma NotThere(s: State, x: nat)
    requires Inv(s) && x !in s.heap
    ensures x !in s.timers
  {
  }

  /** What a cancel does to the set and to the objects. */
  lemma CancelIs(s: State, x: nat, t: nat)
    requires Inv(s) && x in s.heap
    ensures AllIn(s.heap, s.timers)
    ensures Cancel(s, x).0.heap == s.heap[x := s.heap[x].(cb := None)]
    ensures t in Cancel(s, x).0.timers <==> t in s.timers && t != x
  {
    LookupAgrees(s, x);
    SortedInv(s);
    assert x in s.timers ==> s.heap[x].cb.Some?;
    hide Inv, Find;
    if x in s.timers {
      Reinsert(s.heap, s.timers, x, s.heap[x].(cb := None), t);
      hide Sorted;
      assert Cancel(s, x).0.timers == Erase(s.timers, Find(s.heap, s.timers, x));
    } else {
      hide Sorted;
      assert Cancel(s, x).0.timers == s.timers;
      if s.heap[x].cb.None? { assert s.heap[x := s.heap[x].(cb := None)] == s.heap; }
    }
  }

  lemma CancelFollows(s: State, x: nat, t: nat, p: Option<Plan>)
    requires Inv(s) && x in s.heap && Follows(s, t, p)
    ensures AllIn(s.heap, s.timers) && Follows(Cancel(s, x).0, t, Planned(p, t, s.now, CancelTimer(x)))
  {
    hide Inv, Cancel;
    CancelIs(s, x, t);
  }

  lemma RefreshIs(s: State, x: nat, t: nat)
    requires Inv(s) && x in s.heap
    ensures AllIn(s.heap, s.timers) && (t in Refresh(s, x).0.timers <==> t in s.timers)
    ensures Refresh(s, x).0.heap ==
      if x in s.timers then s.heap[x := s.heap[x].(next := s.now + s.heap[x].ms)] else s.heap
  {
    LookupAgrees(s, x);
    SortedInv(s);
    hide Inv, Find, Insert;
    if x in s.timers {
      var v := s.heap[x].(next := s.now + s.heap[x].ms);
      Reinsert(s.heap, s.timers, x, v, t);
      hide Sorted, AllIn, Refresh;
      RefreshTimers(s, x, v);
    } else {
      hide Sorted;
      assert Refresh(s, x).0 == s;
    }
  }

  lemma RefreshTimers(s: State, x: nat, v: Timer)
    requires AllIn(s.heap, s.timers) && x in s.heap && s.heap[x].cb.Some?
    requires Find(s.heap, s.timers, x) < |s.timers| && v == s.heap[x].(next := s.now + s.heap[x].ms)
    ensures var r, rest := Refresh(s, x).0, Erase(s.timers, Find(s.heap, s.timers, x));
      AllIn(s.heap[x := v], rest) && r.heap == s.heap[x := v] && r.timers == Insert(s.heap[x := v], rest, x)
  {
    hide Find, Insert;
  }

  lemma RefreshFollows(s: State, x: nat, t: nat, p: Option<Plan>)
    requires Inv(s) && x in s.heap && Follows(s, t, p)
    ensures AllIn(s.heap, s.timers) && Follows(Refresh(s, x).0, t, Planned(p, t, s.now, RefreshTimer(x)))
  {
    hide Inv, Refresh;
    RefreshIs(s, x, t);
  }

  /** A reset of a pending timer counts from now or from where its period began. */
  lemma ResetIs(s: State, x: nat, ms: nat, fromNow: bool, t: nat)
    requires Inv(s) && x in s.heap
    ensures AllIn(s.heap, s.timers) && s.heap[x].ms <= s.heap[x].next
    ensures t in Reset(s, x, ms, fromNow).0.timers <==> t in s.timers
    ensures var start := if fromNow then s.now else s.heap[x].next - s.heap[x].ms;
      Reset(s, x, ms, fromNow).0.heap ==
        if x in s.timers then s.heap[x := s.heap[x].(ms := ms, next := start + ms)] else s.heap
  {
    LookupAgrees(s, x);
    SortedInv(s);
    hide Inv, Find, Insert;
    var start := if fromNow then s.now else s.heap[x].next - s.heap[x].ms;
    var v := s.heap[x].(ms := ms, next := start + ms);
    if ms == s.heap[x].ms && !fromNow {
      hide Sorted;
      assert s.heap[x := v] == s.heap;
    } else if x in s.timers {
      Reinsert(s.heap, s.timers, x, v, t);
      hide Sorted, AllIn, Reset;
      ResetTimers(s, x, ms, fromNow, v);
    } else {
      hide Sorted;
      assert Reset(s, x, ms, fromNow).0 == s;
    }
  }

  lemma ResetTimers(s: State, x: nat, ms: nat, fromNow: bool, v: Timer)
    requires AllIn(s.heap, s.timers) && x in s.heap && s.heap[x].ms <= s.heap[x].next && s.heap[x].cb.Some?
    requires Find(s.heap, s.timers, x) < |s.timers| && !(ms == s.heap[x].ms && !fromNow)
    requires v == s.heap[x].(ms := ms, next := (if fromNow then s.now else s.heap[x].next - s.heap[x].ms) + ms)
    ensures var r, rest := Reset(s, x, ms, fromNow).0, Erase(s.timers, Find(s.heap, s.timers, x));
      AllIn(s.heap[x := v], rest) && r.heap == s.heap[x := v] && r.timers == Insert(s.heap[x := v], rest, x)
  {
    hide Find, Insert;
  }

  lemma ResetFollows(s: State, x: nat, ms: nat, fromNow: bool, t: nat, p: Option<Plan>)
    requires Inv(s) && x in s.heap && Follows(s, t, p)
    ensures AllIn(s.heap, s.timers) && s.heap[x].ms <= s.heap[x].next
    ensures Follows(Reset(s, x, ms, fromNow).0, t, Planned(p, t, s.now, ResetTimer(x, ms, fromNow)))
  {
    hide Inv, Reset;
    ResetIs(s, x, ms, fromNow, t);
  }

  /** A listing takes exactly the due timers. */
  lemma ListedWhenDue(s: State, nowPtr: nat, t: nat, p: Option<Plan>)
    requires Inv(s) && nowPtr !in s.heap && Follows(s, t, p)
    ensures AllIn(s.heap, s.timers)
    ensures t in Expired(s, nowPtr) <==> p.Some? && IsDue(p.value, t, s.now, nowPtr)
  {
    SortedInv(s);
    ExpiredIs(s, nowPtr);
    hide Inv, UpperBound;
    assert t in Expired(s, nowPtr) ==> t in s.timers;
  }

  lemma TakeFollows(s: State, nowPtr: nat, t: nat, p: Option<Plan>)
    requires Inv(s) && nowPtr !in s.heap && Follows(s, t, p)
    ensures AllIn(s.heap, s.timers)
    ensures Follows(ListExpired(s, nowPtr).0, t, Planned(p, t, s.now, TakeExpired(nowPtr)))
  {
    hide Inv, Expired, ExpireAll;
    ListExpiredTakes(s, nowPtr);
    ListedWhenDue(s, nowPtr, t, p);
    KnownTimers(s, t);
    KnownTimers(ListExpired(s, nowPtr).0, t);
  }

  lemma KnownTimers(s: State, t: nat)
    requires Inv(s)
    ensures t in s.timers ==> t in s.heap
  {
  }

  lemma NextFollows(s: State, a: Action, t: nat, p: Option<Plan>)
    requires Inv(s) && Enabled(s, a) && Follows(s, t, p)
    ensures Follows(Next(s, a), t, Planned(p, t, s.now, a))
  {
    SortedInv(s);
    hide Inv, Follows, Planned, AddTimer, Cancel, Refresh, Reset, ListExpired;
    match a
    case Tick(ms) => ClockFollows(s, t, p, a);
    case NewTimer(x, ms, cb, recurring) => NewFollows(s, x, ms, cb, recurring, t, p);
    case CancelTimer(x) => CancelFollows(s, x, t, p);
    case RefreshTimer(x) => RefreshFollows(s, x, t, p);
    case ResetTimer(x, ms, fromNow) => ResetFollows(s, x, ms, fromNow, t, p);
    case AskNext => ClockFollows(s, t, p, a);
    case TakeExpired(nowPtr) => TakeFollows(s, nowPtr, t, p);
  }

  lemma ClockFollows(s: State, t: nat, p: Option<Plan>, a: Action)
    requires Inv(s) && Enabled(s, a) && Follows(s, t, p) && (a.Tick? || a.AskNext?)
    ensures Follows(Next(s, a), t, Planned(p, t, s.now, a))
  {
  }

  lemma NextClock(s: State, a: Action)
    requires Inv(s) && Enabled(s, a)
    ensures Next(s, a).now == s.now + (match a case Tick(ms) => ms case _ => 0)
  {
    SortedInv(s);
    if a.TakeExpired? { ListExpiredTakes(s, a.nowPtr); }
    hide Inv, Sorted, Find, Insert, ExpireAll, LowerBound;
  }

  /** In every run, after every action: a timer is pending exactly when its plan says so, with the deadline, period and
      callback of the plan. */
  lemma {:induction false} RunFollows(states: seq<State>, actions: seq<Action>, t: nat)
    requires IsRun(states, actions)
    ensures Inv(states[|actions|]) && states[|actions|].now == Clock(actions)
    ensures Follows(states[|actions|], t, PlanOf(actions, t))
  {
    hide Inv, Next, Enabled, Planned, Follows;
    RunInv(states, actions);
    if actions == [] {
      assert Follows(START, t, None) by { StartFollows(t); }
    } else {
      var n := |actions| - 1;
      assert IsRun(states[..n + 1], actions[..n]);
      RunFollows(states[..n + 1], actions[..n], t);
      NextFollows(states[n], actions[n], t, PlanOf(actions[..n], t));
      NextClock(states[n], actions[n]);
    }
  }

  lemma StartFollows(t: nat)
    ensures Follows(START, t, None)
  {
  }

  // ---------- what callers see ----------

  predicate Pending(actions: seq<Action>, t: nat) { PlanOf(actions, t).Some? }

  function Deadline(actions: seq<Action>, t: nat): nat
    requires Pending(actions, t)
  {
    PlanOf(actions, t).value.start + PlanOf(actions, t).value.ms
  }

  /** listExpiredCb after any history: exactly the timers whose plan is due, each once, with the callback of the plan,
      in the order of their deadlines. */
  lemma HandedOutExactlyWhenDue(states: seq<State>, actions: seq<Action>, nowPtr: nat)
    requires IsRun(states, actions) && nowPtr !in states[|actions|].heap
    ensures AllIn(states[|actions|].heap, states[|actions|].timers)
    ensures var xs := Expired(states[|actions|], nowPtr); var cbs := ListExpired(states[|actions|], nowPtr).1;
      && (forall t: nat :: t in xs <==>
            Pending(actions, t) && IsDue(PlanOf(actions, t).value, t, Clock(actions), nowPtr))
      && Distinct(xs) && |cbs| == |xs|
      && (forall i :: 0 <= i < |xs| ==> Pending(actions, xs[i]) && cbs[i] == Some(PlanOf(actions, xs[i]).value.cb))
      && (forall i, j :: 0 <= i < j < |xs| ==> Deadline(actions, xs[i]) <= Deadline(actions, xs[j]))
  {
    var s := states[|actions|];
    RunInv(states, actions);
    SortedInv(s);
    ExpiredIs(s, nowPtr);
    hide Inv, Sorted, IsRun, ExpireAll, PlanOf;
    ListExpiredTakes(s, nowPtr);
    forall t: nat ensures Follows(s, t, PlanOf(actions, t)) && s.now == Clock(actions) {
      RunFollows(states, actions, t);
    }
    forall t: nat
      ensures t in Expired(s, nowPtr) <==>
        Pending(actions, t) && IsDue(PlanOf(actions, t).value, t, Clock(actions), nowPtr)
    {
      ListedWhenDue(s, nowPtr, t, PlanOf(actions, t));
    }
    hide Expired;
  }

  function Left(deadline: nat, now: nat): nat { if deadline <= now then 0 else deadline - now }

  /** getNextTimer after any history: nothing pending, or the time to the earliest deadline, 0 if it has passed. */
  lemma WaitsForEarliest(states: seq<State>, actions: seq<Action>)
    requires IsRun(states, actions)
    ensures AllIn(states[|actions|].heap, states[|actions|].timers)
    ensures var wait := GetNextTimer(states[|actions|]).1;
      && (wait.None? <==> forall t: nat :: !Pending(actions, t))
      && (wait.Some? ==>
            exists t: nat | Pending(actions, t) ::
              && wait.value == Left(Deadline(actions, t), Clock(actions))
              && forall x: nat | Pending(actions, x) :: Deadline(actions, t) <= Deadline(actions, x))
  {
    var s := states[|actions|];
    RunInv(states, actions);
    SortedInv(s);
    forall t: nat ensures Follows(s, t, PlanOf(actions, t)) && s.now == Clock(actions) {
      RunFollows(states, actions, t);
    }
    hide Inv, IsRun, PlanOf;
    if s.timers != [] {
      var t := s.timers[0];
      assert Pending(actions, t);
      forall x: nat | Pending(actions, x) ensures Deadline(actions, t) <= Deadline(actions, x) {
        FrontEarliest(s.heap, s.timers, x);
      }
    }
  }

  // ---------- one timer from its creation on ----------

  /** An action of the owner that changes when `t` runs. */
  predicate Touches(a: Action, t: nat) {
    match a
    case NewTimer(x, _, _, _) => x == t
    case CancelTimer(x) => x == t
    case RefreshTimer(x) => x == t
    case ResetTimer(x, _, _) => x == t
    case _ => false
  }

  /** Some listing among the actions `i` to `j` finds the plan due. */
  ghost predicate ListedBetween(actions: seq<Action>, i: nat, j: nat, t: nat, p: Plan)
    requires i <= j <= |actions|
  {
    exists k :: i <= k < j && actions[k].TakeExpired? && IsDue(p, t, Clock(actions[..k]), actions[k].nowPtr)
  }

  /** Left alone, a one-shot stays planned until the first listing that finds it due, and never comes back. */
  lemma {:induction false} OneShotPlan(actions: seq<Action>, i: nat, j: nat, t: nat, p: Plan)
    requires i <= j <= |actions| && PlanOf(actions[..i], t) == Some(p) && !p.recurring
    requires forall k :: i <= k < j ==> !Touches(actions[k], t)
    ensures PlanOf(actions[..j], t) == if ListedBetween(actions, i, j, t, p) then None else Some(p)
    decreases j
  {
    if i < j {
      OneShotPlan(actions, i, j - 1, t, p);
      assert actions[..j][..j - 1] == actions[..j - 1];
      if ListedBetween(actions, i, j - 1, t, p) { assert ListedBetween(actions, i, j, t, p); }
    }
  }

  /** A one-shot added for `ms` milliseconds and left alone is handed out by the first listing after them and by no
      other: never before, and never twice. */
  lemma OneShotRunsOnce(states: seq<State>, actions: seq<Action>, i: nat, j: nat, t: nat, ms: nat, cb: nat)
    requires IsRun(states, actions) && i < j < |actions| && actions[j].TakeExpired?
    requires actions[i] == NewTimer(t, ms, cb, false) && (forall k :: i < k < j ==> !Touches(actions[k], t))
    ensures AllIn(states[j].heap, states[j].timers)
    ensures var p := Plan(states[i].now, ms, cb, false);
      t in Expired(states[j], actions[j].nowPtr) <==>
        IsDue(p, t, states[j].now, actions[j].nowPtr) && !ListedBetween(actions, i + 1, j, t, p)
  {
    var p := Plan(states[i].now, ms, cb, false);
    PrefixRun(states, actions, i);
    PrefixRun(states, actions, j);
    RunFollows(states[..i + 1], actions[..i], t);
    RunFollows(states[..j + 1], actions[..j], t);
    assert actions[..i + 1][..i] == actions[..i];
    assert PlanOf(actions[..i + 1], t) == Some(p);
    OneShotPlan(actions, i + 1, j, t, p);
    assert Enabled(states[j], actions[j]);
    ListedWhenDue(states[j], actions[j].nowPtr, t, PlanOf(actions[..j], t));
  }

  lemma PrefixRun(states: seq<State>, actions: seq<Action>, n: nat)
    requires IsRun(states, actions) && n <= |actions|
    ensures IsRun(states[..n + 1], actions[..n])
  {
    hide Inv, Next, Enabled;
  }
}
