/** `Timer` and `TimerManager` as values: timer objects by address, and the ordered set of pointers whose order is
    read through the objects it points to. The class in TimerManager.dfy is proved against these operations. */
module TimerSet {
  import opened Options

  /** What the comparator reads of a timer: its deadline and its address. */
  datatype Key = Key(next: nat, ptr: nat)

  predicate Less(a: Key, b: Key) { a.next < b.next || (a.next == b.next && a.ptr < b.ptr) }

  /** `Timer::Comparator`, null pointers first. */
  predicate Comparator(l: Option<Key>, r: Option<Key>) {
    if l.None? && r.None? then false
    else if l.None? then true
    else if r.None? then false
    else if l.value.next < r.value.next then true
    else if l.value.next > r.value.next then false
    else l.value.ptr < r.value.ptr
  }

  /** A strict total order: what std::set demands of it, and equivalence means the same pointer. */
  lemma ComparatorOrders(a: Option<Key>, b: Option<Key>, c: Option<Key>)
    ensures !Comparator(a, a)
    ensures Comparator(a, b) && Comparator(b, c) ==> Comparator(a, c)
    ensures !Comparator(a, b) && !Comparator(b, a) <==> a == b
    ensures a.Some? && b.Some? ==> (Comparator(a, b) <==> Less(a.value, b.value))
  {
  }

  datatype Timer = Timer(next: nat, ms: nat, cb: Option<nat>, recurring: bool)

  type Heap = map<nat, Timer>

  function KeyOf(h: Heap, t: nat): Key
    requires t in h
  {
    Key(h[t].next, t)
  }

  predicate AllIn(h: Heap, s: seq<nat>) { forall i :: 0 <= i < |s| ==> s[i] in h }

  ghost predicate Sorted(h: Heap, s: seq<nat>) {
    AllIn(h, s) && forall i, j :: 0 <= i < j < |s| ==> Less(KeyOf(h, s[i]), KeyOf(h, s[j]))
  }

  // ---------- the set's own operations ----------

  function LowerBound(h: Heap, s: seq<nat>, k: Key): (r: nat)
    requires AllIn(h, s)
    ensures r <= |s| && (forall i :: 0 <= i < r ==> Less(KeyOf(h, s[i]), k))
    ensures r < |s| ==> !Less(KeyOf(h, s[r]), k)
  {
    if s == [] || !Less(KeyOf(h, s[0]), k) then 0
    else
      var r := LowerBound(h, s[1..], k);
      assert forall i :: 1 <= i <= r ==> s[i] == s[1..][i - 1];
      1 + r
  }

  function UpperBound(h: Heap, s: seq<nat>, k: Key): (r: nat)
    requires AllIn(h, s)
    ensures r <= |s| && (forall i :: 0 <= i < r ==> !Less(k, KeyOf(h, s[i])))
    ensures r < |s| ==> Less(k, KeyOf(h, s[r]))
  {
    if s == [] || Less(k, KeyOf(h, s[0])) then 0
    else
      var r := UpperBound(h, s[1..], k);
      assert forall i :: 1 <= i <= r ==> s[i] == s[1..][i - 1];
      1 + r
  }

  /** `find`: by key, through the comparator; the set's length stands for end(). */
  function Find(h: Heap, s: seq<nat>, t: nat): (r: nat)
    requires AllIn(h, s) && t in h
    ensures r <= |s|
  {
    var i := LowerBound(h, s, KeyOf(h, t));
    if i < |s| && !Less(KeyOf(h, t), KeyOf(h, s[i])) then i else |s|
  }

  function Erase(s: seq<nat>, i: nat): seq<nat>
    requires i < |s|
  {
    s[..i] + s[i + 1..]
  }

  function Insert(h: Heap, s: seq<nat>, t: nat): seq<nat>
    requires AllIn(h, s) && t in h
  {
    var i := LowerBound(h, s, KeyOf(h, t));
    if i < |s| && !Less(KeyOf(h, t), KeyOf(h, s[i])) then s else s[..i] + [t] + s[i..]
  }

  /** Lookup by key finds a pointer exactly when it is in the set: keys are not changed while it is. */
  lemma FindFinds(h: Heap, s: seq<nat>, t: nat)
    requires Sorted(h, s) && t in h
    ensures t in s <==> Find(h, s, t) < |s|
    ensures t in s ==> s[Find(h, s, t)] == t
  {
    var i := LowerBound(h, s, KeyOf(h, t));
    if t in s {
      var j :| 0 <= j < |s| && s[j] == t;
      assert i <= j;
      assert !(i < j);
    }
  }

  lemma ErasePlace(h: Heap, s: seq<nat>, i: nat, x: nat)
    requires Sorted(h, s) && i < |s|
    ensures Sorted(h, Erase(s, i)) && |Erase(s, i)| == |s| - 1
    ensures x in Erase(s, i) <==> x in s && x != s[i]
  {
    var e := Erase(s, i);
    assert forall k :: 0 <= k < |e| ==> e[k] == if k < i then s[k] else s[k + 1];
    if x in s && x != s[i] {
      var j :| 0 <= j < |s| && s[j] == x;
      assert e[if j < i then j else j - 1] == x;
    }
    if x in e {
      var j :| 0 <= j < |e| && e[j] == x;
      assert s[if j < i then j else j + 1] == x;
      assert Less(KeyOf(h, x), KeyOf(h, s[i])) || Less(KeyOf(h, s[i]), KeyOf(h, x));
    }
  }

  /** Where an insertion puts `t`, and what moves up behind it. */
  lemma InsertIs(h: Heap, s: seq<nat>, t: nat)
    requires Sorted(h, s) && t in h && t !in s
    ensures var i := LowerBound(h, s, KeyOf(h, t));
      && Insert(h, s, t) == s[..i] + [t] + s[i..]
      && (forall k :: 0 <= k < i ==> Less(KeyOf(h, s[k]), KeyOf(h, t)))
      && (forall k :: i <= k < |s| ==> Less(KeyOf(h, t), KeyOf(h, s[k])))
  {
    FindFinds(h, s, t);
    var i := LowerBound(h, s, KeyOf(h, t));
    forall k | i <= k < |s| ensures Less(KeyOf(h, t), KeyOf(h, s[k])) {
      assert Less(KeyOf(h, t), KeyOf(h, s[i]));
      if i < k { assert Less(KeyOf(h, s[i]), KeyOf(h, s[k])); }
    }
  }

  lemma InsertPlace(h: Heap, s: seq<nat>, t: nat, x: nat)
    requires Sorted(h, s) && t in h && t !in s
    ensures Sorted(h, Insert(h, s, t)) && |Insert(h, s, t)| == |s| + 1
    ensures x in Insert(h, s, t) <==> x in s || x == t
  {
    InsertIs(h, s, t);
    hide Less, LowerBound, Insert;
    var i, r := LowerBound(h, s, KeyOf(h, t)), Insert(h, s, t);
    assert forall k :: 0 <= k < |r| ==> r[k] == if k < i then s[k] else if k == i then t else s[k - 1];
    if x in s {
      var j :| 0 <= j < |s| && s[j] == x;
      assert r[if j < i then j else j + 1] == x;
    }
    assert r[i] == t;
  }

  /** A timer outside the set may be rewritten without disturbing the set's order. */
  lemma OutsideWrite(h: Heap, s: seq<nat>, t: nat, v: Timer)
    requires Sorted(h, s) && t !in s
    ensures Sorted(h[t := v], s)
  {
    assert forall i :: 0 <= i < |s| ==> KeyOf(h[t := v], s[i]) == KeyOf(h, s[i]);
  }

  /** The front of a sorted set has the earliest deadline. */
  lemma FrontEarliest(h: Heap, s: seq<nat>, x: nat)
    requires Sorted(h, s) && x in s
    ensures h[s[0]].next <= h[x].next
  {
    var j :| 0 <= j < |s| && s[j] == x;
    if j > 0 { assert Less(KeyOf(h, s[0]), KeyOf(h, s[j])); }
  }

  // ---------- the manager's operations ----------

  /** `tickled` is m_tickled; the rest is history: front-insert notifications since the last getNextTimer, the
      one-shots listExpiredCb has taken, the deadline the last getNextTimer saw, and the clock. */
  datatype State = State(heap: Heap, timers: seq<nat>, tickled: bool, notices: nat, fired: set<nat>,
                         seen: Option<nat>, now: nat)

  /** The locked `addTimer`: insert, and notify once if the new timer is first. */
  function Add(s: State, t: nat): State
    requires AllIn(s.heap, s.timers) && t in s.heap
  {
    var timers := Insert(s.heap, s.timers, t);
    if timers != [] && timers[0] == t && !s.tickled then s.(timers := timers, tickled := true, notices := s.notices + 1)
    else s.(timers := timers)
  }

  function AddTimer(s: State, t: nat, ms: nat, cb: nat, recurring: bool): State
    requires AllIn(s.heap, s.timers)
  {
    Add(s.(heap := s.heap[t := Timer(s.now + ms, ms, Some(cb), recurring)]), t)
  }

  function Dropped(s: State, t: nat): State
    requires AllIn(s.heap, s.timers) && t in s.heap && Find(s.heap, s.timers, t) < |s.timers|
  {
    s.(timers := Erase(s.timers, Find(s.heap, s.timers, t)))
  }

  /** `cancel` reaches `erase(end())` exactly when the callback is set and the lookup fails. */
  predicate CancelErasesEnd(s: State, t: nat)
    requires AllIn(s.heap, s.timers) && t in s.heap
  {
    s.heap[t].cb.Some? && Find(s.heap, s.timers, t) == |s.timers|
  }

  /** The callback is dropped and the timer leaves the set; where the source erases end(), as intended, nothing
      leaves. */
  function Cancel(s: State, t: nat): (State, bool)
    requires AllIn(s.heap, s.timers) && t in s.heap
  {
    if s.heap[t].cb.None? then (s, false)
    else if CancelErasesEnd(s, t) then (s.(heap := s.heap[t := s.heap[t].(cb := None)]), true)
    else (Dropped(s, t).(heap := s.heap[t := s.heap[t].(cb := None)]), true)
  }

  function Refresh(s: State, t: nat): (State, bool)
    requires AllIn(s.heap, s.timers) && t in s.heap
  {
    if s.heap[t].cb.None? || Find(s.heap, s.timers, t) == |s.timers| then (s, false)
    else
      var rest := Dropped(s, t).timers;
      var heap := s.heap[t := s.heap[t].(next := s.now + s.heap[t].ms)];
      (s.(heap := heap, timers := Insert(heap, rest, t)), true)
  }

  function Reset(s: State, t: nat, ms: nat, fromNow: bool): (State, bool)
    requires AllIn(s.heap, s.timers) && t in s.heap && s.heap[t].ms <= s.heap[t].next
  {
    if ms == s.heap[t].ms && !fromNow then (s, true)
    else if s.heap[t].cb.None? || Find(s.heap, s.timers, t) == |s.timers| then (s, false)
    else
      var start := if fromNow then s.now else s.heap[t].next - s.heap[t].ms;
      (Add(Dropped(s, t).(heap := s.heap[t := s.heap[t].(ms := ms, next := start + ms)]), t), true)
  }

  /** The milliseconds to the earliest deadline, None for the ~0ull of an empty set. */
  function GetNextTimer(s: State): (State, Option<nat>)
    requires AllIn(s.heap, s.timers)
  {
    var s := s.(tickled := false, notices := 0);
    if s.timers == [] then (s.(seen := None), None)
    else
      var next := s.heap[s.timers[0]].next;
      (s.(seen := Some(next)), Some(if s.now >= next then 0 else next - s.now))
  }

  /** The part of the set up to and including the key of the `now` timer allocated at `nowPtr`. */
  function Expired(s: State, nowPtr: nat): seq<nat>
    requires AllIn(s.heap, s.timers)
  {
    s.timers[..UpperBound(s.heap, s.timers, Key(s.now, nowPtr))]
  }

  /** `erase` by key: nothing happens if the key is not there. */
  function EraseKey(h: Heap, s: seq<nat>, t: nat): (r: seq<nat>)
    requires AllIn(h, s) && t in h
    ensures AllIn(h, r)
  {
    var i := Find(h, s, t);
    if i < |s| then Erase(s, i) else s
  }

  /** One turn of the loop in listExpiredCb: re-arm a recurring timer, drop a one-shot. */
  function ExpireOne(s: State, t: nat): (r: State)
    requires AllIn(s.heap, s.timers) && t in s.heap
    ensures AllIn(r.heap, r.timers) && r.heap.Keys == s.heap.Keys
  {
    var rest := EraseKey(s.heap, s.timers, t);
    if s.heap[t].recurring then
      var heap := s.heap[t := s.heap[t].(next := s.now + s.heap[t].ms)];
      s.(heap := heap, timers := Insert(heap, rest, t))
    else s.(timers := rest, fired := s.fired + {t})
  }

  function ExpireAll(s: State, xs: seq<nat>): (r: State)
    requires AllIn(s.heap, s.timers) && AllIn(s.heap, xs)
    ensures AllIn(r.heap, r.timers) && r.heap.Keys == s.heap.Keys
  {
    if xs == [] then s else ExpireOne(ExpireAll(s, xs[..|xs| - 1]), xs[|xs| - 1])
  }

  function ListExpired(s: State, nowPtr: nat): (State, seq<Option<nat>>)
    requires AllIn(s.heap, s.timers)
  {
    var xs := Expired(s, nowPtr);
    (ExpireAll(s, xs), Callbacks(s.heap, xs))
  }

  function Callbacks(h: Heap, xs: seq<nat>): seq<Option<nat>>
    requires AllIn(h, xs)
  {
    seq(|xs|, i requires 0 <= i < |xs| => h[xs[i]].cb)
  }

  // ---------- invariant ----------

  predicate TimerOk(s: State, t: nat)
    requires t in s.heap
  {
    var v := s.heap[t];
    && v.ms <= v.next && v.next <= s.now + v.ms
    && (t in s.timers <==> v.cb.Some? && t !in s.fired)
    && (t in s.fired ==> !v.recurring)
  }

  /** Either a notification is out, or no timer is due before the deadline the last getNextTimer saw. */
  predicate Promise(s: State) {
    s.tickled || (match s.seen
                  case None => s.timers == []
                  case Some(d) =>
                    forall i :: 0 <= i < |s.timers| ==> s.timers[i] in s.heap && d <= s.heap[s.timers[i]].next)
  }

  ghost predicate Inv(s: State) {
    && Sorted(s.heap, s.timers) && (forall t | t in s.heap :: TimerOk(s, t)) && s.fired <= s.heap.Keys
    && Promise(s) && s.notices == if s.tickled then 1 else 0
  }

  lemma SortedIn(h: Heap, s: seq<nat>)
    requires Sorted(h, s)
    ensures AllIn(h, s)
  {
  }

  // ---------- every operation keeps it ----------

  /** A set that has lost `t`, with `t` rewritten, is still ordered; inserting `t` again gives the old members. */
  lemma Reinsert(h: Heap, s: seq<nat>, t: nat, v: Timer, x: nat)
    requires Sorted(h, s) && t in h && t in s
    ensures Find(h, s, t) < |s|
    ensures var rest := Erase(s, Find(h, s, t)); var h' := h[t := v];
      && Sorted(h, rest) && Sorted(h', rest) && Sorted(h', Insert(h', rest, t))
      && (x in rest <==> x in s && x != t) && (x in Insert(h', rest, t) <==> x in s)
  {
    hide LowerBound, Insert, Less;
    FindFinds(h, s, t);
    hide Find;
    var i := Find(h, s, t);
    ErasePlace(h, s, i, x);
    ErasePlace(h, s, i, t);
    var rest := Erase(s, i);
    OutsideWrite(h, rest, t, v);
    InsertPlace(h[t := v], rest, t, x);
  }

  /** Adding a timer that is not in the set keeps the promise: a new front is announced. */
  lemma AddPromise(s: State, t: nat)
    requires Sorted(s.heap, s.timers) && t in s.heap && t !in s.timers && Promise(s)
    ensures Promise(Add(s, t))
  {
    hide LowerBound, Insert, Less;
    var s' := Add(s, t);
    InsertPlace(s.heap, s.timers, t, t);
    if !s'.tickled {
      var front := s'.timers[0];
      InsertPlace(s.heap, s.timers, t, front);
      assert front in s.timers;
      forall i | 0 <= i < |s'.timers| ensures s.heap[front].next <= s.heap[s'.timers[i]].next {
        FrontEarliest(s.heap, s'.timers, s'.timers[i]);
      }
    }
  }

  lemma AddKeeps(s: State, t: nat)
    requires Sorted(s.heap, s.timers) && t in s.heap && t !in s.timers && Promise(s)
    requires s.notices == if s.tickled then 1 else 0
    requires forall x | x in s.heap && x != t :: TimerOk(s, x)
    requires s.heap[t].ms <= s.heap[t].next <= s.now + s.heap[t].ms && s.heap[t].cb.Some? && t !in s.fired
    requires s.fired <= s.heap.Keys
    ensures Inv(Add(s, t))
  {
    hide LowerBound, Insert, Less, Promise;
    AddPromise(s, t);
    var s' := Add(s, t);
    forall x | x in s'.heap ensures TimerOk(s', x) { InsertPlace(s.heap, s.timers, t, x); }
    InsertPlace(s.heap, s.timers, t, t);
  }

  lemma AddTimerKeeps(s: State, t: nat, ms: nat, cb: nat, recurring: bool)
    requires Inv(s) && t !in s.heap
    ensures Inv(AddTimer(s, t, ms, cb, recurring))
  {
    hide Less, Insert, Add;
    var v := Timer(s.now + ms, ms, Some(cb), recurring);
    OutsideWrite(s.heap, s.timers, t, v);
    var s1 := s.(heap := s.heap[t := v]);
    forall x | x in s1.heap && x != t ensures TimerOk(s1, x) { assert TimerOk(s, x); }
    AddKeeps(s1, t);
  }

  /** Taking `t` out and rewriting it leaves everything else as it was. */
  lemma DropKeeps(s: State, t: nat, v: Timer)
    requires Inv(s) && t in s.timers
    ensures t in s.heap && Find(s.heap, s.timers, t) < |s.timers|
    ensures var s' := Dropped(s, t).(heap := s.heap[t := v]);
      && Sorted(s'.heap, s'.timers) && t !in s'.timers && Promise(s')
      && (forall x | x in s'.heap && x != t :: TimerOk(s', x)) && (forall x | x in s'.timers :: x in s.timers)
  {
    hide LowerBound, Insert, Less, Find;
    Reinsert(s.heap, s.timers, t, v, t);
    var s' := Dropped(s, t).(heap := s.heap[t := v]);
    forall x ensures x in s'.timers <==> x in s.timers && x != t { Reinsert(s.heap, s.timers, t, v, x); }
    forall x | x in s'.heap && x != t ensures TimerOk(s', x) { assert TimerOk(s, x); }
    assert Promise(s');
  }

  /** After a cancel the timer is not pending; it answers whether there was a callback to drop. */
  lemma CancelKeeps(s: State, t: nat)
    requires Inv(s) && t in s.heap
    ensures AllIn(s.heap, s.timers)
    ensures Inv(Cancel(s, t).0) && t !in Cancel(s, t).0.timers && Cancel(s, t).1 == s.heap[t].cb.Some?
    ensures !CancelErasesEnd(s, t) ==> Cancel(s, t).1 == (t in s.timers)
  {
    hide LowerBound, Less, Promise, Sorted;
    SortedIn(s.heap, s.timers);
    FindFinds(s.heap, s.timers, t);
    hide Find;
    assert TimerOk(s, t);
    if s.heap[t].cb.Some? {
      if CancelErasesEnd(s, t) { SilenceKeeps(s, t); } else { DropKeeps(s, t, s.heap[t].(cb := None)); }
    }
  }

  lemma SilenceKeeps(s: State, t: nat)
    requires Inv(s) && t in s.heap && t !in s.timers
    ensures Inv(s.(heap := s.heap[t := s.heap[t].(cb := None)]))
  {
    hide Less;
    var v := s.heap[t].(cb := None);
    OutsideWrite(s.heap, s.timers, t, v);
    var r := s.(heap := s.heap[t := v]);
    forall x | x in r.heap ensures TimerOk(r, x) { assert TimerOk(s, x); }
  }

  /** The lookup in `cancel` fails exactly on a one-shot that listExpiredCb has taken and nobody cancelled. */
  lemma CancelErasesEndWhen(s: State, t: nat)
    requires Inv(s) && t in s.heap
    ensures CancelErasesEnd(s, t) <==> t in s.fired && s.heap[t].cb.Some?
  {
    FindFinds(s.heap, s.timers, t);
    assert TimerOk(s, t);
  }

  /** Re-inserting a timer at a deadline no earlier than the promise keeps everything, without a notification. */
  lemma RearmKeeps(s: State, t: nat, next: nat)
    requires Inv(s) && t in s.timers && t in s.heap && s.heap[t].ms <= next <= s.now + s.heap[t].ms
    requires s.tickled || (s.seen.Some? && s.seen.value <= next)
    ensures Find(s.heap, s.timers, t) < |s.timers|
    ensures var heap := s.heap[t := s.heap[t].(next := next)];
      var s' := s.(heap := heap, timers := Insert(heap, Dropped(s, t).timers, t));
      Inv(s') && (forall x :: x in s'.timers <==> x in s.timers)
  {
    hide LowerBound, Insert, Less, Find;
    var v := s.heap[t].(next := next);
    Reinsert(s.heap, s.timers, t, v, t);
    var heap := s.heap[t := v];
    var s' := s.(heap := heap, timers := Insert(heap, Dropped(s, t).timers, t));
    forall x ensures x in s'.timers <==> x in s.timers { Reinsert(s.heap, s.timers, t, v, x); }
    forall x | x in s'.heap ensures TimerOk(s', x) { assert TimerOk(s, x); }
    assert Promise(s') by {
      if !s.tickled {
        forall i | 0 <= i < |s'.timers| ensures s.seen.value <= s'.heap[s'.timers[i]].next {
          assert s'.timers[i] in s.timers;
        }
      }
    }
  }

  /** What the promise says of one member of the set. */
  lemma PromiseHolds(s: State, t: nat)
    requires Inv(s) && t in s.timers
    ensures t in s.heap && (s.tickled || (s.seen.Some? && s.seen.value <= s.heap[t].next))
  {
    hide Less;
  }

  lemma RefreshKeeps(s: State, t: nat)
    requires Inv(s) && t in s.heap
    ensures Inv(Refresh(s, t).0) && Refresh(s, t).1 == (t in s.timers)
  {
    hide LowerBound, Less, Promise, Insert;
    FindFinds(s.heap, s.timers, t);
    hide Find;
    assert TimerOk(s, t);
    if t in s.timers {
      PromiseHolds(s, t);
      RearmKeeps(s, t, s.now + s.heap[t].ms);
    }
  }

  lemma ResetArmed(s: State, t: nat, ms: nat, start: nat)
    requires Inv(s) && t in s.timers && start <= s.now
    ensures t in s.heap && Find(s.heap, s.timers, t) < |s.timers|
    ensures Inv(Add(Dropped(s, t).(heap := s.heap[t := s.heap[t].(ms := ms, next := start + ms)]), t))
  {
    hide LowerBound, Less, Promise, Add, Find;
    assert TimerOk(s, t);
    var v := s.heap[t].(ms := ms, next := start + ms);
    DropKeeps(s, t, v);
    AddKeeps(Dropped(s, t).(heap := s.heap[t := v]), t);
  }

  lemma LookupAgrees(s: State, t: nat)
    requires Inv(s) && t in s.heap
    ensures AllIn(s.heap, s.timers) && (t in s.timers <==> Find(s.heap, s.timers, t) < |s.timers|)
    ensures s.heap[t].ms <= s.heap[t].next <= s.now + s.heap[t].ms && (t in s.timers ==> s.heap[t].cb.Some?)
  {
    FindFinds(s.heap, s.timers, t);
    assert TimerOk(s, t);
  }

  lemma ResetKeeps(s: State, t: nat, ms: nat, fromNow: bool)
    requires Inv(s) && t in s.heap
    ensures s.heap[t].ms <= s.heap[t].next && Inv(Reset(s, t, ms, fromNow).0)
    ensures Reset(s, t, ms, fromNow).1 == (t in s.timers || (ms == s.heap[t].ms && !fromNow))
  {
    hide Inv, Add, Find, Erase, Sorted, TimerOk;
    LookupAgrees(s, t);
    if ms == s.heap[t].ms && !fromNow {
    } else if t in s.timers {
      var start := if fromNow then s.now else s.heap[t].next - s.heap[t].ms;
      ResetArmed(s, t, ms, start);
    } else {
      assert Reset(s, t, ms, fromNow) == (s, false);
    }
  }

  lemma GetNextKeeps(s: State)
    requires Inv(s)
    ensures Inv(GetNextTimer(s).0)
  {
    hide Less;
    var s' := GetNextTimer(s).0;
    forall i | 0 <= i < |s.timers| ensures s.heap[s.timers[0]].next <= s.heap[s.timers[i]].next {
      FrontEarliest(s.heap, s.timers, s.timers[i]);
    }
    forall x | x in s'.heap ensures TimerOk(s', x) { assert TimerOk(s, x); }
  }

  // ---------- listExpiredCb ----------

  /** One expired timer: re-armed at now + ms or taken for good; nothing else changes. */
  lemma ExpireOneKeeps(s: State, t: nat)
    requires Inv(s) && t in s.heap && t in s.timers && s.heap[t].next <= s.now
    ensures AllIn(s.heap, s.timers)
    ensures var r := ExpireOne(s, t);
      && Inv(r) && r == s.(heap := r.heap, timers := r.timers, fired := r.fired)
      && r.heap == (if s.heap[t].recurring then s.heap[t := s.heap[t].(next := s.now + s.heap[t].ms)] else s.heap)
      && (forall x :: x in r.timers <==> x in s.timers && (x == t ==> s.heap[t].recurring))
      && r.fired == (if s.heap[t].recurring then s.fired else s.fired + {t})
  {
    hide LowerBound, Insert, Less;
    SortedIn(s.heap, s.timers);
    LookupAgrees(s, t);
    hide Find;
    var r := ExpireOne(s, t);
    if s.heap[t].recurring {
      PromiseHolds(s, t);
      RearmKeeps(s, t, s.now + s.heap[t].ms);
    } else {
      forall x ensures x in r.timers <==> x in s.timers && x != t { Reinsert(s.heap, s.timers, t, s.heap[t], x); }
      Reinsert(s.heap, s.timers, t, s.heap[t], t);
      forall x | x in r.heap ensures TimerOk(r, x) { assert TimerOk(s, x); }
    }
  }

  predicate Distinct(xs: seq<nat>) { forall i, j :: 0 <= i < j < |xs| ==> xs[i] != xs[j] }

  /** All of `xs` are in the set and due. */
  predicate Due(s: State, xs: seq<nat>) {
    Distinct(xs) && forall i :: 0 <= i < |xs| ==> xs[i] in s.timers && xs[i] in s.heap && s.heap[xs[i]].next <= s.now
  }

  /** A timer once its callback is taken: a recurring one has a new deadline. */
  function Rearmed(s: State, x: nat): Timer
    requires x in s.heap
  {
    if s.heap[x].recurring then s.heap[x].(next := s.now + s.heap[x].ms) else s.heap[x]
  }

  /** The state after taking `xs`: member by member. */
  ghost predicate Took(s: State, xs: seq<nat>, r: State) {
    && r == s.(heap := r.heap, timers := r.timers, fired := r.fired) && r.heap.Keys == s.heap.Keys
    && (forall x | x in s.heap :: r.heap[x] == if x in xs then Rearmed(s, x) else s.heap[x])
    && (forall x | x in s.heap :: x in r.timers <==> x in s.timers && (x in xs ==> s.heap[x].recurring))
    && (forall x | x in s.heap :: x in r.fired <==> x in s.fired || (x in xs && !s.heap[x].recurring))
  }

  lemma TookMore(s: State, xs: seq<nat>, r: State, t: nat)
    requires Took(s, xs, r) && Inv(r) && t in s.timers && t in s.heap && t !in xs && s.heap[t].next <= s.now
    ensures t in r.heap && t in r.timers && AllIn(r.heap, r.timers)
    ensures Inv(ExpireOne(r, t)) && Took(s, xs + [t], ExpireOne(r, t))
  {
    hide ExpireOne, Inv;
    ExpireOneKeeps(r, t);
    assert forall x :: x in xs + [t] <==> x in xs || x == t;
  }

  lemma {:induction false} ExpireAllTakes(s: State, xs: seq<nat>)
    requires Inv(s) && Due(s, xs)
    ensures AllIn(s.heap, s.timers) && AllIn(s.heap, xs)
    ensures Inv(ExpireAll(s, xs)) && Took(s, xs, ExpireAll(s, xs))
  {
    hide ExpireOne, Inv;
    SortedInv(s);
    if xs != [] {
      var n := |xs| - 1;
      ExpireAllTakes(s, xs[..n]);
      TookMore(s, xs[..n], ExpireAll(s, xs[..n]), xs[n]);
      assert xs == xs[..n] + [xs[n]];
    }
  }

  lemma SortedInv(s: State)
    requires Inv(s)
    ensures Sorted(s.heap, s.timers) && AllIn(s.heap, s.timers)
  {
  }

  /** The expired part of the set: exactly the timers before the now-timer's key, and all of them due. */
  lemma ExpiredIs(s: State, nowPtr: nat)
    requires Sorted(s.heap, s.timers) && nowPtr !in s.heap
    ensures Due(s, Expired(s, nowPtr))
    ensures forall x | x in s.timers ::
      x in s.heap && (x in Expired(s, nowPtr) <==> Less(KeyOf(s.heap, x), Key(s.now, nowPtr)))
  {
    var n, xs := UpperBound(s.heap, s.timers, Key(s.now, nowPtr)), Expired(s, nowPtr);
    assert forall i :: 0 <= i < n ==> s.timers[i] != nowPtr;
    forall x | x in s.timers ensures x in xs <==> Less(KeyOf(s.heap, x), Key(s.now, nowPtr)) {
      var j :| 0 <= j < |s.timers| && s.timers[j] == x;
      if j < n {
        assert xs[j] == x;
      } else {
        assert j > n ==> Less(KeyOf(s.heap, s.timers[n]), KeyOf(s.heap, s.timers[j]));
      }
    }
  }

  /** listExpiredCb: the callbacks of exactly the timers due before now (and, at now itself, of those below the
      now-timer's address), in deadline order; one-shots leave the set for good, recurring timers are re-armed at
      now + ms, all others are untouched, and nothing due strictly before now is left. */
  lemma ListExpiredTakes(s: State, nowPtr: nat)
    requires Inv(s) && nowPtr !in s.heap
    ensures AllIn(s.heap, s.timers)
    ensures var (r, cbs) := ListExpired(s, nowPtr); var xs := Expired(s, nowPtr);
      && Inv(r) && Took(s, xs, r)
      && |cbs| == |xs| && (forall i :: 0 <= i < |xs| ==> xs[i] in s.heap && cbs[i] == s.heap[xs[i]].cb && cbs[i].Some?)
      && (forall i, j :: 0 <= i < j < |xs| ==> s.heap[xs[i]].next <= s.heap[xs[j]].next)
      && (forall x | x in s.timers :: x in s.heap && (s.heap[x].next < s.now ==> x in xs))
      && (forall x | x in s.timers && x in xs :: s.heap[x].next <= s.now)
      && (forall x | x in r.timers :: x in r.heap && s.now <= r.heap[x].next)
  {
    SortedInv(s);
    ExpiredIs(s, nowPtr);
    var xs := Expired(s, nowPtr);
    ExpireAllTakes(s, xs);
    forall i | 0 <= i < |xs| ensures s.heap[xs[i]].cb.Some? { assert TimerOk(s, xs[i]); }
    hide ExpireAll, Expired, Promise, UpperBound;
    var r := ListExpired(s, nowPtr).0;
    forall x | x in r.timers ensures x in r.heap && s.now <= r.heap[x].next { assert x in s.heap; }
    forall i, j | 0 <= i < j < |xs| ensures s.heap[xs[i]].next <= s.heap[xs[j]].next { PrefixOrdered(s, nowPtr, i, j); }
  }

  lemma PrefixOrdered(s: State, nowPtr: nat, i: nat, j: nat)
    requires Sorted(s.heap, s.timers) && i < j < |Expired(s, nowPtr)|
    ensures var xs := Expired(s, nowPtr); xs[i] in s.heap && xs[j] in s.heap && s.heap[xs[i]].next <= s.heap[xs[j]].next
  {
    assert Less(KeyOf(s.heap, s.timers[i]), KeyOf(s.heap, s.timers[j]));
  }

  // ---------- every run ----------

  datatype Action =
    | Tick(ms: nat)                                              // the clock moves on
    | NewTimer(t: nat, ms: nat, cb: nat, recurring: bool)
    | CancelTimer(t: nat)
    | RefreshTimer(t: nat)
    | ResetTimer(t: nat, ms: nat, fromNow: bool)
    | AskNext
    | TakeExpired(nowPtr: nat)

  /** New objects get new addresses. */
  predicate Enabled(s: State, a: Action) {
    match a
    case Tick(_) => true
    case NewTimer(t, _, _, _) => t !in s.heap
    case CancelTimer(t) => t in s.heap
    case RefreshTimer(t) => t in s.heap
    case ResetTimer(t, _, _) => t in s.heap
    case AskNext => true
    case TakeExpired(nowPtr) => nowPtr !in s.heap
  }

  ghost function Next(s: State, a: Action): State
    requires Inv(s) && Enabled(s, a)
  {
    SortedInv(s);
    match a
    case Tick(ms) => s.(now := s.now + ms)
    case NewTimer(t, ms, cb, recurring) => AddTimer(s, t, ms, cb, recurring)
    case CancelTimer(t) => Cancel(s, t).0
    case RefreshTimer(t) => Refresh(s, t).0
    case ResetTimer(t, ms, fromNow) => LookupAgrees(s, t); Reset(s, t, ms, fromNow).0
    case AskNext => GetNextTimer(s).0
    case TakeExpired(nowPtr) => ListExpired(s, nowPtr).0
  }

  lemma NextKeeps(s: State, a: Action)
    requires Inv(s) && Enabled(s, a)
    ensures Inv(Next(s, a))
  {
    SortedInv(s);
    match a
    case Tick(ms) => TickKeeps(s, ms);
    case NewTimer(t, ms, cb, recurring) => AddTimerKeeps(s, t, ms, cb, recurring);
    case CancelTimer(t) => CancelKeeps(s, t);
    case RefreshTimer(t) => RefreshKeeps(s, t);
    case ResetTimer(t, ms, fromNow) => ResetKeeps(s, t, ms, fromNow);
    case AskNext => GetNextKeeps(s);
    case TakeExpired(nowPtr) => ListExpiredTakes(s, nowPtr);
  }

  lemma TickKeeps(s: State, ms: nat)
    requires Inv(s)
    ensures Inv(s.(now := s.now + ms))
  {
    var r := s.(now := s.now + ms);
    forall x | x in r.heap ensures TimerOk(r, x) { assert TimerOk(s, x); }
  }

  const START := State(map[], [], false, 0, {}, None, 0)

  ghost predicate IsRun(states: seq<State>, actions: seq<Action>) {
    && |states| == |actions| + 1 && states[0] == START
    && forall i :: 0 <= i < |actions| ==>
         Enabled(states[i], actions[i]) && (Inv(states[i]) ==> states[i + 1] == Next(states[i], actions[i]))
  }

  lemma {:induction false} RunInv(states: seq<State>, actions: seq<Action>)
    requires IsRun(states, actions)
    ensures Inv(states[|actions|])
  {
    if actions != [] {
      hide Inv, Next, Enabled;
      var n := |actions| - 1;
      assert IsRun(states[..n + 1], actions[..n]);
      RunInv(states[..n + 1], actions[..n]);
      NextKeeps(states[n], actions[n]);
    }
  }

  /** A run that gets there: a one-shot due at once is handed out, and then its cancel erases end(). */
  lemma FiredTimerErasesEnd()
    ensures var s1 := AddTimer(START, 7, 0, 0, false);
      && AllIn(s1.heap, s1.timers)
      && var s2 := ListExpired(s1, 8).0;
      AllIn(s2.heap, s2.timers) && 7 in s2.heap && CancelErasesEnd(s2, 7)
  {
    var s1 := AddTimer(START, 7, 0, 0, false);
    AddTimerKeeps(START, 7, 0, 0, false);
    InsertPlace(START.heap[7 := s1.heap[7]], [], 7, 7);
    SortedInv(s1);
    ListExpiredTakes(s1, 8);
    var s2 := ListExpired(s1, 8).0;
    SortedInv(s2);
    ExpiredIs(s1, 8);
    CancelErasesEndWhen(s2, 7);
  }
}
