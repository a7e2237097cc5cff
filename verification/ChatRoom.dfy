/** The chat servlet: who is registered under which name, and who is told what. One worker runs all connections, so a
    handler is interrupted only where it sends. */
module ChatRoom {
  import opened Options

  /** A parsed message, as far as the servlet looks at it. */
  datatype Request = Malformed | Login(name: string) | Say(text: string) | Other

  datatype Notice = Entered(name: string) | LeftRoom(name: string) | Said(name: string, text: string)
    | Answer(code: int)

  datatype Sent = Sent(to: nat, what: Notice)

  // ---------- the room as a value ----------

  /** Where `handleClient` stands for a connection: waiting for a message, or sending a handler's answer. */
  datatype Phase = Waiting | Answering

  /** `sessions` is m_sessions; `ids` are the `$id` headers and `live` the phases of the open connections. */
  datatype Room = Room(sessions: map<string, nat>, ids: map<nat, string>, live: map<nat, Phase>)

  function Id(r: Room, c: nat): string { if c in r.ids then r.ids[c] else "" }

  /** A request on a connection, up to the answer. */
  function Handled(r: Room, c: nat, q: Request): Room {
    match q
    case Malformed => Closed(if Id(r, c) == "" then r else r.(sessions := r.sessions - {Id(r, c)}), c)
    case Other => r
    case Say(_) => r.(live := r.live[c := Answering])
    case Login(name) =>
      var r' := r.(live := r.live[c := Answering]);
      if name == "" || Id(r, c) != "" || name in r.sessions then r'
      else r'.(ids := r.ids[c := name], sessions := r.sessions[name := c])
  }

  /** The answer is out, or failed, which ends the loop. */
  function Answered(r: Room, c: nat, ok: bool): Room { if ok then r.(live := r.live[c := Waiting]) else Closed(r, c) }

  /** `onClose`. */
  function Closed(r: Room, c: nat): Room {
    r.(sessions := if Id(r, c) == "" then r.sessions else r.sessions - {Id(r, c)}, live := r.live - {c})
  }

  datatype Step = Connect(c: nat) | Handle(c: nat, q: Request) | Reply(c: nat, ok: bool) | HangUp(c: nat)

  /** Connection numbers are not reused; a new header has no `$id`. */
  predicate Enabled(r: Room, a: Step) {
    match a
    case Connect(c) => c !in r.live && c !in r.ids
    case Handle(c, _) => c in r.live && r.live[c].Waiting?
    case Reply(c, _) => c in r.live && r.live[c].Answering?
    case HangUp(c) => c in r.live && r.live[c].Waiting?
  }

  function Next(r: Room, a: Step): Room
    requires Enabled(r, a)
  {
    match a
    case Connect(c) => r.(live := r.live[c := Waiting], ids := r.ids[c := ""])
    case Handle(c, q) => Handled(r, c, q)
    case Reply(c, ok) => Answered(r, c, ok)
    case HangUp(c) => Closed(r, c)
  }

  /** A name maps to a connection exactly when that open connection logged in under it. */
  ghost predicate Inv(r: Room) {
    && (forall n | n in r.sessions :: n != "" && r.sessions[n] in r.live && Id(r, r.sessions[n]) == n)
    && (forall c | c in r.live :: c in r.ids)
    && (forall c | c in r.live && r.ids[c] != "" :: r.ids[c] in r.sessions && r.sessions[r.ids[c]] == c)
  }

  lemma NextInv(r: Room, a: Step)
    requires Inv(r) && Enabled(r, a)
    ensures Inv(Next(r, a))
  {
  }

  const EMPTY := Room(map[], map[], map[])

  ghost predicate IsRun(states: seq<Room>, steps: seq<Step>) {
    && |states| == |steps| + 1 && states[0] == EMPTY
    && forall i :: 0 <= i < |steps| ==> Enabled(states[i], steps[i]) && states[i + 1] == Next(states[i], steps[i])
  }

  lemma {:induction false} RunInv(states: seq<Room>, steps: seq<Step>)
    requires IsRun(states, steps)
    ensures Inv(states[|steps|])
  {
    if steps != [] {
      hide Inv, Next, Enabled;
      var n := |steps| - 1;
      assert IsRun(states[..n + 1], steps[..n]);
      RunInv(states[..n + 1], steps[..n]);
      NextInv(states[n], steps[n]);
    }
  }

  /** In every run: the registry is exactly the logged-in open connections, no two share a name, and a closed
      connection holds none. */
  lemma NamesMatchConnections(states: seq<Room>, steps: seq<Step>, n: string, c: nat, d: nat)
    requires IsRun(states, steps) && n != ""
    ensures var r := states[|steps|];
      && ((n in r.sessions && r.sessions[n] == c) <==> (c in r.live && Id(r, c) == n))
      && (c in r.live && d in r.live && Id(r, c) == n && Id(r, d) == n ==> c == d)
      && (c !in r.live ==> !(n in r.sessions && r.sessions[n] == c))
  {
    RunInv(states, steps);
  }

  /** Answering 402 is never wrong: the name is held by another open connection. */
  lemma RefusedNameIsTaken(states: seq<Room>, steps: seq<Step>, c: nat, name: string)
    requires IsRun(states, steps) && c in states[|steps|].live && Id(states[|steps|], c) == ""
    requires name in states[|steps|].sessions
    ensures exists d :: d in states[|steps|].live && d != c && Id(states[|steps|], d) == name
  {
    RunInv(states, steps);
    var r := states[|steps|];
    assert r.sessions[name] in r.live;
  }

  // ---------- from login to close ----------

  /** The connection's loop ends: the peer hangs up, an answer cannot be sent, or a message cannot be parsed. */
  predicate Closes(a: Step, c: nat) {
    match a
    case HangUp(d) => d == c
    case Reply(d, ok) => d == c && !ok
    case Handle(d, q) => d == c && q.Malformed?
    case Connect(_) => false
  }

  predicate Holds(r: Room, c: nat, name: string) { name in r.sessions && r.sessions[name] == c && c in r.live }

  /** A login under a free, nonempty name by a connection that has none registers it, whatever it is. */
  lemma LoginRegisters(r: Room, c: nat, name: string)
    requires Inv(r) && Enabled(r, Step.Handle(c, Login(name)))
    ensures Holds(Next(r, Step.Handle(c, Login(name))), c, name) <==>
      Holds(r, c, name) || (name != "" && Id(r, c) == "" && name !in r.sessions)
  {
  }

  lemma NameStays(r: Room, a: Step, c: nat, name: string)
    requires Inv(r) && Enabled(r, a) && Holds(r, c, name)
    ensures Holds(Next(r, a), c, name) <==> !Closes(a, c)
    ensures Closes(a, c) ==> c !in Next(r, a).live && name !in Next(r, a).sessions
  {
  }

  /** In every run: once logged in, a connection holds its name until it closes, and then the name is free at once. */
  lemma {:induction false} HoldsUntilClosed(states: seq<Room>, steps: seq<Step>, i: nat, j: nat, c: nat, name: string)
    requires IsRun(states, steps) && i <= j < |steps| && Holds(states[i], c, name)
    requires forall k :: i <= k < j ==> !Closes(steps[k], c)
    ensures Holds(states[j], c, name)
    ensures Holds(states[j + 1], c, name) <==> !Closes(steps[j], c)
    ensures Closes(steps[j], c) ==> c !in states[j + 1].live && name !in states[j + 1].sessions
    decreases j
  {
    hide Next, Enabled, Inv, Closes, Holds;
    if i < j { HoldsUntilClosed(states, steps, i, j - 1, c, name); }
    assert IsRun(states[..j + 1], steps[..j]);
    RunInv(states[..j + 1], steps[..j]);
    NameStays(states[j], steps[j], c, name);
  }

  // ---------- who is told ----------

  predicate Injective(sessions: map<string, nat>) {
    forall m, n :: m in sessions && n in sessions && sessions[m] == sessions[n] ==> m == n
  }

  lemma InvInjective(r: Room)
    requires Inv(r)
    ensures Injective(r.sessions)
  {
  }

  /** Told exactly once: every registered session but `except`, and nobody else. */
  ghost predicate ToldOnce(sessions: map<string, nat>, except: Option<nat>, what: Notice, out: seq<Sent>) {
    && (forall i :: 0 <= i < |out| ==> out[i].what == what)
    && forall c: nat :: multiset(out)[Sent(c, what)] == if c in sessions.Values && except != Some(c) then 1 else 0
  }

  class ChatServlet {
    var sessions: map<string, nat>   // m_sessions
    var ids: map<nat, string>        // the `$id` headers
    var live: map<nat, Phase>
    var log: seq<Sent>               // everything handed to a session, in order

    ghost function Abs(): Room
      reads this
    {
      Room(sessions, ids, live)
    }

    ghost predicate Valid()
      reads this
    {
      Inv(Abs())
    }

    method SendMessage(c: nat, what: Notice)
      modifies this`log
      ensures log == old(log) + [Sent(c, what)]
    {
      log := log + [Sent(c, what)];
    }

    /** The loop over a snapshot of the registry. */
    method SessionNotify(what: Notice, except: Option<nat>)
      requires Injective(sessions)
      modifies this`log
      ensures old(log) <= log && ToldOnce(sessions, except, what, log[|old(log)|..])
    {
      var snapshot := sessions;
      var todo := snapshot.Keys;
      ghost var out: seq<Sent> := [];
      while todo != {}
        invariant todo <= snapshot.Keys && log == old(log) + out
        invariant forall i :: 0 <= i < |out| ==> out[i].what == what
        invariant forall c: nat ::
          multiset(out)[Sent(c, what)] == if ToldAlready(snapshot, todo, c) && except != Some(c) then 1 else 0
        decreases todo
      {
        var k :| k in todo;
        ghost var before, d := todo, snapshot[k];
        todo := todo - {k};
        assert !ToldAlready(snapshot, before, d) && ToldAlready(snapshot, todo, d);
        assert forall c: nat :: c != d ==> (ToldAlready(snapshot, todo, c) <==> ToldAlready(snapshot, before, c));
        if Some(snapshot[k]) == except { continue; }
        SendMessage(snapshot[k], what);
        out := out + [Sent(d, what)];
      }
      assert log[|old(log)|..] == out;
      assert forall c: nat :: ToldAlready(snapshot, {}, c) <==> c in snapshot.Values;
    }

    /** `handle`, up to the point where its answer is sent. A malformed message ends the loop, so `onClose` follows at
        once. */
    method Handle(c: nat, q: Request) returns (answer: Option<int>)
      requires Valid() && c in live && live[c].Waiting?
      modifies this
      ensures Valid() && Abs() == Handled(old(Abs()), c, q) && old(log) <= log
      ensures q.Login? ==> answer == Some(
          if q.name == "" then 400 else if old(Id(Abs(), c)) != "" then 401 else if q.name in old(sessions) then 402
          else 200)
      ensures q.Say? ==> answer == Some(if q.text == "" then 500 else if old(Id(Abs(), c)) == "" then 501 else 200)
      ensures q.Malformed? || q.Other? ==> answer == None
      ensures q.Login? && answer == Some(200) ==> ToldOnce(sessions, Some(c), Entered(q.name), log[|old(log)|..])
      ensures q.Say? && answer == Some(200) ==>
        ToldOnce(sessions, None, Said(old(Id(Abs(), c)), q.text), log[|old(log)|..])
      ensures q.Malformed? && old(Id(Abs(), c)) != "" ==>
        ToldOnce(sessions, Some(c), LeftRoom(old(Id(Abs(), c))), log[|old(log)|..])
      ensures answer.Some? && answer != Some(200) ==> log == old(log)
    {
      NextInv(Abs(), Step.Handle(c, q));
      var id := ids[c];
      match q
      case Malformed =>
        if id != "" { sessions := sessions - {id}; }
        CloseWith(c, id);
        return None;
      case Other =>
        return None;
      case Login(name) =>
        live := live[c := Answering];
        if name == "" { return Some(400); }
        if id != "" { return Some(401); }
        if name in sessions { return Some(402); }
        ids := ids[c := name];
        sessions := sessions[name := c];
        InvInjective(Abs());
        SessionNotify(Entered(name), Some(c));
        return Some(200);
      case Say(text) =>
        live := live[c := Answering];
        if text == "" { return Some(500); }
        if id == "" { return Some(501); }
        InvInjective(Abs());
        SessionNotify(Said(id, text), None);
        return Some(200);
    }

    /** The answer itself, and `onClose` if it cannot be sent. */
    method Reply(c: nat, code: int, ok: bool)
      requires Valid() && c in live && live[c].Answering?
      modifies this
      ensures Valid() && Abs() == Answered(old(Abs()), c, ok) && old(log) <= log && |log| > |old(log)|
      ensures log[|old(log)|] == Sent(c, Answer(code))
      ensures !ok && old(Id(Abs(), c)) != "" ==>
        ToldOnce(sessions, Some(c), LeftRoom(old(Id(Abs(), c))), log[|old(log)| + 1..])
    {
      NextInv(Abs(), Step.Reply(c, ok));
      SendMessage(c, Answer(code));
      if ok { live := live[c := Waiting]; } else { CloseWith(c, ids[c]); }
    }

    /** `onClose` when no further message arrives. */
    method OnClose(c: nat)
      requires Valid() && c in live && live[c].Waiting?
      modifies this
      ensures Valid() && Abs() == Closed(old(Abs()), c) && old(log) <= log
      ensures old(Id(Abs(), c)) != "" ==> ToldOnce(sessions, Some(c), LeftRoom(old(Id(Abs(), c))), log[|old(log)|..])
    {
      NextInv(Abs(), HangUp(c));
      CloseWith(c, ids[c]);
    }

    method CloseWith(c: nat, id: string)
      requires c in ids && ids[c] == id && Inv(Closed(Abs(), c))
      modifies this
      ensures Abs() == Closed(old(Abs()), c) && old(log) <= log
      ensures id != "" ==> ToldOnce(sessions, Some(c), LeftRoom(id), log[|old(log)|..])
    {
      live := live - {c};
      if id != "" {
        sessions := sessions - {id};
        InvInjective(Abs());
        SessionNotify(LeftRoom(id), Some(c));
      }
    }
  }

  /** Some name of `c` is no longer to do. */
  predicate ToldAlready(snapshot: map<string, nat>, todo: set<string>, c: nat) {
    exists n :: n in snapshot && n !in todo && snapshot[n] == c
  }
}
