/**
 The write queue (`serialised` in src/handlers/resource.js): a map from lock path to the last promise
 of a chain, in which each caller waits for the one it found.
 */
module WriteQueue {
  import opened OrderedMap

  type Key = string

  /** How the guarded function ended; a lock that is taken is answered 503. */
  datatype Outcome = Returned | LockTaken | Threw

  datatype Phase = Waiting | Holding | Released(outcome: Outcome)

  /** One call: its key, and the call whose tail promise it awaits. */
  datatype Call = Call(key: Key, previous: int, phase: Phase)

  /** No earlier tail: `Promise.resolve()`. */
  const NONE := -1

  datatype State = State(tails: map<Key, nat>, calls: seq<Call>)

  datatype Step = Arrive(key: Key) | Wake(c: nat) | Release(c: nat, outcome: Outcome)

  // ---------- the promises ----------

  /** `tail = previous.then(() => mine)` is resolved when the chain before it and its own promise are. */
  predicate TailResolved(calls: seq<Call>, c: int)
    decreases c
  {
    c < 0 || (c < |calls| && calls[c].phase.Released? && calls[c].previous < c && TailResolved(calls, calls[c].previous))
  }

  predicate Enabled(s: State, step: Step) {
    match step
    case Arrive(_) => true
    case Wake(c) => c < |s.calls| && s.calls[c].phase == Waiting && TailResolved(s.calls, s.calls[c].previous)
    case Release(c, _) => c < |s.calls| && s.calls[c].phase == Holding
  }

  function Next(s: State, step: Step): State
    requires Enabled(s, step)
  {
    match step
    case Arrive(key) =>
      var previous := if key in s.tails then s.tails[key] else NONE;
      State(s.tails[key := |s.calls|], s.calls + [Call(key, previous, Waiting)])
    case Wake(c) => s.(calls := s.calls[c := s.calls[c].(phase := Holding)])
    case Release(c, outcome) =>
      var key := s.calls[c].key;
      State(if key in s.tails && s.tails[key] == c then s.tails - {key} else s.tails,
            s.calls[c := s.calls[c].(phase := Released(outcome))])
  }

  // ---------- the code ----------

  class Queues {
    /** `writeQueues`, and the promises of the calls so far in order of arrival. */
    var writeQueues: map<Key, nat>
    var calls: seq<Call>

    function Now(): State
      reads this
    {
      State(writeQueues, calls)
    }

    constructor ()
      ensures Now() == State(map[], [])
    {
      writeQueues := map[];
      calls := [];
    }

    /** `serialised` up to `await previous`. */
    method Enter(key: Key) returns (c: nat)
      modifies this
      ensures c == |old(calls)| && Now() == Next(old(Now()), Arrive(key))
    {
      var previous := if key in writeQueues then writeQueues[key] else NONE;
      c := |calls|;
      calls := calls + [Call(key, previous, Waiting)];
      writeQueues := writeQueues[key := c];
    }

    /** The continuation after `await previous`. */
    method Resume(c: nat)
      requires Enabled(Now(), Wake(c))
      modifies this
      ensures Now() == Next(old(Now()), Wake(c))
    {
      calls := calls[c := calls[c].(phase := Holding)];
    }

    /** The `catch` and `finally` blocks: a lock that is taken is answered 503, anything else is the function's own. */
    method Finish(c: nat, outcome: Outcome) returns (reply: Option<int>)
      requires Enabled(Now(), Release(c, outcome))
      modifies this
      ensures Now() == Next(old(Now()), Release(c, outcome))
      ensures reply == if outcome == LockTaken then Some(503) else None
    {
      reply := if outcome == LockTaken then Some(503) else None;
      var key := calls[c].key;
      calls := calls[c := calls[c].(phase := Released(outcome))];
      if key in writeQueues && writeQueues[key] == c {
        writeQueues := writeQueues - {key};
      }
    }
  }

  // ---------- what every reachable state satisfies ----------

  ghost predicate Linked(calls: seq<Call>, c: nat)
    requires c < |calls|
  {
    var p := calls[c].previous;
    if p == NONE then forall d :: 0 <= d < c && calls[d].key == calls[c].key ==> calls[d].phase.Released?
    else
      && 0 <= p < c && calls[p].key == calls[c].key
      && forall d :: p < d < c ==> calls[d].key != calls[c].key
  }

  /** A call that has woken has only released ones of its key before it. */
  ghost predicate InTurn(calls: seq<Call>, c: nat)
    requires c < |calls|
  {
    calls[c].phase != Waiting ==> forall d :: 0 <= d < c && calls[d].key == calls[c].key ==> calls[d].phase.Released?
  }

  /** The map entry is the last call of its key, still at work; without an entry none is at work. */
  ghost predicate TailOk(s: State, key: Key) {
    if key in s.tails then
      var t := s.tails[key];
      && t < |s.calls| && s.calls[t].key == key && !s.calls[t].phase.Released?
      && forall d :: t < d < |s.calls| ==> s.calls[d].key != key
    else forall d :: 0 <= d < |s.calls| && s.calls[d].key == key ==> s.calls[d].phase.Released?
  }

  ghost predicate Inv(s: State) {
    && (forall c :: 0 <= c < |s.calls| ==> Linked(s.calls, c))
    && (forall c :: 0 <= c < |s.calls| ==> InTurn(s.calls, c))
    && (forall key :: TailOk(s, key))
  }

  lemma ResolvedIsReleased(calls: seq<Call>, c: int)
    requires -1 <= c < |calls| && forall d :: 0 <= d < |calls| ==> Linked(calls, d) && InTurn(calls, d)
    ensures TailResolved(calls, c) <==> c == NONE || calls[c].phase.Released?
    decreases c
  {
    if c >= 0 {
      assert Linked(calls, c) && InTurn(calls, c);
      ResolvedIsReleased(calls, calls[c].previous);
    }
  }

  lemma ArriveKeepsInv(s: State, key: Key)
    requires Inv(s)
    ensures Inv(Next(s, Arrive(key)))
  {
    var r := Next(s, Arrive(key));
    assert TailOk(s, key);
    forall c | 0 <= c < |r.calls| ensures Linked(r.calls, c) && InTurn(r.calls, c) {
      if c < |s.calls| {
        assert Linked(s.calls, c) && InTurn(s.calls, c);
      }
    }
    forall k ensures TailOk(r, k) {
      assert TailOk(s, k);
    }
  }

  /** When a call wakes, every earlier call of its key is released. */
  lemma WakesInTurn(s: State, c: nat)
    requires Inv(s) && Enabled(s, Wake(c))
    ensures forall d :: 0 <= d < c && s.calls[d].key == s.calls[c].key ==> s.calls[d].phase.Released?
  {
    var p := s.calls[c].previous;
    assert Linked(s.calls, c);
    ResolvedIsReleased(s.calls, p);
    if p != NONE {
      assert InTurn(s.calls, p);
    }
  }

  lemma WakeKeepsInv(s: State, c: nat)
    requires Inv(s) && Enabled(s, Wake(c))
    ensures Inv(Next(s, Wake(c)))
  {
    var r := Next(s, Wake(c));
    WakesInTurn(s, c);
    forall d | 0 <= d < |r.calls| ensures Linked(r.calls, d) && InTurn(r.calls, d) {
      assert Linked(s.calls, d) && InTurn(s.calls, d);
    }
    forall k ensures TailOk(r, k) {
      assert TailOk(s, k);
    }
  }

  lemma ReleaseKeepsInv(s: State, c: nat, outcome: Outcome)
    requires Inv(s) && Enabled(s, Release(c, outcome))
    ensures Inv(Next(s, Release(c, outcome)))
  {
    var r := Next(s, Release(c, outcome));
    forall d | 0 <= d < |r.calls| ensures Linked(r.calls, d) && InTurn(r.calls, d) {
      assert Linked(s.calls, d) && InTurn(s.calls, d);
    }
    forall k ensures TailOk(r, k) {
      assert TailOk(s, k);
      assert InTurn(s.calls, c);
    }
  }

  lemma NextKeepsInv(s: State, step: Step)
    requires Inv(s) && Enabled(s, step)
    ensures Inv(Next(s, step))
  {
    match step
    case Arrive(key) => ArriveKeepsInv(s, key);
    case Wake(c) => WakeKeepsInv(s, c);
    case Release(c, outcome) => ReleaseKeepsInv(s, c, outcome);
  }

  /** The state after a run of steps, if each was enabled. */
  function Run(steps: seq<Step>): Option<State>
    decreases |steps|
  {
    if steps == [] then Some(State(map[], []))
    else
      var before, last := Run(steps[..|steps| - 1]), steps[|steps| - 1];
      if before.Some? && Enabled(before.value, last) then Some(Next(before.value, last)) else None
  }

  predicate Reachable(s: State, steps: seq<Step>) {
    Run(steps) == Some(s)
  }

  lemma {:induction false} ReachableInv(s: State, steps: seq<Step>)
    requires Reachable(s, steps)
    ensures Inv(s)
    decreases |steps|
  {
    if steps != [] {
      var before, last := Run(steps[..|steps| - 1]).value, steps[|steps| - 1];
      ReachableInv(before, steps[..|steps| - 1]);
      NextKeepsInv(before, last);
    }
  }

  // ---------- safety ----------

  /** At most one call per key is between wake-up and release. */
  lemma OneHolder(s: State, steps: seq<Step>, c: nat, d: nat)
    requires Reachable(s, steps) && c < |s.calls| && d < |s.calls| && s.calls[c].key == s.calls[d].key
    requires s.calls[c].phase == Holding && s.calls[d].phase == Holding
    ensures c == d
  {
    ReachableInv(s, steps);
    assert InTurn(s.calls, c) && InTurn(s.calls, d);
  }

  /** Calls of one key enter in order of arrival: when one has woken, all before it are released. */
  lemma ArrivalOrder(s: State, steps: seq<Step>, c: nat, d: nat)
    requires Reachable(s, steps) && c < d < |s.calls| && s.calls[c].key == s.calls[d].key && s.calls[d].phase != Waiting
    ensures s.calls[c].phase.Released?
  {
    ReachableInv(s, steps);
    assert InTurn(s.calls, d);
  }

  ghost predicate Busy(s: State, key: Key) {
    exists c :: 0 <= c < |s.calls| && s.calls[c].key == key && !s.calls[c].phase.Released?
  }

  /** The map has an entry for exactly the keys with a call still waiting or at work. */
  lemma EntryIffBusy(s: State, steps: seq<Step>, key: Key)
    requires Reachable(s, steps)
    ensures key in s.tails <==> Busy(s, key)
  {
    ReachableInv(s, steps);
    assert TailOk(s, key);
  }

  /** A release takes the entry away exactly when nobody waits behind it. */
  lemma EntryDropped(s: State, steps: seq<Step>, c: nat, outcome: Outcome)
    requires Reachable(s, steps) && Enabled(s, Release(c, outcome))
    ensures var key := s.calls[c].key;
      key !in Next(s, Release(c, outcome)).tails
      <==> !exists d :: 0 <= d < |s.calls| && d != c && s.calls[d].key == key && s.calls[d].phase == Waiting
  {
    ReachableInv(s, steps);
    var key := s.calls[c].key;
    assert TailOk(s, key) && InTurn(s.calls, c);
    var t := s.tails[key];
    if t != c {
      assert InTurn(s.calls, t);
      assert s.calls[t].phase == Waiting;
    } else {
      assert forall d :: 0 <= d < |s.calls| && d != c && s.calls[d].key == key ==> s.calls[d].phase.Released?;
    }
  }

  // ---------- progress ----------

  ghost predicate First(s: State, key: Key, c: nat) {
    && c < |s.calls| && s.calls[c].key == key && !s.calls[c].phase.Released?
    && forall d :: 0 <= d < c && s.calls[d].key == key ==> s.calls[d].phase.Released?
  }

  lemma {:induction false} FirstOf(s: State, key: Key, c: nat) returns (f: nat)
    requires c < |s.calls| && s.calls[c].key == key && !s.calls[c].phase.Released?
    ensures f <= c && First(s, key, f)
    decreases c
  {
    f := c;
    if d :| 0 <= d < c && s.calls[d].key == key && !s.calls[d].phase.Released? {
      f := FirstOf(s, key, d);
    }
  }

  /**
   A busy key always has a step to take: its first unreleased call can wake, or it is at work and
   its release, whether it returned, found the lock taken or threw, is possible.
   */
  lemma BusyHasStep(s: State, steps: seq<Step>, key: Key) returns (c: nat)
    requires Reachable(s, steps) && Busy(s, key)
    ensures First(s, key, c)
    ensures Enabled(s, Wake(c)) || forall outcome :: Enabled(s, Release(c, outcome))
  {
    ReachableInv(s, steps);
    var any :| 0 <= any < |s.calls| && s.calls[any].key == key && !s.calls[any].phase.Released?;
    c := FirstOf(s, key, any);
    assert Linked(s.calls, c);
    ResolvedIsReleased(s.calls, s.calls[c].previous);
  }

  /** Steps left to take without new arrivals. */
  function Work(calls: seq<Call>): nat {
    if calls == [] then 0
    else
      var last := calls[|calls| - 1].phase;
      Work(calls[..|calls| - 1]) + (if last == Waiting then 2 else if last == Holding then 1 else 0)
  }

  lemma {:induction false} WorkUpdate(calls: seq<Call>, c: nat, phase: Phase)
    requires c < |calls| && ((calls[c].phase == Waiting && phase == Holding) || (calls[c].phase == Holding && phase.Released?))
    ensures Work(calls[c := calls[c].(phase := phase)]) == Work(calls) - 1
  {
    var n := |calls| - 1;
    var after := calls[c := calls[c].(phase := phase)];
    if c < n {
      assert after[..n] == calls[..n][c := calls[c].(phase := phase)];
      WorkUpdate(calls[..n], c, phase);
    } else {
      assert after[..n] == calls[..n];
    }
  }

  lemma {:induction false} WorkLeft(calls: seq<Call>, c: nat)
    requires c < |calls| && !calls[c].phase.Released?
    ensures Work(calls) > 0
  {
    if c < |calls| - 1 {
      WorkLeft(calls[..|calls| - 1], c);
    }
  }

  /** Without new arrivals the work left falls by one at each wake-up and release. */
  lemma EveryStepDrains(s: State, step: Step)
    requires Enabled(s, step) && !step.Arrive?
    ensures Work(Next(s, step).calls) == Work(s.calls) - 1
  {
    match step
    case Arrive(_) =>
    case Wake(c) => WorkUpdate(s.calls, c, Holding);
    case Release(c, outcome) => WorkUpdate(s.calls, c, Released(outcome));
  }

  /** When no work is left all map entries are gone, and the other way round. */
  lemma IdleIffEmpty(s: State, steps: seq<Step>)
    requires Reachable(s, steps)
    ensures Work(s.calls) == 0 <==> s.tails == map[]
  {
    if key :| key in s.tails {
      EntryIffBusy(s, steps, key);
      var c :| 0 <= c < |s.calls| && s.calls[c].key == key && !s.calls[c].phase.Released?;
      WorkLeft(s.calls, c);
    } else {
      assert s.tails == map[];
      NothingLeft(s, steps, |s.calls|);
      assert s.calls[..|s.calls|] == s.calls;
    }
  }

  lemma {:induction false} NothingLeft(s: State, steps: seq<Step>, n: nat)
    requires Reachable(s, steps) && n <= |s.calls| && s.tails == map[]
    ensures Work(s.calls[..n]) == 0
    decreases n
  {
    if n > 0 {
      NothingLeft(s, steps, n - 1);
      assert s.calls[..n][..n - 1] == s.calls[..n - 1];
      EntryIffBusy(s, steps, s.calls[n - 1].key);
    }
  }

  /** From every reachable state the calls can all be served, and then the map is empty. */
  lemma {:induction false} CanDrain(s: State, steps: seq<Step>) returns (more: seq<Step>, end: State)
    requires Reachable(s, steps)
    ensures |more| == Work(s.calls) && forall i :: 0 <= i < |more| ==> !more[i].Arrive?
    ensures Reachable(end, steps + more) && end.tails == map[]
    decreases Work(s.calls)
  {
    IdleIffEmpty(s, steps);
    if s.tails == map[] {
      more, end := [], s;
      assert steps + [] == steps;
    } else {
      var key :| key in s.tails;
      EntryIffBusy(s, steps, key);
      var c := BusyHasStep(s, steps, key);
      var step := if Enabled(s, Wake(c)) then Wake(c) else Release(c, Returned);
      EveryStepDrains(s, step);
      assert (steps + [step])[..|steps|] == steps;
      var rest, e := CanDrain(Next(s, step), steps + [step]);
      more, end := [step] + rest, e;
      assert steps + more == steps + [step] + rest;
    }
  }
}
