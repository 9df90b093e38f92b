/**
 The circuit breaker, told from the history of a run: which operations failed, succeeded or wrote.
 */
module CacheBreaker {
  import opened Wrappers
  import opened Cache
  import opened CacheRuns

  predicate IsWrite(ev: Event) {
    (ev.op.Set? || ev.op.Increment?) && ev.out.Stored?
  }

  // Failures recorded since the last success.
  function FailuresSinceSuccess(events: seq<Event>): nat {
    if events == [] then 0 else
    var before, op := FailuresSinceSuccess(events[..|events| - 1]), events[|events| - 1].op;
    if op.RecordSuccess? then 0 else if op.RecordFailure? then before + 1 else before
  }

  function LastFailure(events: seq<Event>): Option<nat> {
    if events == [] then None else
    var op := events[|events| - 1].op;
    if op.RecordFailure? then Some(op.now) else LastFailure(events[..|events| - 1])
  }

  // A write was accepted since the last failure.
  predicate WroteSinceFailure(events: seq<Event>) {
    events != [] &&
    var ev := events[|events| - 1];
    !ev.op.RecordFailure? && (IsWrite(ev) || WroteSinceFailure(events[..|events| - 1]))
  }

  // Enough failures in a row to trip the breaker.
  predicate Tripped(p: Policy, events: seq<Event>) {
    FailuresSinceSuccess(events) >= 1 && FailuresSinceSuccess(events) >= p.failureThreshold
  }

  lemma {:induction false} FailedAtSomeTime(events: seq<Event>)
    requires FailuresSinceSuccess(events) >= 1
    ensures LastFailure(events).Some?
  {
    if events != [] && !events[|events| - 1].op.RecordFailure? {
      FailedAtSomeTime(events[..|events| - 1]);
    }
  }

  function BreakerOf(p: Policy, events: seq<Event>): Breaker {
    if !Tripped(p, events) then Closed
    else if WroteSinceFailure(events) then HalfOpen
    else if LastFailure(events).Some? then Open(LastFailure(events).value)
    else Closed
  }

  lemma {:induction false} BreakerFollowsHistory(p: Policy, states: seq<Partition>, events: seq<Event>)
    requires IsRun(p, states, events)
    ensures states[|events|].failures == FailuresSinceSuccess(events)
    ensures states[|events|].breaker == BreakerOf(p, events)
  {
    if events != [] {
      var n := |events| - 1;
      RunPrefix(p, states, events);
      BreakerFollowsHistory(p, states[..n + 1], events[..n]);
      StepFollowsHistory(p, states[n], events[..n], events[n], states[n + 1]);
      assert events[..n] + [events[n]] == events;
    }
  }

  lemma StoreMovesBreaker(p: Policy, s: Partition, key: string, value: Value, ttl: Option<nat>, now: nat,
                          out: Outcome, s': Partition)
    requires StoreStep(p, s, key, value, ttl, now, out, s')
    ensures s'.failures == s.failures
    ensures s'.breaker == if out.Stored? && s.breaker.Open? then HalfOpen else s.breaker
  {
  }

  lemma WriteFollowsHistory(p: Policy, before: seq<Event>, ev: Event)
    requires ev.op.Set? || ev.op.Increment?
    ensures FailuresSinceSuccess(before + [ev]) == FailuresSinceSuccess(before)
    ensures BreakerOf(p, before + [ev]) ==
            if ev.out.Stored? && BreakerOf(p, before).Open? then HalfOpen else BreakerOf(p, before)
  {
    assert (before + [ev])[..|before|] == before;
    if Tripped(p, before) {
      FailedAtSomeTime(before);
    }
  }

  lemma StepFollowsHistory(p: Policy, s: Partition, before: seq<Event>, ev: Event, s': Partition)
    requires Step(p, s, ev.op, ev.out, s')
    requires s.failures == FailuresSinceSuccess(before) && s.breaker == BreakerOf(p, before)
    ensures s'.failures == FailuresSinceSuccess(before + [ev])
    ensures s'.breaker == BreakerOf(p, before + [ev])
  {
    match ev.op
    case Set(key, value, ttl, now) =>
      WriteFollowsHistory(p, before, ev);
      StoreMovesBreaker(p, s, key, value, ttl, now, ev.out, s');
    case Increment(key, delta, ttl, now) =>
      WriteFollowsHistory(p, before, ev);
      StoreMovesBreaker(p, s, key, Numeric(Current(s.entries, key, now) + delta), ttl, now, ev.out, s');
    case _ =>
      assert (before + [ev])[..|before|] == before;
  }

  // In every run a write at `now` is rejected exactly when the breaker has been tripped since the
  // last success, no write was accepted since the last failure, and the cooldown since that
  // failure has not passed.
  lemma RejectedExactlyWhen(p: Policy, states: seq<Partition>, events: seq<Event>,
                            op: Op, out: Outcome, s': Partition)
    requires IsRun(p, states, events)
    requires (op.Set? || op.Increment?) && Step(p, states[|events|], op, out, s')
    ensures out == Rejected <==>
            Tripped(p, events) && !WroteSinceFailure(events) && LastFailure(events).Some? &&
            SaturatingSub(op.now, LastFailure(events).value) < p.halfOpenAfter
  {
    BreakerFollowsHistory(p, states, events);
    OpenRejects(p, states[|events|], op, out, s');
    if Tripped(p, events) {
      FailedAtSomeTime(events);
    }
  }

  lemma OpenRejects(p: Policy, s: Partition, op: Op, out: Outcome, s': Partition)
    requires (op.Set? || op.Increment?) && Step(p, s, op, out, s')
    ensures out == Rejected <==> CircuitIsOpen(p, s, op.now)
  {
  }

  lemma HalfOpenIsTripped(p: Policy, states: seq<Partition>, events: seq<Event>)
    requires IsRun(p, states, events) && states[|events|].breaker == HalfOpen
    ensures states[|events|].failures >= p.failureThreshold
  {
    BreakerFollowsHistory(p, states, events);
  }

  lemma FailureTrips(p: Policy, s: Partition, at: nat, s': Partition)
    requires Step(p, s, RecordFailure(at), Done, s') && s.failures >= p.failureThreshold
    ensures s'.breaker == Open(at)
  {
  }

  // One failure while half open opens the breaker again for a whole cooldown.
  lemma HalfOpenFailureReopens(p: Policy, states: seq<Partition>, events: seq<Event>, at: nat,
                               s: Partition, op: Op, out: Outcome, s': Partition)
    requires IsRun(p, states, events) && states[|events|].breaker == HalfOpen
    requires Step(p, states[|events|], RecordFailure(at), Done, s)
    requires (op.Set? || op.Increment?) && SaturatingSub(op.now, at) < p.halfOpenAfter && Step(p, s, op, out, s')
    ensures out == Rejected
  {
    HalfOpenIsTripped(p, states, events);
    FailureTrips(p, states[|events|], at, s);
    OpenRejects(p, s, op, out, s');
  }
}
