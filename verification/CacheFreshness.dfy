/**
 The partition against a reference: a map without bounds or eviction that remembers, per key, the
 last value written and its deadline.
 */
module CacheFreshness {
  import opened Wrappers
  import opened Cache
  import opened CacheRuns

  datatype Written = Written(value: Value, deadline: Option<nat>)

  type Ledger = map<string, Written>

  function DeadlineOf(createdAt: nat, ttl: Option<nat>): Option<nat> {
    if ttl.Some? then Some(createdAt + ttl.value) else None
  }

  function Record(e: Entry): Written {
    Written(e.value, DeadlineOf(e.createdAt, e.ttl))
  }

  // Readable up to and including the deadline.
  predicate Fresh(w: Written, now: nat) {
    w.deadline.None? || now <= w.deadline.value
  }

  lemma ExpiredIsStale(e: Entry, now: nat)
    ensures Expired(e, now) <==> !Fresh(Record(e), now)
  {
  }

  // When a value written now is to expire: after its own time to live, or else after the default one,
  // or else never.
  function WriteDeadline(p: Policy, ttl: Option<nat>, now: nat): Option<nat> {
    if ttl.Some? then Some(now + ttl.value)
    else if p.defaultTtl.Some? then Some(now + p.defaultTtl.value)
    else None
  }

  // The reference only looks at what was asked and what came back.
  function NextLedger(p: Policy, l: Ledger, ev: Event): Ledger {
    match ev.op
    case Set(key, value, ttl, now) =>
      if ev.out.Stored? then l[key := Written(value, WriteDeadline(p, ttl, now))] else l
    case Increment(key, _, ttl, now) =>
      if ev.out.Stored? then l[key := Written(ev.out.value, WriteDeadline(p, ttl, now))] else l
    case Expire(key, newTtl, now) =>
      if ev.out == Answer(true) && key in l then l[key := l[key].(deadline := Some(now + newTtl))] else l
    case Invalidate(key) => l - {key}
    case InvalidateAll => map[]
    case EvictByPrefix(prefix) => map k | k in l && !(prefix <= k) :: l[k]
    case _ => l
  }

  function LedgerOf(p: Policy, events: seq<Event>): Ledger {
    if events == [] then map[] else
    NextLedger(p, LedgerOf(p, events[..|events| - 1]), events[|events| - 1])
  }

  // Every entry is what the ledger says.
  ghost predicate Agrees(s: Partition, l: Ledger) {
    forall k :: k in s.entries ==> k in l && l[k] == Record(s.entries[k])
  }

  // An accepted write leaves the new entry and some of the old ones.
  lemma StoredEntries(p: Policy, s: Partition, key: string, value: Value, ttl: Option<nat>, now: nat,
                      out: Outcome, s': Partition)
    requires StoreStep(p, s, key, value, ttl, now, out, s') && out.Stored?
    ensures out.value == value && key in s'.entries && s'.entries[key] == NewEntry(p, value, ttl, now)
    ensures forall k :: k in s'.entries && k != key ==> k in s.entries && s'.entries[k] == s.entries[k]
  {
    var e := NewEntry(p, value, ttl, now);
    var room :| MadeRoom(p, s.entries, now, room) && s' == AfterStore(p, s, room, key, e);
    RoomIsPart(p, s.entries, now, room);
  }

  lemma NewEntryRecord(p: Policy, value: Value, ttl: Option<nat>, now: nat)
    ensures Record(NewEntry(p, value, ttl, now)) == Written(value, WriteDeadline(p, ttl, now))
  {
  }

  lemma StoreAgrees(p: Policy, s: Partition, key: string, value: Value, ttl: Option<nat>, now: nat,
                    out: Outcome, s': Partition, l: Ledger)
    requires StoreStep(p, s, key, value, ttl, now, out, s') && Agrees(s, l)
    ensures Agrees(s', if out.Stored? then l[key := Written(value, WriteDeadline(p, ttl, now))] else l)
  {
    if out.Stored? {
      StoredEntries(p, s, key, value, ttl, now, out, s');
      NewEntryRecord(p, value, ttl, now);
    }
  }

  lemma QuietStepAgrees(p: Policy, s: Partition, ev: Event, s': Partition, l: Ledger)
    requires Step(p, s, ev.op, ev.out, s') && Agrees(s, l) && !ev.op.Set? && !ev.op.Increment?
    ensures Agrees(s', NextLedger(p, l, ev))
  {
  }

  lemma StepAgrees(p: Policy, s: Partition, ev: Event, s': Partition, l: Ledger)
    requires Step(p, s, ev.op, ev.out, s') && Agrees(s, l)
    ensures Agrees(s', NextLedger(p, l, ev))
  {
    match ev.op
    case Set(key, value, ttl, now) => StoreAgrees(p, s, key, value, ttl, now, ev.out, s', l);
    case Increment(key, delta, ttl, now) =>
      StoreAgrees(p, s, key, Numeric(Current(s.entries, key, now) + delta), ttl, now, ev.out, s', l);
    case _ => QuietStepAgrees(p, s, ev, s', l);
  }

  lemma {:induction false} EntriesAgree(p: Policy, states: seq<Partition>, events: seq<Event>)
    requires IsRun(p, states, events)
    ensures Agrees(states[|events|], LedgerOf(p, events))
  {
    if events != [] {
      var n := |events| - 1;
      RunPrefix(p, states, events);
      EntriesAgree(p, states[..n + 1], events[..n]);
      StepAgrees(p, states[n], events[n], states[n + 1], LedgerOf(p, events[..n]));
    }
  }

  // A hit is never stale: whatever the timestamps, it returns the last value written to the key,
  // no later than the deadline that value was given.
  lemma HitIsNeverStale(p: Policy, states: seq<Partition>, events: seq<Event>, key: string, now: nat,
                        v: Value, s': Partition)
    requires IsRun(p, states, events)
    requires Step(p, states[|events|], Get(key, now), Hit(v), s')
    ensures var l := LedgerOf(p, events); key in l && l[key].value == v && Fresh(l[key], now)
  {
    EntriesAgree(p, states, events);
    ExpiredIsStale(states[|events|].entries[key], now);
  }

  // ------------------------------------------------------------------------
  // Misses
  // ------------------------------------------------------------------------

  function TimeOf(op: Op, clock: nat): nat {
    match op
    case Get(_, now) => now
    case Set(_, _, _, now) => now
    case Increment(_, _, _, now) => now
    case Expire(_, _, now) => now
    case Rebalance(now) => now
    case RecordFailure(now) => now
    case _ => clock
  }

  function Clock(events: seq<Event>): nat {
    if events == [] then 0 else TimeOf(events[|events| - 1].op, Clock(events[..|events| - 1]))
  }

  // Time does not run backwards.
  ghost predicate Monotone(events: seq<Event>) {
    events == [] ||
    (Monotone(events[..|events| - 1]) && Clock(events[..|events| - 1]) <= Clock(events))
  }

  // The keys whose live entry was displaced by a write to another key and not written since.
  ghost function LostKeys(states: seq<Partition>, events: seq<Event>): set<string>
    requires |states| == |events| + 1
  {
    if events == [] then {} else
    var n := |events| - 1;
    NextLost(LostKeys(states[..n + 1], events[..n]), states[n], events[n], states[n + 1])
  }

  ghost function NextLost(lost: set<string>, s: Partition, ev: Event, s': Partition): set<string> {
    if ev.op.Set? || ev.op.Increment? then
      if ev.out.Stored? then lost + Displaced(s, ev.op.now, s') - {ev.op.key} else lost
    else lost
  }

  // At the given time the partition holds every fresh key of the ledger but the lost ones.
  ghost predicate HoldsAllBut(s: Partition, l: Ledger, lost: set<string>, now: nat) {
    lost !! s.entries.Keys &&
    forall k :: k in l && Fresh(l[k], now) && k !in lost ==> k in s.entries
  }

  lemma FreshEarlier(w: Written, now: nat, later: nat)
    requires Fresh(w, later) && now <= later
    ensures Fresh(w, now)
  {
  }

  lemma StoreHolds(p: Policy, s: Partition, key: string, value: Value, ttl: Option<nat>, now: nat,
                   out: Outcome, s': Partition, l: Ledger, lost: set<string>, clock: nat)
    requires StoreStep(p, s, key, value, ttl, now, out, s') && Agrees(s, l) && clock <= now
    requires HoldsAllBut(s, l, lost, clock) && out.Stored?
    ensures HoldsAllBut(s', l[key := Written(out.value, WriteDeadline(p, ttl, now))],
                        lost + Displaced(s, now, s') - {key}, now)
  {
    StoredEntries(p, s, key, value, ttl, now, out, s');
    var lost' := lost + Displaced(s, now, s') - {key};
    forall k | k in l && Fresh(l[k], now) && k != key && k !in lost'
      ensures k in s'.entries
    {
      FreshEarlier(l[k], clock, now);
      ExpiredIsStale(s.entries[k], now);
      assert k in Live(s.entries, now);
    }
  }

  lemma QuietStepHolds(p: Policy, s: Partition, ev: Event, s': Partition, l: Ledger, lost: set<string>, clock: nat)
    requires Step(p, s, ev.op, ev.out, s') && Agrees(s, l) && HoldsAllBut(s, l, lost, clock)
    requires clock <= TimeOf(ev.op, clock) && !ev.op.Set? && !ev.op.Increment?
    ensures HoldsAllBut(s', NextLedger(p, l, ev), lost, TimeOf(ev.op, clock))
  {
    var now, l' := TimeOf(ev.op, clock), NextLedger(p, l, ev);
    forall k | k in l' && Fresh(l'[k], now) && k !in lost
      ensures k in s'.entries
    {
      assert k in l;
      if l'[k] == l[k] {
        FreshEarlier(l[k], clock, now);
        ExpiredIsStale(s.entries[k], now);
      }
    }
  }

  lemma StepHolds(p: Policy, s: Partition, ev: Event, s': Partition, l: Ledger, lost: set<string>, clock: nat)
    requires Step(p, s, ev.op, ev.out, s') && Agrees(s, l) && HoldsAllBut(s, l, lost, clock)
    requires clock <= TimeOf(ev.op, clock)
    ensures HoldsAllBut(s', NextLedger(p, l, ev), NextLost(lost, s, ev, s'), TimeOf(ev.op, clock))
  {
    match ev.op
    case Set(key, value, ttl, now) =>
      if ev.out.Stored? {
        StoreHolds(p, s, key, value, ttl, now, ev.out, s', l, lost, clock);
      } else {
        RejectedHolds(s, l, lost, clock, now);
      }
    case Increment(key, delta, ttl, now) =>
      if ev.out.Stored? {
        StoreHolds(p, s, key, Numeric(Current(s.entries, key, now) + delta), ttl, now, ev.out, s', l, lost, clock);
      } else {
        RejectedHolds(s, l, lost, clock, now);
      }
    case _ => QuietStepHolds(p, s, ev, s', l, lost, clock);
  }

  lemma RejectedHolds(s: Partition, l: Ledger, lost: set<string>, clock: nat, now: nat)
    requires HoldsAllBut(s, l, lost, clock) && clock <= now
    ensures HoldsAllBut(s, l, lost, now)
  {
    forall k | k in l && Fresh(l[k], now) && k !in lost
      ensures k in s.entries
    {
      FreshEarlier(l[k], clock, now);
    }
  }

  lemma {:induction false} RunHolds(p: Policy, states: seq<Partition>, events: seq<Event>)
    requires IsRun(p, states, events) && Monotone(events)
    ensures HoldsAllBut(states[|events|], LedgerOf(p, events), LostKeys(states, events), Clock(events))
  {
    if events != [] {
      var n := |events| - 1;
      RunPrefix(p, states, events);
      RunHolds(p, states[..n + 1], events[..n]);
      EntriesAgree(p, states[..n + 1], events[..n]);
      StepHolds(p, states[n], events[n], states[n + 1], LedgerOf(p, events[..n]),
                LostKeys(states[..n + 1], events[..n]), Clock(events[..n]));
    }
  }

  // While time moves forward an entry is present and live if and only if the last write to its key
  // is still fresh and was not displaced since, and then it carries that value.
  lemma {:induction false} LiveExactly(p: Policy, states: seq<Partition>, events: seq<Event>, key: string, now: nat)
    requires IsRun(p, states, events) && Monotone(events) && Clock(events) <= now
    ensures var s, l := states[|events|], LedgerOf(p, events);
            (key in s.entries && !Expired(s.entries[key], now) <==>
             key in l && Fresh(l[key], now) && key !in LostKeys(states, events)) &&
            (key in s.entries ==> key in l && s.entries[key].value == l[key].value)
  {
    var s, l := states[|events|], LedgerOf(p, events);
    RunHolds(p, states, events);
    EntriesAgree(p, states, events);
    if key in s.entries {
      ExpiredIsStale(s.entries[key], now);
    } else if key in l && Fresh(l[key], now) {
      FreshEarlier(l[key], Clock(events), now);
    }
  }

  // While time moves forward the bounded cache answers exactly like the unbounded map, except for
  // keys that eviction displaced: a read hits if and only if the last write to the key is still
  // fresh and its entry was not displaced since.
  lemma {:induction false} ReadsAreExact(p: Policy, states: seq<Partition>, events: seq<Event>, key: string, now: nat,
                                         out: Outcome, s': Partition)
    requires IsRun(p, states, events) && Monotone(events) && Clock(events) <= now
    requires Step(p, states[|events|], Get(key, now), out, s')
    ensures var l := LedgerOf(p, events);
            out == if key in l && Fresh(l[key], now) && key !in LostKeys(states, events) then Hit(l[key].value)
                   else Miss
  {
    LiveExactly(p, states, events, key, now);
  }

  // The number last written to the key, if that write is still fresh and was not displaced since.
  ghost function KeptNumber(p: Policy, states: seq<Partition>, events: seq<Event>, key: string, now: nat): real
    requires |states| == |events| + 1
  {
    var l := LedgerOf(p, events);
    if key in l && Fresh(l[key], now) && key !in LostKeys(states, events) && l[key].value.Numeric? then l[key].value.n
    else 0.0
  }

  lemma {:induction false} CurrentIsKept(p: Policy, states: seq<Partition>, events: seq<Event>, key: string, now: nat)
    requires IsRun(p, states, events) && Monotone(events) && Clock(events) <= now
    ensures Current(states[|events|].entries, key, now) == KeptNumber(p, states, events, key, now)
  {
    LiveExactly(p, states, events, key, now);
  }

  ghost predicate IncrementsFrom(p: Policy, s: Partition, n: real, delta: real, now: nat, out: Outcome) {
    out == if CircuitIsOpen(p, s, now) then Rejected else Stored(Numeric(n + delta))
  }

  lemma IncrementStores(p: Policy, s: Partition, key: string, delta: real, ttl: Option<nat>, now: nat,
                        out: Outcome, s': Partition)
    requires Step(p, s, Increment(key, delta, ttl, now), out, s')
    ensures IncrementsFrom(p, s, Current(s.entries, key, now), delta, now, out)
  {
  }

  // Likewise an accepted increment stores the delta on top of the number an unbounded map would
  // hold, except for displaced keys, which start from 0 again.
  lemma {:induction false} IncrementIsExact(p: Policy, states: seq<Partition>, events: seq<Event>, key: string,
                                            delta: real, ttl: Option<nat>, now: nat, out: Outcome, s': Partition)
    requires IsRun(p, states, events) && Monotone(events) && Clock(events) <= now
    requires Step(p, states[|events|], Increment(key, delta, ttl, now), out, s')
    ensures IncrementsFrom(p, states[|events|], KeptNumber(p, states, events, key, now), delta, now, out)
  {
    IncrementStores(p, states[|events|], key, delta, ttl, now, out, s');
    CurrentIsKept(p, states, events, key, now);
  }

  // A new time to live is accepted exactly for keys a read would find.
  lemma {:induction false} ExpireIsExact(p: Policy, states: seq<Partition>, events: seq<Event>, key: string,
                                         newTtl: nat, now: nat, out: Outcome, s': Partition)
    requires IsRun(p, states, events) && Monotone(events) && Clock(events) <= now
    requires Step(p, states[|events|], Expire(key, newTtl, now), out, s')
    ensures var l := LedgerOf(p, events);
            out == Answer(key in l && Fresh(l[key], now) && key !in LostKeys(states, events))
  {
    LiveExactly(p, states, events, key, now);
  }
}
