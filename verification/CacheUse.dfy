/**
 When the keys of a partition were used, told from the events of a run: eviction takes the key whose
 last use is longest ago.
 */
module CacheUse {
  import opened Wrappers
  import opened Cache
  import opened CacheRuns

  // The event uses the key: a write to it that was accepted, or a read that found it.
  predicate Uses(ev: Event, key: string) {
    match ev.op
    case Set(k, _, _, _) => k == key && ev.out.Stored?
    case Increment(k, _, _, _) => k == key && ev.out.Stored?
    case Get(k, _) => k == key && ev.out.Hit?
    case _ => false
  }

  // The time of the last event that used the key.
  function LastUse(events: seq<Event>, key: string): Option<nat> {
    if events == [] then None
    else if Uses(events[|events| - 1], key) then Some(events[|events| - 1].op.now)
    else LastUse(events[..|events| - 1], key)
  }

  // How often the key was found since it was last written.
  function HitsSinceWrite(events: seq<Event>, key: string): nat {
    if events == [] then 0
    else
      var ev := events[|events| - 1];
      if !Uses(ev, key) then HitsSinceWrite(events[..|events| - 1], key)
      else if ev.op.Get? then HitsSinceWrite(events[..|events| - 1], key) + 1
      else 0
  }

  function CountHits(events: seq<Event>): nat {
    if events == [] then 0
    else CountHits(events[..|events| - 1]) + if events[|events| - 1].out.Hit? then 1 else 0
  }

  function CountMisses(events: seq<Event>): nat {
    if events == [] then 0
    else CountMisses(events[..|events| - 1]) + if events[|events| - 1].out.Miss? then 1 else 0
  }

  function LastRebalance(events: seq<Event>): Option<nat> {
    if events == [] then None
    else if events[|events| - 1].op.Rebalance? then Some(events[|events| - 1].op.now)
    else LastRebalance(events[..|events| - 1])
  }

  // Every entry knows when its key was last used, and how often since it was written.
  ghost predicate KnowsUse(s: Partition, events: seq<Event>) {
    forall k :: k in s.entries ==>
      LastUse(events, k) == Some(s.entries[k].lastAccessed) &&
      HitsSinceWrite(events, k) == s.entries[k].accessCount
  }

  ghost predicate KnowsCounts(s: Partition, events: seq<Event>) {
    s.hits == CountHits(events) && s.misses == CountMisses(events) && s.lastRebalance == LastRebalance(events)
  }

  lemma UseAfter(before: seq<Event>, ev: Event, key: string)
    ensures LastUse(before + [ev], key) == if Uses(ev, key) then Some(ev.op.now) else LastUse(before, key)
    ensures HitsSinceWrite(before + [ev], key) ==
            if !Uses(ev, key) then HitsSinceWrite(before, key)
            else if ev.op.Get? then HitsSinceWrite(before, key) + 1 else 0
  {
    assert (before + [ev])[..|before|] == before;
  }

  lemma CountsAfter(before: seq<Event>, ev: Event)
    ensures CountHits(before + [ev]) == CountHits(before) + if ev.out.Hit? then 1 else 0
    ensures CountMisses(before + [ev]) == CountMisses(before) + if ev.out.Miss? then 1 else 0
    ensures LastRebalance(before + [ev]) == if ev.op.Rebalance? then Some(ev.op.now) else LastRebalance(before)
  {
    assert (before + [ev])[..|before|] == before;
  }

  // A write leaves the new entry, used now, and some old ones untouched.
  lemma StoreKnowsUse(p: Policy, s: Partition, key: string, value: Value, ttl: Option<nat>, now: nat,
                      out: Outcome, s': Partition, k: string)
    requires StoreStep(p, s, key, value, ttl, now, out, s') && k in s'.entries
    ensures if out.Stored? && k == key then s'.entries[k].lastAccessed == now && s'.entries[k].accessCount == 0
            else k in s.entries && s'.entries[k] == s.entries[k]
  {
    if !CircuitIsOpen(p, s, now) {
      var room :| MadeRoom(p, s.entries, now, room) && s' == AfterStore(p, s, room, key, NewEntry(p, value, ttl, now));
      RoomIsPart(p, s.entries, now, room);
    }
  }

  // What one step does to the use of one entry that is there afterwards.
  ghost predicate EntryFollows(s: Partition, ev: Event, s': Partition, k: string)
    requires k in s'.entries
  {
    if Uses(ev, k) then
      s'.entries[k].lastAccessed == ev.op.now &&
      (if ev.op.Get? then k in s.entries && s'.entries[k].accessCount == s.entries[k].accessCount + 1
       else s'.entries[k].accessCount == 0)
    else
      k in s.entries && s'.entries[k].lastAccessed == s.entries[k].lastAccessed &&
      s'.entries[k].accessCount == s.entries[k].accessCount
  }

  lemma StepFollowsUse(p: Policy, s: Partition, ev: Event, s': Partition, k: string)
    requires Step(p, s, ev.op, ev.out, s') && k in s'.entries
    ensures EntryFollows(s, ev, s', k)
  {
    if ev.op.Set? {
      StoreKnowsUse(p, s, ev.op.key, ev.op.value, ev.op.ttl, ev.op.now, ev.out, s', k);
    } else if ev.op.Increment? {
      var value := Numeric(Current(s.entries, ev.op.key, ev.op.now) + ev.op.delta);
      StoreKnowsUse(p, s, ev.op.key, value, ev.op.ttl, ev.op.now, ev.out, s', k);
    }
  }

  lemma StepKnowsUse(p: Policy, s: Partition, before: seq<Event>, ev: Event, s': Partition)
    requires Step(p, s, ev.op, ev.out, s') && KnowsUse(s, before)
    ensures KnowsUse(s', before + [ev])
  {
    forall k | k in s'.entries
      ensures LastUse(before + [ev], k) == Some(s'.entries[k].lastAccessed)
      ensures HitsSinceWrite(before + [ev], k) == s'.entries[k].accessCount
    {
      StepFollowsUse(p, s, ev, s', k);
      UseAfter(before, ev, k);
    }
  }

  lemma StepCounts(p: Policy, s: Partition, ev: Event, s': Partition)
    requires Step(p, s, ev.op, ev.out, s')
    ensures s'.hits == s.hits + (if ev.out.Hit? then 1 else 0)
    ensures s'.misses == s.misses + (if ev.out.Miss? then 1 else 0)
    ensures s'.lastRebalance == if ev.op.Rebalance? then Some(ev.op.now) else s.lastRebalance
  {
  }

  // In every run each entry's access time is that of the last use of its key, its access count the
  // reads that found it since it was written, and the partition's counters those of the run.
  lemma {:induction false} RunKnowsUse(p: Policy, states: seq<Partition>, events: seq<Event>)
    requires IsRun(p, states, events)
    ensures KnowsUse(states[|events|], events) && KnowsCounts(states[|events|], events)
  {
    if events != [] {
      var n := |events| - 1;
      RunPrefix(p, states, events);
      RunKnowsUse(p, states[..n + 1], events[..n]);
      assert events[..n] + [events[n]] == events;
      StepKnowsUse(p, states[n], events[..n], events[n], states[n + 1]);
      StepCounts(p, states[n], events[n], states[n + 1]);
      CountsAfter(events[..n], events[n]);
    }
  }

  // Used no later than the other, as far as the events tell.
  ghost predicate NotLater(events: seq<Event>, a: string, b: string) {
    LastUse(events, a).Some? && LastUse(events, b).Some? && LastUse(events, a).value <= LastUse(events, b).value
  }

  // Least recently used, on the events: in every run, a write displaces a live entry only when live
  // entries fill the partition, and then just one, whose key was last used no later than that of any
  // other live entry.
  lemma EvictsLeastRecentlyUsed(p: Policy, states: seq<Partition>, events: seq<Event>, key: string, value: Value,
                                ttl: Option<nat>, now: nat, out: Outcome, s': Partition, gone: string, k: string)
    requires IsRun(p, states, events) && StoreStep(p, states[|events|], key, value, ttl, now, out, s')
    requires gone in Displaced(states[|events|], now, s') && k in Live(states[|events|].entries, now)
    ensures |Live(states[|events|].entries, now)| >= p.maxEntries
    ensures Displaced(states[|events|], now, s') == {gone}
    ensures NotLater(events, gone, k)
  {
    var s := states[|events|];
    RunKnowsUse(p, states, events);
    EvictionIsMinimal(p, s, key, value, ttl, now, out, s');
    var victim :| Displaced(s, now, s') == {victim} && IsLeastRecent(Live(s.entries, now), victim);
    assert gone in {victim};
    assert gone in s.entries && k in s.entries;
  }
}
