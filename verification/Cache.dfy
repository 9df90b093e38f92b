/**
 One cache partition: entries with a time to live, least-recently-used eviction and a circuit
 breaker in front of the writes. `Step` says what each operation may do; the class does it.

 Times are milliseconds passed in by the caller. Values are JSON values; only numbers are looked
 into (by `increment`), and floating point is modelled by reals.
 */
module Cache {
  import opened Wrappers

  datatype Value = Numeric(n: real) | Other(json: string)

  datatype Entry = Entry(
    value: Value,
    createdAt: nat,
    lastAccessed: nat,
    accessCount: nat,
    ttl: Option<nat>)

  datatype Breaker = Closed | Open(openedAt: nat) | HalfOpen

  // `eviction_policy` is not modelled: the code evicts least recently used whatever it says.
  datatype Policy = Policy(
    defaultTtl: Option<nat>,
    maxEntries: nat,
    failureThreshold: nat,
    halfOpenAfter: nat)

  type Entries = map<string, Entry>

  datatype Partition = Partition(
    entries: Entries,
    breaker: Breaker,
    failures: nat,
    hits: nat,
    misses: nat,
    evictions: nat,
    lastRebalance: Option<nat>)

  const EMPTY := Partition(map[], Closed, 0, 0, 0, 0, None)

  function SaturatingSub(a: nat, b: nat): nat {
    if a < b then 0 else a - b
  }

  predicate Expired(e: Entry, now: nat) {
    e.ttl.Some? && SaturatingSub(now, e.createdAt) > e.ttl.value
  }

  function Live(es: Entries, now: nat): Entries {
    map k | k in es && !Expired(es[k], now) :: es[k]
  }

  predicate CircuitIsOpen(p: Policy, s: Partition, now: nat) {
    s.breaker.Open? && SaturatingSub(now, s.breaker.openedAt) < p.halfOpenAfter
  }

  function EffectiveTtl(p: Policy, ttl: Option<nat>): Option<nat> {
    if ttl.Some? then ttl else p.defaultTtl
  }

  // The number `increment` starts from.
  function Current(es: Entries, key: string, now: nat): real {
    if key in es && !Expired(es[key], now) && es[key].value.Numeric? then es[key].value.n else 0.0
  }

  // No entry was used longer ago.
  predicate IsLeastRecent(es: Entries, victim: string) {
    victim in es && forall k :: k in es ==> es[victim].lastAccessed <= es[k].lastAccessed
  }

  // What `evict_lru_if_full` may leave: which of several least recent entries goes depends on the
  // iteration order of the hash map.
  ghost predicate MadeRoom(p: Policy, es: Entries, now: nat, room: Entries) {
    if |es| < p.maxEntries then room == es
    else if |Live(es, now)| < p.maxEntries || Live(es, now) == map[] then room == Live(es, now)
    else exists victim :: IsLeastRecent(Live(es, now), victim) && room == Live(es, now) - {victim}
  }

  datatype Op =
    | Get(key: string, now: nat)
    | Set(key: string, value: Value, ttl: Option<nat>, now: nat)
    | Increment(key: string, delta: real, ttl: Option<nat>, now: nat)
    | Expire(key: string, newTtl: nat, now: nat)
    | Invalidate(key: string)
    | InvalidateAll
    | EvictByPrefix(prefix: string)
    | Rebalance(now: nat)
    | RecordFailure(now: nat)
    | RecordSuccess

  datatype Outcome =
    | Hit(value: Value)
    | Miss
    | Stored(value: Value)
    | Rejected
    | Answer(yes: bool)
    | Removed(count: nat)
    | Rebalanced(before: nat, evicted: nat, after: nat, at: nat)
    | Done

  function NewEntry(p: Policy, value: Value, ttl: Option<nat>, now: nat): Entry {
    Entry(value, now, now, 0, EffectiveTtl(p, ttl))
  }

  function AfterStore(p: Policy, s: Partition, room: Entries, key: string, e: Entry): Partition
  {
    s.(entries := room[key := e],
       breaker := if s.breaker.Open? then HalfOpen else s.breaker,
       evictions := s.evictions + SaturatingSub(|s.entries|, |room|))
  }

  ghost predicate StoreStep(p: Policy, s: Partition, key: string, value: Value, ttl: Option<nat>, now: nat,
                            out: Outcome, s': Partition) {
    if CircuitIsOpen(p, s, now) then out == Rejected && s' == s
    else
      out == Stored(value) &&
      exists room :: MadeRoom(p, s.entries, now, room) &&
                     s' == AfterStore(p, s, room, key, NewEntry(p, value, ttl, now))
  }

  lemma RoomGivesStore(p: Policy, s: Partition, key: string, value: Value, ttl: Option<nat>, now: nat, room: Entries)
    requires !CircuitIsOpen(p, s, now) && MadeRoom(p, s.entries, now, room)
    ensures StoreStep(p, s, key, value, ttl, now, Stored(value),
                      AfterStore(p, s, room, key, NewEntry(p, value, ttl, now)))
  {
  }

  ghost predicate GetStep(s: Partition, key: string, now: nat, out: Outcome, s': Partition) {
    if key !in s.entries then out == Miss && s' == s.(misses := s.misses + 1)
    else if Expired(s.entries[key], now) then
      out == Miss && s' == s.(entries := s.entries - {key}, misses := s.misses + 1)
    else
      var e := s.entries[key];
      out == Hit(e.value) &&
      s' == s.(entries := s.entries[key := e.(lastAccessed := now, accessCount := e.accessCount + 1)],
               hits := s.hits + 1)
  }

  ghost predicate ExpireStep(s: Partition, key: string, newTtl: nat, now: nat, out: Outcome, s': Partition) {
    if key !in s.entries || Expired(s.entries[key], now) then
      out == Answer(false) && s' == s.(entries := s.entries - {key})
    else
      out == Answer(true) &&
      s' == s.(entries := s.entries[key := s.entries[key].(ttl := Some(newTtl), createdAt := now)])
  }

  function WithoutPrefix(es: Entries, prefix: string): Entries {
    map k | k in es && !(prefix <= k) :: es[k]
  }

  ghost predicate Step(p: Policy, s: Partition, op: Op, out: Outcome, s': Partition) {
    match op
    case Get(key, now) => GetStep(s, key, now, out, s')
    case Set(key, value, ttl, now) => StoreStep(p, s, key, value, ttl, now, out, s')
    case Increment(key, delta, ttl, now) =>
      StoreStep(p, s, key, Numeric(Current(s.entries, key, now) + delta), ttl, now, out, s')
    case Expire(key, newTtl, now) => ExpireStep(s, key, newTtl, now, out, s')
    case Invalidate(key) => out == Answer(key in s.entries) && s' == s.(entries := s.entries - {key})
    case InvalidateAll => out == Removed(|s.entries|) && s' == s.(entries := map[])
    case EvictByPrefix(prefix) => out == Done && s' == s.(entries := WithoutPrefix(s.entries, prefix))
    case Rebalance(now) =>
      var live := Live(s.entries, now);
      out == Rebalanced(|s.entries|, SaturatingSub(|s.entries|, |live|), |live|, now) &&
      s' == s.(entries := live, lastRebalance := Some(now),
               evictions := s.evictions + SaturatingSub(|s.entries|, |live|))
    case RecordFailure(now) =>
      out == Done &&
      s' == s.(failures := s.failures + 1,
               breaker := if s.failures + 1 >= p.failureThreshold then Open(now) else s.breaker)
    case RecordSuccess => out == Done && s' == s.(failures := 0, breaker := Closed)
  }

  function ExpiredKeys(es: Entries, now: nat): set<string> {
    set k | k in es && Expired(es[k], now)
  }

  lemma LiveSmaller(es: Entries, now: nat)
    ensures Live(es, now) == es - ExpiredKeys(es, now)
    ensures |Live(es, now)| + |ExpiredKeys(es, now)| == |es|
  {
    var gone := ExpiredKeys(es, now);
    assert Live(es, now).Keys == es.Keys - gone;
    assert |es.Keys - gone| + |gone| == |es.Keys|;
  }

  lemma RemoveOneMore(es: Entries, keys: set<string>, left: set<string>, k: string)
    requires k in left && left <= keys
    ensures (es - (keys - left)) - {k} == es - (keys - (left - {k}))
  {
    assert (keys - left) + {k} == keys - (left - {k});
  }

  // ------------------------------------------------------------------------
  // The partition object
  // ------------------------------------------------------------------------

  class CachePartition {
    const partitionId: string
    const policy: Policy
    var entries: Entries
    var breaker: Breaker
    var failures: nat
    var hits: nat
    var misses: nat
    var evictions: nat
    var lastRebalance: Option<nat>

    function View(): Partition
      reads this
    {
      Partition(entries, breaker, failures, hits, misses, evictions, lastRebalance)
    }

    // A new partition is empty and its breaker closed.
    constructor (partitionId: string, policy: Policy)
      ensures this.partitionId == partitionId && this.policy == policy && View() == EMPTY
    {
      this.partitionId := partitionId;
      this.policy := policy;
      entries := map[];
      breaker := Closed;
      failures, hits, misses, evictions := 0, 0, 0, 0;
      lastRebalance := None;
    }

    // A partition taken out of a manager, as it stands there.
    constructor Existing(partitionId: string, policy: Policy, s: Partition)
      ensures this.partitionId == partitionId && this.policy == policy && View() == s
    {
      this.partitionId := partitionId;
      this.policy := policy;
      entries := s.entries;
      breaker := s.breaker;
      failures, hits, misses, evictions := s.failures, s.hits, s.misses, s.evictions;
      lastRebalance := s.lastRebalance;
    }

    method GetValue(key: string, now: nat) returns (out: Outcome)
      modifies this
      ensures Step(policy, old(View()), Get(key, now), out, View())
    {
      if key in entries && Expired(entries[key], now) {
        entries := entries - {key};
        misses := misses + 1;
        return Miss;
      }
      if key !in entries {
        misses := misses + 1;
        return Miss;
      }
      var e := entries[key];
      entries := entries[key := e.(lastAccessed := now, accessCount := e.accessCount + 1)];
      hits := hits + 1;
      return Hit(e.value);
    }

    method RemoveKeys(keys: set<string>)
      modifies this`entries
      ensures entries == old(entries) - keys
    {
      var left := keys;
      assert keys - left == {};
      while left != {}
        invariant left <= keys
        invariant entries == old(entries) - (keys - left)
        decreases left
      {
        var k :| k in left;
        RemoveOneMore(old(entries), keys, left, k);
        entries := entries - {k};
        left := left - {k};
      }
      assert keys - left == keys;
    }

    // Collects the expired keys, then removes them one by one.
    method EvictExpired(now: nat) returns (count: nat)
      modifies this`entries, this`evictions
      ensures entries == Live(old(entries), now)
      ensures count == |old(entries)| - |entries| && evictions == old(evictions) + count
    {
      LiveSmaller(entries, now);
      var expired := ExpiredKeys(entries, now);
      RemoveKeys(expired);
      count := |expired|;
      evictions := evictions + count;
    }

    // The least recently accessed key, scanning the entries in any order.
    method LeastRecent() returns (victim: string)
      requires entries != map[]
      ensures IsLeastRecent(entries, victim)
    {
      var left := entries.Keys;
      victim :| victim in left;
      left := left - {victim};
      while left != {}
        invariant left <= entries.Keys && victim in entries
        invariant forall k :: k in entries && k !in left ==> entries[victim].lastAccessed <= entries[k].lastAccessed
        decreases left
      {
        var k :| k in left;
        if entries[k].lastAccessed < entries[victim].lastAccessed {
          victim := k;
        }
        left := left - {k};
      }
    }

    method EvictLruIfFull(now: nat)
      modifies this`entries, this`evictions
      ensures MadeRoom(policy, old(entries), now, entries)
      ensures |entries| <= |old(entries)|
      ensures evictions == old(evictions) + |old(entries)| - |entries|
    {
      if |entries| < policy.maxEntries {
        return;
      }
      LiveSmaller(entries, now);
      var _ := EvictExpired(now);
      if |entries| >= policy.maxEntries && entries != map[] {
        var victim := LeastRecent();
        ghost var was := entries;
        entries := entries - {victim};
        evictions := evictions + 1;
        assert entries.Keys == was.Keys - {victim};
      }
    }

    method SetValue(key: string, value: Value, ttl: Option<nat>, now: nat) returns (out: Outcome)
      modifies this
      ensures Step(policy, old(View()), Set(key, value, ttl, now), out, View())
    {
      if CircuitIsOpen(policy, View(), now) {
        return Rejected;
      }
      if breaker.Open? {
        breaker := HalfOpen;
      }
      EvictLruIfFull(now);
      RoomGivesStore(policy, old(View()), key, value, ttl, now, entries);
      entries := entries[key := NewEntry(policy, value, ttl, now)];
      return Stored(value);
    }

    method IncrementValue(key: string, delta: real, ttl: Option<nat>, now: nat) returns (out: Outcome)
      modifies this
      ensures Step(policy, old(View()), Increment(key, delta, ttl, now), out, View())
    {
      var current := Current(entries, key, now);
      out := SetValue(key, Numeric(current + delta), ttl, now);
    }

    method ExpireKey(key: string, newTtl: nat, now: nat) returns (out: Outcome)
      modifies this
      ensures Step(policy, old(View()), Expire(key, newTtl, now), out, View())
    {
      if key !in entries || Expired(entries[key], now) {
        entries := entries - {key};
        return Answer(false);
      }
      entries := entries[key := entries[key].(ttl := Some(newTtl), createdAt := now)];
      return Answer(true);
    }

    method RebalanceEntries(now: nat) returns (id: string, out: Outcome)
      modifies this
      ensures id == partitionId
      ensures forall k :: k in entries <==> k in old(entries) && !Expired(old(entries)[k], now)
      ensures Step(policy, old(View()), Rebalance(now), out, View())
    {
      LiveSmaller(entries, now);
      var before := |entries|;
      var evicted := EvictExpired(now);
      var after := |entries|;
      lastRebalance := Some(now);
      return partitionId, Rebalanced(before, evicted, after, now);
    }

    method InvalidateKey(key: string) returns (out: Outcome)
      modifies this
      ensures Step(policy, old(View()), Invalidate(key), out, View())
    {
      out := Answer(key in entries);
      entries := entries - {key};
    }

    method InvalidateEntries() returns (out: Outcome)
      modifies this
      ensures Step(policy, old(View()), InvalidateAll, out, View())
    {
      out := Removed(|entries|);
      entries := map[];
    }

    // Looks at the keys in any order and drops those with the prefix.
    method EvictPrefix(prefix: string)
      modifies this
      ensures Step(policy, old(View()), EvictByPrefix(prefix), Done, View())
      ensures forall k :: k in entries <==> k in old(entries) && !(prefix <= k)
    {
      var left := entries.Keys;
      while left != {}
        invariant left <= old(entries).Keys
        invariant entries == map k | k in old(entries) && (k in left || !(prefix <= k)) :: old(entries)[k]
        invariant View() == old(View()).(entries := entries)
        decreases left
      {
        var k :| k in left;
        if prefix <= k {
          entries := entries - {k};
        }
        left := left - {k};
      }
    }

    method NoteFailure(now: nat)
      modifies this
      ensures Step(policy, old(View()), RecordFailure(now), Done, View())
    {
      failures := failures + 1;
      if failures >= policy.failureThreshold {
        breaker := Open(now);
      }
    }

    method NoteSuccess()
      modifies this
      ensures Step(policy, old(View()), RecordSuccess, Done, View())
    {
      failures := 0;
      breaker := Closed;
    }
  }
}
