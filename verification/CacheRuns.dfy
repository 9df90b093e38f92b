/**
 Runs of a cache partition: what every run keeps of its capacity, and what eviction takes.
 */
module CacheRuns {
  import opened Wrappers
  import opened Cache

  datatype Event = Event(op: Op, out: Outcome)

  // states[i] is the partition before event i; a run starts empty.
  ghost predicate IsRun(p: Policy, states: seq<Partition>, events: seq<Event>) {
    |states| == |events| + 1 && states[0] == EMPTY &&
    forall i :: 0 <= i < |events| ==> Step(p, states[i], events[i].op, events[i].out, states[i + 1])
  }

  lemma RunPrefix(p: Policy, states: seq<Partition>, events: seq<Event>)
    requires IsRun(p, states, events) && events != []
    ensures IsRun(p, states[..|events|], events[..|events| - 1])
    ensures Step(p, states[|events| - 1], events[|events| - 1].op, events[|events| - 1].out, states[|events|])
  {
    var n := |events| - 1;
    assert Step(p, states[n], events[n].op, events[n].out, states[n + 1]);
    forall i | 0 <= i < n
      ensures Step(p, states[..n + 1][i], events[..n][i].op, events[..n][i].out, states[..n + 1][i + 1])
    {
      assert Step(p, states[i], events[i].op, events[i].out, states[i + 1]);
    }
  }

  // ------------------------------------------------------------------------
  // Capacity
  // ------------------------------------------------------------------------

  function Capacity(p: Policy): nat {
    if p.maxEntries == 0 then 1 else p.maxEntries
  }

  lemma RoomForOne(p: Policy, es: Entries, now: nat, room: Entries)
    requires MadeRoom(p, es, now, room) && |es| <= Capacity(p)
    ensures |room| < Capacity(p) && room.Keys <= es.Keys
  {
    LiveSmaller(es, now);
    var live := Live(es, now);
    if |es| >= p.maxEntries && |live| >= p.maxEntries && live != map[] {
      var victim :| IsLeastRecent(live, victim) && room == live - {victim};
      assert room.Keys == live.Keys - {victim};
    }
  }

  // Only writes add a key.
  lemma OthersAddNoKey(p: Policy, s: Partition, op: Op, out: Outcome, s': Partition)
    requires Step(p, s, op, out, s') && !op.Set? && !op.Increment?
    ensures s'.entries.Keys <= s.entries.Keys
  {
  }

  lemma StepKeepsCapacity(p: Policy, s: Partition, op: Op, out: Outcome, s': Partition)
    requires Step(p, s, op, out, s') && |s.entries| <= Capacity(p)
    ensures |s'.entries| <= Capacity(p)
  {
    if op.Set? {
      StoreKeepsCapacity(p, s, op.key, op.value, op.ttl, op.now, out, s');
    } else if op.Increment? {
      var value := Numeric(Current(s.entries, op.key, op.now) + op.delta);
      StoreKeepsCapacity(p, s, op.key, value, op.ttl, op.now, out, s');
    } else {
      OthersAddNoKey(p, s, op, out, s');
      SameOrFewer(s.entries, s'.entries);
    }
  }

  lemma SameOrFewer(es: Entries, es': Entries)
    requires es'.Keys <= es.Keys
    ensures |es'| <= |es|
  {
    assert |es.Keys - es'.Keys| == |es.Keys| - |es'.Keys|;
  }

  lemma StoreKeepsCapacity(p: Policy, s: Partition, key: string, value: Value, ttl: Option<nat>, now: nat,
                           out: Outcome, s': Partition)
    requires StoreStep(p, s, key, value, ttl, now, out, s') && |s.entries| <= Capacity(p)
    ensures |s'.entries| <= Capacity(p)
  {
    if !CircuitIsOpen(p, s, now) {
      var e := NewEntry(p, value, ttl, now);
      var room :| MadeRoom(p, s.entries, now, room) && s' == AfterStore(p, s, room, key, e);
      RoomForOne(p, s.entries, now, room);
      AtMostOneMore(room, key, e);
    }
  }

  lemma AtMostOneMore(es: Entries, key: string, e: Entry)
    ensures |es[key := e]| <= |es| + 1
  {
    assert es[key := e].Keys == es.Keys + {key};
  }

  // The partition never holds more entries than allowed (a maximum of 0 acts as 1).
  lemma {:induction false} WithinCapacity(p: Policy, states: seq<Partition>, events: seq<Event>)
    requires IsRun(p, states, events)
    ensures |states[|events|].entries| <= Capacity(p)
  {
    if events != [] {
      var n := |events| - 1;
      RunPrefix(p, states, events);
      WithinCapacity(p, states[..n + 1], events[..n]);
      StepKeepsCapacity(p, states[n], events[n].op, events[n].out, states[n + 1]);
    }
  }

  // The keys of live entries that an operation at `now` made disappear.
  ghost function Displaced(s: Partition, now: nat, s': Partition): set<string> {
    Live(s.entries, now).Keys - s'.entries.Keys
  }

  lemma RoomTakesOne(p: Policy, es: Entries, now: nat, room: Entries)
    requires MadeRoom(p, es, now, room)
    ensures var gone := Live(es, now).Keys - room.Keys;
            gone != {} ==>
              |Live(es, now)| >= p.maxEntries &&
              exists victim :: gone == {victim} && IsLeastRecent(Live(es, now), victim)
  {
    var live := Live(es, now);
    if |es| >= p.maxEntries && |live| >= p.maxEntries && live != map[] {
      var victim :| IsLeastRecent(live, victim) && room == live - {victim};
      assert live.Keys - room.Keys == {victim};
    }
  }

  lemma RoomIsPart(p: Policy, es: Entries, now: nat, room: Entries)
    requires MadeRoom(p, es, now, room)
    ensures forall k :: k in room ==> k in es && room[k] == es[k]
  {
    var live := Live(es, now);
    if |es| >= p.maxEntries && |live| >= p.maxEntries && live != map[] {
      var victim :| IsLeastRecent(live, victim) && room == live - {victim};
    }
  }

  lemma SubsetOfOne(a: set<string>, b: set<string>, x: string)
    requires a <= b && a != {} && b == {x}
    ensures a == {x}
  {
    var y :| y in a;
    assert y == x;
  }

  // A write displaces a live entry only when the partition was full of live entries, and then
  // just one, than which no live entry was used longer ago.
  lemma EvictionIsMinimal(p: Policy, s: Partition, key: string, value: Value, ttl: Option<nat>, now: nat,
                          out: Outcome, s': Partition)
    requires StoreStep(p, s, key, value, ttl, now, out, s')
    ensures Displaced(s, now, s') != {} ==>
      |Live(s.entries, now)| >= p.maxEntries &&
      exists victim :: Displaced(s, now, s') == {victim} && IsLeastRecent(Live(s.entries, now), victim)
  {
    if !CircuitIsOpen(p, s, now) && Displaced(s, now, s') != {} {
      var e := NewEntry(p, value, ttl, now);
      var room :| MadeRoom(p, s.entries, now, room) && s' == AfterStore(p, s, room, key, e);
      var gone := Live(s.entries, now).Keys - room.Keys;
      assert Displaced(s, now, s') <= gone;
      RoomTakesOne(p, s.entries, now, room);
      var victim :| gone == {victim} && IsLeastRecent(Live(s.entries, now), victim);
      SubsetOfOne(Displaced(s, now, s'), gone, victim);
    }
  }

  // ------------------------------------------------------------------------
  // Overwriting a live key
  // ------------------------------------------------------------------------

  function Overwritten(p: Policy, s: Partition, key: string, value: Value, ttl: Option<nat>, now: nat,
                       room: Entries): Partition {
    AfterStore(p, s, room, key, NewEntry(p, value, ttl, now))
  }

  // When the live entries fill the partition, any least recent one may be the victim.
  lemma FullOutcome(p: Policy, s: Partition, key: string, value: Value, ttl: Option<nat>, now: nat, victim: string)
    requires !CircuitIsOpen(p, s, now) && |Live(s.entries, now)| >= p.maxEntries
    requires IsLeastRecent(Live(s.entries, now), victim)
    ensures var s' := Overwritten(p, s, key, value, ttl, now, Live(s.entries, now) - {victim});
            StoreStep(p, s, key, value, ttl, now, Stored(value), s') && Displaced(s, now, s') == {victim} - {key}
  {
    var live := Live(s.entries, now);
    LiveSmaller(s.entries, now);
    assert MadeRoom(p, s.entries, now, live - {victim});
    RoomGivesStore(p, s, key, value, ttl, now, live - {victim});
  }

  // Otherwise no live entry goes.
  lemma RoomyOutcome(p: Policy, s: Partition, key: string, value: Value, ttl: Option<nat>, now: nat)
    returns (s': Partition)
    requires !CircuitIsOpen(p, s, now) && |Live(s.entries, now)| < p.maxEntries
    ensures StoreStep(p, s, key, value, ttl, now, Stored(value), s') && Displaced(s, now, s') == {}
  {
    var room := if |s.entries| < p.maxEntries then s.entries else Live(s.entries, now);
    assert MadeRoom(p, s.entries, now, room);
    RoomGivesStore(p, s, key, value, ttl, now, room);
    s' := Overwritten(p, s, key, value, ttl, now, room);
  }

  // Some outcome of overwriting a live key displaces another live entry, although no room is
  // needed, if and only if the live entries fill the partition and one other than the key is least
  // recent.
  lemma OverwriteMayDisplace(p: Policy, s: Partition, key: string, value: Value, ttl: Option<nat>, now: nat)
    requires !CircuitIsOpen(p, s, now) && key in Live(s.entries, now)
    ensures (exists s' :: StoreStep(p, s, key, value, ttl, now, Stored(value), s') && Displaced(s, now, s') != {}) <==>
            |Live(s.entries, now)| >= p.maxEntries &&
            exists victim :: victim != key && IsLeastRecent(Live(s.entries, now), victim)
  {
    var live := Live(s.entries, now);
    if s' :| StoreStep(p, s, key, value, ttl, now, Stored(value), s') && Displaced(s, now, s') != {} {
      EvictionIsMinimal(p, s, key, value, ttl, now, Stored(value), s');
      var victim :| Displaced(s, now, s') == {victim} && IsLeastRecent(live, victim);
      StoredKey(p, s, key, value, ttl, now, s');
      assert victim in Displaced(s, now, s') && victim != key;
    }
    if victim :| |live| >= p.maxEntries && victim != key && IsLeastRecent(live, victim) {
      FullOutcome(p, s, key, value, ttl, now, victim);
      assert victim in {victim} - {key};
    }
  }

  // Every outcome does if and only if the live entries fill the partition and the key itself is not
  // least recent.
  lemma OverwriteMustDisplace(p: Policy, s: Partition, key: string, value: Value, ttl: Option<nat>, now: nat)
    requires !CircuitIsOpen(p, s, now) && key in Live(s.entries, now)
    ensures (forall s' :: StoreStep(p, s, key, value, ttl, now, Stored(value), s') ==> Displaced(s, now, s') != {}) <==>
            |Live(s.entries, now)| >= p.maxEntries && !IsLeastRecent(Live(s.entries, now), key)
  {
    var live := Live(s.entries, now);
    if |live| < p.maxEntries {
      var s' := RoomyOutcome(p, s, key, value, ttl, now);
      assert !(Displaced(s, now, s') != {});
    } else if IsLeastRecent(live, key) {
      FullOutcome(p, s, key, value, ttl, now, key);
      assert {key} - {key} == {};
    } else {
      forall s' | StoreStep(p, s, key, value, ttl, now, Stored(value), s')
        ensures Displaced(s, now, s') != {}
      {
        VictimIsGone(p, s, key, value, ttl, now, s');
      }
    }
  }

  lemma StoredKey(p: Policy, s: Partition, key: string, value: Value, ttl: Option<nat>, now: nat, s': Partition)
    requires StoreStep(p, s, key, value, ttl, now, Stored(value), s') && !CircuitIsOpen(p, s, now)
    ensures key in s'.entries
  {
  }

  lemma FullRoom(p: Policy, es: Entries, now: nat, room: Entries) returns (victim: string)
    requires MadeRoom(p, es, now, room) && |Live(es, now)| >= p.maxEntries && Live(es, now) != map[]
    ensures IsLeastRecent(Live(es, now), victim) && victim !in room
  {
    LiveSmaller(es, now);
    victim :| IsLeastRecent(Live(es, now), victim) && room == Live(es, now) - {victim};
  }

  lemma VictimIsGone(p: Policy, s: Partition, key: string, value: Value, ttl: Option<nat>, now: nat, s': Partition)
    requires StoreStep(p, s, key, value, ttl, now, Stored(value), s') && !CircuitIsOpen(p, s, now)
    requires key in Live(s.entries, now) && |Live(s.entries, now)| >= p.maxEntries
    requires !IsLeastRecent(Live(s.entries, now), key)
    ensures Displaced(s, now, s') != {}
  {
    var e := NewEntry(p, value, ttl, now);
    var room :| MadeRoom(p, s.entries, now, room) && s' == AfterStore(p, s, room, key, e);
    var victim := FullRoom(p, s.entries, now, room);
    assert victim in Displaced(s, now, s');
  }
}
