/**
 The cache manager: named partitions under one policy, and the snapshot that carries their
 entries over a restart. A snapshot keeps, per entry, its value and absolute deadline.
 */
module CacheManager {
  import opened Wrappers
  import opened Cache
  import opened CacheRuns
  import opened CacheFreshness

  type Views = map<string, Partition>
  type Snapshot = map<string, Ledger>

  function SnapshotOf(v: Views): Snapshot {
    map pid | pid in v :: map k | k in v[pid].entries :: Record(v[pid].entries[k])
  }

  // Restore skips an entry whose deadline is not after `now`.
  predicate Survives(w: Written, now: nat) {
    w.deadline.None? || w.deadline.value > now
  }

  function Survivors(saved: Ledger, now: nat): set<string> {
    set k | k in saved && Survives(saved[k], now)
  }

  function RemainingTtl(w: Written, now: nat): Option<nat> {
    if w.deadline.Some? then Some(SaturatingSub(w.deadline.value, now)) else None
  }

  // A partition that was loaded with some of the saved entries and nothing else.
  function Loaded(p: Policy, saved: Ledger, keys: set<string>, now: nat): Partition {
    EMPTY.(entries := map k | k in saved && k in keys ::
                        NewEntry(p, saved[k].value, RemainingTtl(saved[k], now), now))
  }

  // Loading the surviving entries; a partition without any is not created.
  function RestoredViews(p: Policy, data: Snapshot, pids: set<string>, now: nat): Views {
    map pid | pid in data && pid in pids && Survivors(data[pid], now) != {} ::
      Loaded(p, data[pid], Survivors(data[pid], now), now)
  }

  ghost predicate Fits(p: Policy, data: Snapshot, now: nat) {
    forall pid :: pid in data ==> |Survivors(data[pid], now)| <= p.maxEntries
  }

  function PartitionOf(v: Views, pid: string): Partition {
    if pid in v then v[pid] else EMPTY
  }

  lemma LoadOne(p: Policy, saved: Ledger, keys: set<string>, k: string, now: nat, out: Outcome, s: Partition)
    requires keys <= saved.Keys && k in saved && |keys| < p.maxEntries
    requires Step(p, Loaded(p, saved, keys, now), Set(k, saved[k].value, RemainingTtl(saved[k], now), now), out, s)
    ensures s == Loaded(p, saved, keys + {k}, now)
  {
    var before, e := Loaded(p, saved, keys, now), NewEntry(p, saved[k].value, RemainingTtl(saved[k], now), now);
    assert before.entries.Keys == keys;
    var room :| MadeRoom(p, before.entries, now, room) && s == AfterStore(p, before, room, k, e);
    assert room == before.entries;
    assert s.entries == Loaded(p, saved, keys + {k}, now).entries;
  }

  lemma LoadNothing(p: Policy, saved: Ledger, now: nat)
    ensures Loaded(p, saved, {}, now) == EMPTY
  {
    assert Loaded(p, saved, {}, now).entries == map[];
  }

  // ------------------------------------------------------------------------
  // Steps of the manager
  // ------------------------------------------------------------------------

  datatype ManagerEvent = ManagerEvent(pid: string, op: Op, out: Outcome)

  // An operation on one partition, which is created on first use; the others stay as they are.
  ghost predicate ManagerStep(p: Policy, v: Views, ev: ManagerEvent, v': Views) {
    ev.pid in v' && v' == v[ev.pid := v'[ev.pid]] &&
    Step(p, PartitionOf(v, ev.pid), ev.op, ev.out, v'[ev.pid])
  }

  // states[i] is the manager before event i.
  datatype Trace = Trace(states: seq<Views>, events: seq<ManagerEvent>)

  ghost predicate IsTrace(p: Policy, from: Views, t: Trace, to: Views) {
    |t.states| == |t.events| + 1 && t.states[0] == from && t.states[|t.events|] == to &&
    forall i :: 0 <= i < |t.events| ==> ManagerStep(p, t.states[i], t.events[i], t.states[i + 1])
  }

  lemma TraceOne(p: Policy, from: Views, t: Trace, v: Views, ev: ManagerEvent, v': Views)
    requires IsTrace(p, from, t, v) && ManagerStep(p, v, ev, v')
    ensures IsTrace(p, from, Trace(t.states + [v'], t.events + [ev]), v')
  {
    var n, states, events := |t.events|, t.states + [v'], t.events + [ev];
    forall i | 0 <= i < n + 1
      ensures ManagerStep(p, states[i], events[i], states[i + 1])
    {
      assert i < n ==> ManagerStep(p, t.states[i], t.events[i], t.states[i + 1]);
    }
  }

  function LoadEvent(pid: string, saved: Ledger, k: string, now: nat, out: Outcome): ManagerEvent
    requires k in saved
  {
    ManagerEvent(pid, Set(k, saved[k].value, RemainingTtl(saved[k], now), now), out)
  }

  // The write that restores a surviving entry.
  ghost predicate IsLoad(data: Snapshot, now: nat, ev: ManagerEvent) {
    ev.op.Set? && ev.pid in data && ev.op.key in Survivors(data[ev.pid], now) &&
    ev == LoadEvent(ev.pid, data[ev.pid], ev.op.key, now, ev.out)
  }

  ghost function Targets(events: seq<ManagerEvent>): set<(string, string)>
    requires forall i :: 0 <= i < |events| ==> events[i].op.Set?
  {
    set i | 0 <= i < |events| :: (events[i].pid, events[i].op.key)
  }

  // The writes are the loads of these entries, each once.
  ghost predicate LoadsExactly(data: Snapshot, now: nat, events: seq<ManagerEvent>, pairs: set<(string, string)>) {
    (forall i :: 0 <= i < |events| ==> IsLoad(data, now, events[i])) &&
    Targets(events) == pairs && |events| == |pairs|
  }

  lemma LoadsOneMore(data: Snapshot, now: nat, events: seq<ManagerEvent>, pairs: set<(string, string)>,
                     ev: ManagerEvent)
    requires LoadsExactly(data, now, events, pairs) && IsLoad(data, now, ev) && (ev.pid, ev.op.key) !in pairs
    ensures LoadsExactly(data, now, events + [ev], pairs + {(ev.pid, ev.op.key)})
  {
    var longer := events + [ev];
    assert forall i :: 0 <= i < |longer| ==> longer[i] == if i < |events| then events[i] else ev;
    forall x | x in Targets(longer)
      ensures x in pairs + {(ev.pid, ev.op.key)}
    {
      var i :| 0 <= i < |longer| && x == (longer[i].pid, longer[i].op.key);
      assert i < |events| ==> (events[i].pid, events[i].op.key) in Targets(events);
    }
    forall x | x in pairs + {(ev.pid, ev.op.key)}
      ensures x in Targets(longer)
    {
      if x in pairs {
        var i :| 0 <= i < |events| && x == (events[i].pid, events[i].op.key);
        assert longer[i] == events[i];
      } else {
        assert longer[|events|] == ev;
      }
    }
  }

  // The surviving entries of some of the saved partitions, and some of those of one more.
  ghost function Chosen(data: Snapshot, pids: set<string>, pid: string, keys: set<string>, now: nat)
    : set<(string, string)>
  {
    set q, k | q in data && k in Survivors(data[q], now) && (q in pids || (q == pid && k in keys)) :: (q, k)
  }

  ghost function Surviving(data: Snapshot, pids: set<string>, now: nat): set<(string, string)> {
    set q, k | q in data && k in Survivors(data[q], now) && q in pids :: (q, k)
  }

  // A restore under way: the writes so far are the loads of these entries.
  ghost predicate Restoring(p: Policy, from: Views, data: Snapshot, now: nat, pairs: set<(string, string)>,
                            t: Trace, v: Views) {
    IsTrace(p, from, t, v) && LoadsExactly(data, now, t.events, pairs)
  }

  lemma RestoringOne(p: Policy, from: Views, data: Snapshot, now: nat, pids: set<string>, pid: string,
                     done: set<string>, t: Trace, v: Views, ev: ManagerEvent, v': Views)
    requires Restoring(p, from, data, now, Chosen(data, pids, pid, done, now), t, v)
    requires ManagerStep(p, v, ev, v') && IsLoad(data, now, ev)
    requires ev.pid == pid && pid !in pids && ev.op.key !in done
    ensures Restoring(p, from, data, now, Chosen(data, pids, pid, done + {ev.op.key}, now),
                      Trace(t.states + [v'], t.events + [ev]), v')
  {
    TraceOne(p, from, t, v, ev, v');
    LoadsOneMore(data, now, t.events, Chosen(data, pids, pid, done, now), ev);
    assert Chosen(data, pids, pid, done + {ev.op.key}, now) ==
           Chosen(data, pids, pid, done, now) + {(pid, ev.op.key)};
  }

  lemma ChosenIsSurviving(data: Snapshot, pids: set<string>, pid: string, now: nat)
    requires pid in data
    ensures Chosen(data, pids, pid, {}, now) == Surviving(data, pids, now)
    ensures Chosen(data, pids, pid, Survivors(data[pid], now), now) == Surviving(data, pids + {pid}, now)
  {
  }

  // The manager owns its partitions, so they are values here: using one takes it out of the map
  // and puts it back.
  class DistributedCacheManager {
    var partitions: Views
    const defaultPolicy: Policy

    constructor (policy: Policy)
      ensures partitions == map[] && defaultPolicy == policy
    {
      partitions := map[];
      defaultPolicy := policy;
    }

    // A partition is created on first use.
    method SetIn(pid: string, key: string, value: Value, ttl: Option<nat>, now: nat) returns (out: Outcome)
      modifies this
      ensures pid in partitions && partitions == old(partitions)[pid := partitions[pid]]
      ensures Step(defaultPolicy, PartitionOf(old(partitions), pid), Set(key, value, ttl, now), out, partitions[pid])
    {
      var part: CachePartition;
      if pid in partitions {
        part := new CachePartition.Existing(pid, defaultPolicy, partitions[pid]);
      } else {
        part := new CachePartition(pid, defaultPolicy);
      }
      out := part.SetValue(key, value, ttl, now);
      partitions := partitions[pid := part.View()];
    }

    // The entries of one partition, in whatever order they come.
    static method SaveEntries(es: Entries) returns (saved: Ledger)
      ensures saved.Keys == es.Keys
      ensures forall k :: k in es ==>
                saved[k].value == es[k].value && saved[k].deadline == DeadlineOf(es[k].createdAt, es[k].ttl)
    {
      saved := map[];
      var left := es.Keys;
      while left != {}
        invariant left <= es.Keys && saved.Keys == es.Keys - left
        invariant forall k :: k in saved ==> saved[k] == Record(es[k])
        decreases left
      {
        var k :| k in left;
        saved := saved[k := Record(es[k])];
        left := left - {k};
      }
    }

    method SnapshotToJson() returns (data: Snapshot)
      ensures data == SnapshotOf(partitions)
    {
      data := map[];
      var left := partitions.Keys;
      while left != {}
        invariant left <= partitions.Keys && data.Keys == partitions.Keys - left
        invariant forall pid :: pid in data ==> data[pid] == SnapshotOf(partitions)[pid]
        decreases left
      {
        var pid :| pid in left;
        var saved := SaveEntries(partitions[pid].entries);
        assert saved == SnapshotOf(partitions)[pid];
        data := data[pid := saved];
        left := left - {pid};
      }
    }

    // One saved entry, on top of `done` ones already loaded.
    method RestoreEntry(pid: string, saved: Ledger, k: string, now: nat, ghost was: Views, ghost done: set<string>)
      returns (out: Outcome)
      requires k in saved
      modifies this
      ensures Loading(defaultPolicy, was, pid, saved, done, now, old(partitions)) &&
              |done| < defaultPolicy.maxEntries ==>
                Loading(defaultPolicy, was, pid, saved, done + {k}, now, partitions)
      ensures ManagerStep(defaultPolicy, old(partitions), LoadEvent(pid, saved, k, now, out), partitions)
    {
      ghost var before := partitions;
      out := SetIn(pid, k, saved[k].value, RemainingTtl(saved[k], now), now);
      if Loading(defaultPolicy, was, pid, saved, done, now, before) && |done| < defaultPolicy.maxEntries {
        LoadOneMore(defaultPolicy, was, pid, saved, done, k, now, before, out, partitions);
      }
    }

    // The same, with the record of the restore.
    method RestoreRecorded(pid: string, saved: Ledger, k: string, now: nat, ghost was: Views, ghost done: set<string>,
                           ghost from: Views, ghost data: Snapshot, ghost pids: set<string>, ghost t: Trace)
      returns (ghost t': Trace)
      requires pid in data && data[pid] == saved && pid !in pids && k in Survivors(saved, now) && k !in done
      requires Restoring(defaultPolicy, from, data, now, Chosen(data, pids, pid, done, now), t, partitions)
      modifies this
      ensures Loading(defaultPolicy, was, pid, saved, done, now, old(partitions)) &&
              |done| < defaultPolicy.maxEntries ==>
                Loading(defaultPolicy, was, pid, saved, done + {k}, now, partitions)
      ensures Restoring(defaultPolicy, from, data, now, Chosen(data, pids, pid, done + {k}, now), t', partitions)
    {
      ghost var before := partitions;
      var out := RestoreEntry(pid, saved, k, now, was, done);
      ghost var ev := LoadEvent(pid, saved, k, now, out);
      RestoringOne(defaultPolicy, from, data, now, pids, pid, done, t, before, ev, partitions);
      t' := Trace(t.states + [partitions], t.events + [ev]);
    }

    // The entries of one saved partition, in whatever order they come: a write of each surviving
    // entry, after those of `pids`.
    method RestorePartition(pid: string, saved: Ledger, now: nat,
                            ghost from: Views, ghost data: Snapshot, ghost pids: set<string>, ghost t: Trace)
      returns (ghost t': Trace)
      requires pid in data && data[pid] == saved && pid !in pids
      requires Restoring(defaultPolicy, from, data, now, Surviving(data, pids, now), t, partitions)
      modifies this
      ensures pid !in old(partitions) && |Survivors(saved, now)| <= defaultPolicy.maxEntries ==>
                Loading(defaultPolicy, old(partitions), pid, saved, Survivors(saved, now), now, partitions)
      ensures Restoring(defaultPolicy, from, data, now, Surviving(data, pids + {pid}, now), t', partitions)
    {
      var left := saved.Keys;
      ghost var all, was := Survivors(saved, now), partitions;
      ghost var clean := pid !in was && |all| <= defaultPolicy.maxEntries;
      t' := t;
      ChosenIsSurviving(data, pids, pid, now);
      assert all - left == {};
      while left != {}
        invariant left <= saved.Keys
        invariant clean ==> Loading(defaultPolicy, was, pid, saved, all - left, now, partitions)
        invariant Restoring(defaultPolicy, from, data, now, Chosen(data, pids, pid, all - left, now), t', partitions)
        decreases left
      {
        var k :| k in left;
        ghost var done := all - left;
        TakeOne(all, left, k);
        if Survives(saved[k], now) {
          FewerThanAll(done, all, k);
          t' := RestoreRecorded(pid, saved, k, now, was, done, from, data, pids, t');
        }
        left := left - {k};
      }
      assert all - left == all;
    }

    // Restoring is a write of each surviving entry, once, in whatever order the snapshot lists them.
    // Into an empty manager it loads exactly the surviving entries and evicts nothing.
    method RestoreFromJson(data: Snapshot, now: nat) returns (ghost t: Trace)
      modifies this
      ensures Restoring(defaultPolicy, old(partitions), data, now, Surviving(data, data.Keys, now), t, partitions)
      ensures old(partitions) == map[] && Fits(defaultPolicy, data, now) ==>
                partitions == RestoredViews(defaultPolicy, data, data.Keys, now)
    {
      var left := data.Keys;
      ghost var from := partitions;
      ghost var clean := partitions == map[] && Fits(defaultPolicy, data, now);
      t := Trace([partitions], []);
      assert data.Keys - left == {};
      assert Surviving(data, {}, now) == {};
      while left != {}
        invariant left <= data.Keys
        invariant Restoring(defaultPolicy, from, data, now, Surviving(data, data.Keys - left, now), t, partitions)
        invariant clean ==> partitions == RestoredViews(defaultPolicy, data, data.Keys - left, now)
        decreases left
      {
        var pid :| pid in left;
        ghost var done := data.Keys - left;
        RestoreOneMore(defaultPolicy, data, done, pid, now);
        t := RestorePartition(pid, data[pid], now, from, data, done, t);
        TakeOne(data.Keys, left, pid);
        left := left - {pid};
      }
      assert data.Keys - left == data.Keys;
    }
  }

  // The views after loading `keys` into a partition that was not there.
  function WithLoaded(p: Policy, was: Views, pid: string, saved: Ledger, keys: set<string>, now: nat): Views {
    if keys == {} then was else was[pid := Loaded(p, saved, keys, now)]
  }

  ghost predicate Loading(p: Policy, was: Views, pid: string, saved: Ledger, keys: set<string>, now: nat, v: Views) {
    pid !in was && keys <= saved.Keys && v == WithLoaded(p, was, pid, saved, keys, now)
  }

  lemma LoadOneMore(p: Policy, was: Views, pid: string, saved: Ledger, keys: set<string>, k: string, now: nat,
                    v: Views, out: Outcome, v': Views)
    requires Loading(p, was, pid, saved, keys, now, v) && |keys| < p.maxEntries && k in saved
    requires pid in v' && v' == v[pid := v'[pid]]
    requires Step(p, PartitionOf(v, pid), Set(k, saved[k].value, RemainingTtl(saved[k], now), now), out, v'[pid])
    ensures Loading(p, was, pid, saved, keys + {k}, now, v')
  {
    LoadNothing(p, saved, now);
    assert PartitionOf(v, pid) == Loaded(p, saved, keys, now);
    LoadOne(p, saved, keys, k, now, out, v'[pid]);
    assert v' == was[pid := v'[pid]];
  }

  lemma TakeOne(all: set<string>, left: set<string>, k: string)
    requires k in left
    ensures all - (left - {k}) == if k in all then (all - left) + {k} else all - left
  {
  }

  lemma FewerThanAll(done: set<string>, all: set<string>, k: string)
    requires done <= all && k in all && k !in done
    ensures |done| < |all|
  {
    assert |all - done| == |all| - |done|;
    assert k in all - done;
  }

  lemma RestoreOneMore(p: Policy, data: Snapshot, done: set<string>, pid: string, now: nat)
    requires pid in data && pid !in done
    ensures WithLoaded(p, RestoredViews(p, data, done, now), pid, data[pid], Survivors(data[pid], now), now) ==
            RestoredViews(p, data, done + {pid}, now)
    ensures pid !in RestoredViews(p, data, done, now)
  {
  }

  // ------------------------------------------------------------------------
  // Snapshot, then restore
  // ------------------------------------------------------------------------

  ghost predicate HasDefaultTtl(p: Policy, es: Entries) {
    p.defaultTtl.Some? ==> forall k :: k in es ==> es[k].ttl.Some?
  }

  ghost predicate Restorable(p: Policy, s: Partition) {
    |s.entries| <= p.maxEntries && HasDefaultTtl(p, s.entries)
  }

  lemma StoreKeepsTtl(p: Policy, s: Partition, key: string, value: Value, ttl: Option<nat>, now: nat,
                      out: Outcome, s': Partition)
    requires StoreStep(p, s, key, value, ttl, now, out, s') && HasDefaultTtl(p, s.entries)
    ensures HasDefaultTtl(p, s'.entries)
  {
    if out.Stored? {
      StoredEntries(p, s, key, value, ttl, now, out, s');
    }
  }

  lemma StepKeepsTtl(p: Policy, s: Partition, op: Op, out: Outcome, s': Partition)
    requires Step(p, s, op, out, s') && HasDefaultTtl(p, s.entries)
    ensures HasDefaultTtl(p, s'.entries)
  {
    match op
    case Set(key, value, ttl, now) => StoreKeepsTtl(p, s, key, value, ttl, now, out, s');
    case Increment(key, delta, ttl, now) =>
      StoreKeepsTtl(p, s, key, Numeric(Current(s.entries, key, now) + delta), ttl, now, out, s');
    case _ =>
  }

  // Every partition that a run can produce can be restored without loss of capacity or deadline.
  lemma {:induction false} RunIsRestorable(p: Policy, states: seq<Partition>, events: seq<Event>)
    requires IsRun(p, states, events) && p.maxEntries >= 1
    ensures Restorable(p, states[|events|])
  {
    WithinCapacity(p, states, events);
    if events != [] {
      var n := |events| - 1;
      RunPrefix(p, states, events);
      RunIsRestorable(p, states[..n + 1], events[..n]);
      StepKeepsTtl(p, states[n], events[n].op, events[n].out, states[n + 1]);
    }
  }

  lemma StepKeepsRestorable(p: Policy, s: Partition, op: Op, out: Outcome, s': Partition)
    requires Step(p, s, op, out, s') && Restorable(p, s) && p.maxEntries >= 1
    ensures Restorable(p, s')
  {
    StepKeepsCapacity(p, s, op, out, s');
    StepKeepsTtl(p, s, op, out, s');
  }

  ghost predicate AllRestorable(p: Policy, v: Views) {
    forall pid :: pid in v ==> Restorable(p, v[pid])
  }

  lemma {:induction false} ManagerIsRestorable(p: Policy, t: Trace, v: Views)
    requires IsTrace(p, map[], t, v) && p.maxEntries >= 1
    ensures AllRestorable(p, v)
    decreases |t.events|
  {
    if t.events != [] {
      var n := |t.events| - 1;
      var before, ev := t.states[n], t.events[n];
      assert ManagerStep(p, t.states[n], ev, t.states[n + 1]);
      TracePrefix(p, t, v);
      ManagerIsRestorable(p, Trace(t.states[..n + 1], t.events[..n]), before);
      StepKeepsRestorable(p, PartitionOf(before, ev.pid), ev.op, ev.out, v[ev.pid]);
    }
  }

  lemma TracePrefix(p: Policy, t: Trace, v: Views)
    requires IsTrace(p, map[], t, v) && t.events != []
    ensures var n := |t.events| - 1; IsTrace(p, map[], Trace(t.states[..n + 1], t.events[..n]), t.states[n])
  {
    var n := |t.events| - 1;
    forall i | 0 <= i < n
      ensures ManagerStep(p, t.states[..n + 1][i], t.events[..n][i], t.states[..n + 1][i + 1])
    {
      assert ManagerStep(p, t.states[i], t.events[i], t.states[i + 1]);
    }
  }

  lemma ReloadedEntry(p: Policy, e: Entry, now: nat)
    requires Survives(Record(e), now) && (p.defaultTtl.Some? ==> e.ttl.Some?)
    ensures Record(NewEntry(p, e.value, RemainingTtl(Record(e), now), now)) == Record(e)
  {
  }

  function RestoreOf(p: Policy, v: Views, now: nat): Views {
    RestoredViews(p, SnapshotOf(v), SnapshotOf(v).Keys, now)
  }

  lemma SnapshotFits(p: Policy, v: Views, now: nat)
    requires AllRestorable(p, v)
    ensures Fits(p, SnapshotOf(v), now)
  {
    forall pid | pid in v
      ensures |Survivors(SnapshotOf(v)[pid], now)| <= p.maxEntries
    {
      var alive, es := Survivors(SnapshotOf(v)[pid], now), v[pid].entries;
      assert alive <= es.Keys;
      assert |es.Keys - alive| == |es.Keys| - |alive|;
    }
  }

  // Which entries come back, and that they come back with the same value and deadline.
  lemma RestoredEntries(p: Policy, v: Views, now: nat, pid: string, k: string)
    requires AllRestorable(p, v)
    ensures var r := RestoreOf(p, v, now);
            (pid in r && k in r[pid].entries <==>
             pid in v && k in v[pid].entries && Survives(Record(v[pid].entries[k]), now)) &&
            (pid in r && k in r[pid].entries ==> Record(r[pid].entries[k]) == Record(v[pid].entries[k]))
  {
    if pid in v && k in v[pid].entries {
      var e, saved := v[pid].entries[k], SnapshotOf(v)[pid];
      assert k in Survivors(saved, now) <==> Survives(Record(e), now);
      if Survives(Record(e), now) {
        ReloadedEntry(p, e, now);
      }
    }
  }

  // What a read at time t finds.
  function ReadAt(v: Views, pid: string, k: string, t: nat): Option<Value> {
    if pid in v && k in v[pid].entries && !Expired(v[pid].entries[k], t) then Some(v[pid].entries[k].value) else None
  }

  // From the moment of the restore on, reads find what they would have found without it, with one
  // exception: an entry whose deadline is that very moment is still readable but is not restored.
  lemma RestoredReads(p: Policy, v: Views, now: nat, pid: string, k: string, t: nat)
    requires AllRestorable(p, v)
    requires t >= now
    ensures ReadAt(RestoreOf(p, v, now), pid, k, t) ==
            if t == now && pid in v && k in v[pid].entries && Record(v[pid].entries[k]).deadline == Some(now) then None
            else ReadAt(v, pid, k, t)
  {
    var r := RestoreOf(p, v, now);
    RestoredEntries(p, v, now, pid, k);
    if pid in v && k in v[pid].entries {
      ExpiredIsStale(v[pid].entries[k], t);
      if pid in r && k in r[pid].entries {
        ExpiredIsStale(r[pid].entries[k], t);
      }
    }
  }

  // After every run of a manager, a snapshot restored at `now` answers all later reads as the
  // manager itself would have, with that one exception.
  lemma RestartKeepsReads(p: Policy, t: Trace, v: Views, now: nat, pid: string, k: string, at: nat)
    requires IsTrace(p, map[], t, v) && p.maxEntries >= 1 && at >= now
    ensures Fits(p, SnapshotOf(v), now)
    ensures ReadAt(RestoreOf(p, v, now), pid, k, at) ==
            if at == now && pid in v && k in v[pid].entries && Record(v[pid].entries[k]).deadline == Some(now) then None
            else ReadAt(v, pid, k, at)
  {
    ManagerIsRestorable(p, t, v);
    SnapshotFits(p, v, now);
    RestoredReads(p, v, now, pid, k, at);
  }
}
