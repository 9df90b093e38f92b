/**
 The adaptive storage controller shared by threads: three atomic counters and a mutex-guarded,
 bounded audit ring. Every fetch-and-add, every load and every critical section is one step of
 one thread; an action list is an interleaving, and an action that is not enabled does nothing.

 The counters are modelled as if all threads saw one order of updates. What holds of a snapshot's
 ring against its counters does not depend on that: each counter update a ring reader relies on
 happens before the unlock its lock synchronizes with. What relates two counters loaded without the
 lock does.
 */
module Controller {
  import opened Wrappers
  import opened Collections

  datatype Decision =
    | NoChange
    | EnableProjectionCache
    | DisableProjectionCache
    | IncreaseMergeFrequency(newThresholdMs: nat)
    | DecreaseMergeFrequency(newThresholdMs: nat)
    | ElevateFreshnessPriority
    | ReduceFreshnessPriority

  datatype PolicyChange = PolicyChange(segmentId: nat, decision: Decision, timestampMs: nat, applied: bool)

  type History = seq<PolicyChange>

  datatype Metrics = Metrics(
    decisionsTotal: nat,
    noChangeTotal: nat,
    changesAppliedTotal: nat,
    pendingChangesCount: nat,
    auditHistorySize: nat)

  // Where a thread stands in the method it is running.
  datatype Thread =
    | Idle
    // `evaluate_batch`, with the changes still to be recorded
    | Evaluating(todo: History)
    | Decided(todo: History)
    | Classified(todo: History)
    // `revert_segment`
    | Reverting(change: PolicyChange)
    | RevertDecided(change: PolicyChange)
    | RevertClassified(change: PolicyChange)
    | RevertApplied(change: PolicyChange)
    // `mark_applied`, inside the lock, with the flag set
    | Marking
    // `metrics`
    | RingRead(size: nat, pending: nat)
    | DecisionsRead(size: nat, pending: nat, decisions: nat)
    | NoChangeRead(size: nat, pending: nat, decisions: nat, noChange: nat)
    | Reported(metrics: Metrics)

  // `log` is every change ever appended, with its applied mark; the ring forgets, the log does not.
  datatype State = State(
    ring: History,
    decisions: nat,
    noChange: nat,
    applied: nat,
    lock: Option<nat>,
    threads: map<nat, Thread>,
    log: History)

  const START := State([], 0, 0, 0, None, map[], [])

  datatype Action =
    | StartBatch(t: nat, todo: History)
    | StartRevert(t: nat, segmentId: nat, timestampMs: nat)
    | CountDecision(t: nat)
    | CountNoChange(t: nat)
    | CountApplied(t: nat)
    | Append(t: nat)
    | MarkApplied(t: nat, segmentId: nat, timestampMs: nat)
    | ReadRing(t: nat)
    | Load(t: nat)
    | Return(t: nat)

  // ------------------------------------------------------------------------
  // The ring
  // ------------------------------------------------------------------------

  function Push(max: nat, ring: History, c: PolicyChange): History
    requires max >= 1
  {
    (if |ring| >= max then ring[1..] else ring) + [c]
  }

  function Latest(max: nat, log: History): History {
    if |log| <= max then log else log[|log| - max..]
  }

  function AppliedCount(h: History): (n: nat)
    ensures n <= |h|
  {
    if h == [] then 0 else AppliedCount(h[..|h| - 1]) + (if h[|h| - 1].applied then 1 else 0)
  }

  function NoChangeCount(h: History): nat {
    if h == [] then 0 else NoChangeCount(h[..|h| - 1]) + (if h[|h| - 1].decision.NoChange? then 1 else 0)
  }

  function PendingCount(h: History): nat {
    |h| - AppliedCount(h)
  }

  predicate Matches(c: PolicyChange, segmentId: nat, timestampMs: nat) {
    c.segmentId == segmentId && c.timestampMs == timestampMs
  }

  // The index of the latest matching change, or the length.
  function LatestMatch(h: History, segmentId: nat, timestampMs: nat): (i: nat)
    ensures i <= |h|
  {
    if h == [] then 0
    else if Matches(h[|h| - 1], segmentId, timestampMs) then |h| - 1
    else
      var i := LatestMatch(h[..|h| - 1], segmentId, timestampMs);
      if i == |h| - 1 then |h| else i
  }

  function MarkAt(h: History, i: nat): History
    requires i < |h|
  {
    h[i := h[i].(applied := true)]
  }

  // The record at i is of that segment and time, and no later one is.
  ghost predicate IsLatestOf(h: History, i: nat, segmentId: nat, timestampMs: nat) {
    i < |h| && h[i].segmentId == segmentId && h[i].timestampMs == timestampMs &&
    forall j :: i < j < |h| ==> !(h[j].segmentId == segmentId && h[j].timestampMs == timestampMs)
  }

  lemma {:induction false} LatestMatchIs(h: History, segmentId: nat, timestampMs: nat)
    ensures var i := LatestMatch(h, segmentId, timestampMs);
            if i < |h| then IsLatestOf(h, i, segmentId, timestampMs)
            else forall j :: 0 <= j < |h| ==> !(h[j].segmentId == segmentId && h[j].timestampMs == timestampMs)
  {
    if h != [] {
      LatestMatchIs(h[..|h| - 1], segmentId, timestampMs);
    }
  }

  // The reverse walk of `mark_applied`: the latest record of that segment and time gets the mark,
  // unless it has it, and no other record changes.
  method MarkLatest(history: History, segmentId: nat, timestampMs: nat) returns (marked: History, counted: bool)
    ensures var i := LatestMatch(history, segmentId, timestampMs);
            counted == (i < |history| && !history[i].applied) &&
            marked == if counted then MarkAt(history, i) else history
    ensures counted ==> exists i: nat ::
              IsLatestOf(history, i, segmentId, timestampMs) && !history[i].applied &&
              marked == history[i := history[i].(applied := true)]
    ensures !counted ==> marked == history
    ensures !counted ==> forall i: nat :: IsLatestOf(history, i, segmentId, timestampMs) ==> history[i].applied
  {
    LatestMatchIs(history, segmentId, timestampMs);
    marked, counted := history, false;
    var i := |history|;
    assert history[..i] == history;
    while i > 0
      invariant 0 <= i <= |history|
      invariant LatestMatch(history, segmentId, timestampMs) ==
                (if LatestMatch(history[..i], segmentId, timestampMs) == i then |history|
                 else LatestMatch(history[..i], segmentId, timestampMs))
    {
      i := i - 1;
      LatestMatchAt(history, i, segmentId, timestampMs);
      if Matches(history[i], segmentId, timestampMs) {
        if !history[i].applied {
          return MarkAt(history, i), true;
        }
        return;
      }
    }
  }

  lemma LatestMatchAt(h: History, i: nat, segmentId: nat, timestampMs: nat)
    requires i < |h|
    ensures LatestMatch(h[..i + 1], segmentId, timestampMs) ==
            if Matches(h[i], segmentId, timestampMs) then i
            else if LatestMatch(h[..i], segmentId, timestampMs) == i then i + 1
            else LatestMatch(h[..i], segmentId, timestampMs)
  {
    assert h[..i + 1][..i] == h[..i];
  }

  // ------------------------------------------------------------------------
  // Steps
  // ------------------------------------------------------------------------

  function At(threads: map<nat, Thread>, t: nat): Thread {
    if t in threads then threads[t] else Idle
  }

  function Move(s: State, t: nat, th: Thread): State {
    s.(threads := s.threads[t := th])
  }

  function AppendChange(max: nat, s: State, c: PolicyChange): State
    requires max >= 1
  {
    s.(ring := Push(max, s.ring, c), log := s.log + [c])
  }

  // A mark in the ring is a mark at the corresponding place of the log.
  function MarkChange(s: State, i: nat): State
    requires i < |s.ring| <= |s.log|
  {
    s.(ring := MarkAt(s.ring, i), log := MarkAt(s.log, |s.log| - |s.ring| + i))
  }

  // Recommendations start without their mark.
  predicate Unmarked(todo: History) {
    forall i :: 0 <= i < |todo| ==> !todo[i].applied
  }

  function Next(max: nat, s: State, a: Action): (s': State)
    requires max >= 1 && |s.ring| <= |s.log|
    ensures |s'.ring| <= |s'.log|
  {
    var t := a.t;
    var th := At(s.threads, t);
    match a
    case StartBatch(_, todo) =>
      if th.Idle? && Unmarked(todo) then Move(s, t, Evaluating(todo)) else s
    case StartRevert(_, segmentId, timestampMs) =>
      if th.Idle? then Move(s, t, Reverting(PolicyChange(segmentId, NoChange, timestampMs, true))) else s
    case CountDecision(_) =>
      if th.Evaluating? && th.todo != [] then Move(s.(decisions := s.decisions + 1), t, Decided(th.todo))
      else if th.Reverting? then Move(s.(decisions := s.decisions + 1), t, RevertDecided(th.change))
      else s
    case CountNoChange(_) =>
      if th.Decided? && th.todo != [] then
        Move(s.(noChange := s.noChange + (if th.todo[0].decision.NoChange? then 1 else 0)), t, Classified(th.todo))
      else if th.RevertDecided? then Move(s.(noChange := s.noChange + 1), t, RevertClassified(th.change))
      else s
    case CountApplied(_) =>
      if th.RevertClassified? then Move(s.(applied := s.applied + 1), t, RevertApplied(th.change))
      else if th.Marking? && s.lock == Some(t) then Move(s.(applied := s.applied + 1, lock := None), t, Idle)
      else s
    case Append(_) =>
      if s.lock.Some? then s
      else if th.Classified? && th.todo != [] then
        Move(AppendChange(max, s, th.todo[0]), t, Evaluating(th.todo[1..]))
      else if th.RevertApplied? then Move(AppendChange(max, s, th.change), t, Idle)
      else s
    case MarkApplied(_, segmentId, timestampMs) =>
      var i := LatestMatch(s.ring, segmentId, timestampMs);
      if th.Idle? && s.lock.None? && i < |s.ring| && !s.ring[i].applied then
        Move(MarkChange(s, i).(lock := Some(t)), t, Marking)
      else s
    case ReadRing(_) =>
      if th.Idle? && s.lock.None? then Move(s, t, RingRead(|s.ring|, PendingCount(s.ring))) else s
    case Load(_) =>
      if th.RingRead? then Move(s, t, DecisionsRead(th.size, th.pending, s.decisions))
      else if th.DecisionsRead? then Move(s, t, NoChangeRead(th.size, th.pending, th.decisions, s.noChange))
      else if th.NoChangeRead? then
        Move(s, t, Reported(Metrics(th.decisions, th.noChange, s.applied, th.pending, th.size)))
      else s
    case Return(_) =>
      if th.Reported? || (th.Evaluating? && th.todo == []) then Move(s, t, Idle) else s
  }

  // ------------------------------------------------------------------------
  // Counting threads
  // ------------------------------------------------------------------------

  // Between counting a decision and appending it; between counting an applied revert and
  // appending it; between counting a decision and classifying it; between counting a decision that
  // changes nothing as such and appending it.
  datatype Phase = Owing | Crediting | Unclassified | Unchanging

  predicate InPhase(p: Phase, th: Thread) {
    match p
    case Owing => th.Decided? || th.Classified? || th.RevertDecided? || th.RevertClassified? || th.RevertApplied?
    case Crediting => th.RevertApplied?
    case Unclassified => th.Decided? || th.RevertDecided?
    case Unchanging =>
      (th.Classified? && th.todo != [] && th.todo[0].decision.NoChange?) || th.RevertClassified? || th.RevertApplied?
  }

  function Members(p: Phase, threads: map<nat, Thread>): set<nat> {
    set t | t in threads && InPhase(p, threads[t])
  }

  function One(b: bool): nat {
    if b then 1 else 0
  }

  lemma RemoveFromSet(s: set<nat>, t: nat)
    ensures |s| == |s - {t}| + One(t in s)
  {
    if t in s {
      assert s == (s - {t}) + {t};
    } else {
      assert s == s - {t};
    }
  }

  lemma SameElsewhere(p: Phase, threads: map<nat, Thread>, t: nat, th: Thread)
    ensures Members(p, threads[t := th]) - {t} == Members(p, threads) - {t}
    ensures t in Members(p, threads[t := th]) <==> InPhase(p, th)
    ensures t in Members(p, threads) <==> InPhase(p, At(threads, t))
  {
  }

  // Moving one thread changes the size of a phase by that thread only.
  lemma MembersAfter(p: Phase, threads: map<nat, Thread>, t: nat, th: Thread)
    ensures |Members(p, threads[t := th])| + One(InPhase(p, At(threads, t))) ==
            |Members(p, threads)| + One(InPhase(p, th))
  {
    SameElsewhere(p, threads, t, th);
    RemoveFromSet(Members(p, threads), t);
    RemoveFromSet(Members(p, threads[t := th]), t);
  }

  lemma AllMembersAfter(threads: map<nat, Thread>, t: nat, th: Thread)
    ensures forall p :: |Members(p, threads[t := th])| + One(InPhase(p, At(threads, t))) ==
                        |Members(p, threads)| + One(InPhase(p, th))
  {
    forall p {
      MembersAfter(p, threads, t, th);
    }
  }

  // ------------------------------------------------------------------------
  // Applied marks and the log
  // ------------------------------------------------------------------------

  lemma {:induction false} AppliedConcat(a: History, b: History)
    ensures AppliedCount(a + b) == AppliedCount(a) + AppliedCount(b)
  {
    if b == [] {
      assert a + b == a;
    } else {
      assert (a + b)[..|a + b| - 1] == a + b[..|b| - 1];
      AppliedConcat(a, b[..|b| - 1]);
    }
  }

  lemma AppliedOfOne(c: PolicyChange)
    ensures AppliedCount([c]) == One(c.applied)
  {
    assert [c][..0] == [];
  }

  lemma {:induction false} MarkAddsOne(h: History, i: nat)
    requires i < |h| && !h[i].applied
    ensures AppliedCount(MarkAt(h, i)) == AppliedCount(h) + 1
  {
    var c := h[i].(applied := true);
    assert h == h[..i] + [h[i]] + h[i + 1..] && MarkAt(h, i) == h[..i] + [c] + h[i + 1..];
    AppliedConcat(h[..i] + [h[i]], h[i + 1..]);
    AppliedConcat(h[..i] + [c], h[i + 1..]);
    AppliedConcat(h[..i], [h[i]]);
    AppliedConcat(h[..i], [c]);
    AppliedOfOne(h[i]);
    AppliedOfOne(c);
  }

  lemma NoChangeAppend(h: History, c: PolicyChange)
    ensures NoChangeCount(h + [c]) == NoChangeCount(h) + One(c.decision.NoChange?)
  {
    assert (h + [c])[..|h|] == h;
  }

  lemma {:induction false} MarkKeepsDecisions(h: History, i: nat)
    requires i < |h|
    ensures NoChangeCount(MarkAt(h, i)) == NoChangeCount(h)
  {
    var k := |h| - 1;
    if i < k {
      MarkKeepsDecisions(h[..k], i);
      assert MarkAt(h, i)[..k] == MarkAt(h[..k], i);
    } else {
      assert MarkAt(h, i)[..k] == h[..k];
    }
  }

  lemma LatestHasFewerApplied(max: nat, log: History)
    ensures AppliedCount(Latest(max, log)) <= AppliedCount(log)
  {
    if |log| > max {
      var cut := |log| - max;
      assert log == log[..cut] + log[cut..];
      AppliedConcat(log[..cut], log[cut..]);
    }
  }

  lemma PushIsLatest(max: nat, log: History, c: PolicyChange)
    requires max >= 1
    ensures Push(max, Latest(max, log), c) == Latest(max, log + [c])
  {
  }

  lemma MarkIsLatest(max: nat, log: History, i: nat)
    requires i < |Latest(max, log)|
    ensures MarkAt(Latest(max, log), i) == Latest(max, MarkAt(log, |log| - |Latest(max, log)| + i))
  {
  }

  // ------------------------------------------------------------------------
  // The invariant
  // ------------------------------------------------------------------------

  // What a thread relies on, given the current counters.
  ghost predicate ThreadOk(max: nat, decisions: nat, applied: nat, th: Thread) {
    match th
    case Evaluating(todo) => Unmarked(todo)
    case Decided(todo) => todo != [] && Unmarked(todo)
    case Classified(todo) => todo != [] && Unmarked(todo)
    case Reverting(c) => c.applied && c.decision.NoChange?
    case RevertDecided(c) => c.applied && c.decision.NoChange?
    case RevertClassified(c) => c.applied && c.decision.NoChange?
    case RevertApplied(c) => c.applied && c.decision.NoChange?
    case RingRead(size, pending) => pending <= size <= max && size <= decisions && size - pending <= applied
    case DecisionsRead(size, pending, d) => pending <= size <= max && size <= d && size - pending <= applied
    case NoChangeRead(size, pending, d, _) => pending <= size <= max && size <= d && size - pending <= applied
    case Reported(m) => MetricsOk(max, m)
    case _ => true
  }

  predicate MetricsOk(max: nat, m: Metrics) {
    m.pendingChangesCount <= m.auditHistorySize <= max &&
    m.auditHistorySize <= m.decisionsTotal &&
    m.auditHistorySize - m.pendingChangesCount <= m.changesAppliedTotal
  }

  ghost predicate ThreadsOk(max: nat, s: State) {
    forall t :: t in s.threads ==> ThreadOk(max, s.decisions, s.applied, s.threads[t])
  }

  ghost predicate LockOk(s: State) {
    forall t: nat :: At(s.threads, t).Marking? <==> s.lock == Some(t)
  }

  ghost predicate CountersOk(s: State) {
    s.decisions == |s.log| + |Members(Owing, s.threads)| &&
    s.applied + One(s.lock.Some?) == AppliedCount(s.log) + |Members(Crediting, s.threads)| &&
    s.noChange == NoChangeCount(s.log) + |Members(Unchanging, s.threads)| &&
    s.noChange + |Members(Unclassified, s.threads)| <= s.decisions
  }

  ghost predicate Inv(max: nat, s: State) {
    s.ring == Latest(max, s.log) && CountersOk(s) && LockOk(s) && ThreadsOk(max, s)
  }

  lemma OthersStayOk(max: nat, s: State, s': State, t: nat, th: Thread)
    requires ThreadsOk(max, s) && s'.threads == s.threads[t := th]
    requires s.decisions <= s'.decisions && s.applied <= s'.applied
    requires ThreadOk(max, s'.decisions, s'.applied, th)
    ensures ThreadsOk(max, s')
  {
    forall u | u in s'.threads
      ensures ThreadOk(max, s'.decisions, s'.applied, s'.threads[u])
    {
      if u != t {
        assert ThreadOk(max, s.decisions, s.applied, s.threads[u]);
      }
    }
  }

  lemma ReaderIsOk(max: nat, s: State)
    requires Inv(max, s) && s.lock.None?
    ensures ThreadOk(max, s.decisions, s.applied, RingRead(|s.ring|, PendingCount(s.ring)))
  {
    LatestHasFewerApplied(max, s.log);
  }

  lemma AppendKeepsCounters(max: nat, s: State, c: PolicyChange, t: nat, th: Thread)
    requires max >= 1 && CountersOk(s)
    requires InPhase(Owing, At(s.threads, t)) && !InPhase(Unclassified, At(s.threads, t))
    requires InPhase(Crediting, At(s.threads, t)) == c.applied
    requires InPhase(Unchanging, At(s.threads, t)) == c.decision.NoChange?
    requires forall p :: !InPhase(p, th)
    ensures CountersOk(Move(AppendChange(max, s, c), t, th))
  {
    AllMembersAfter(s.threads, t, th);
    AppliedConcat(s.log, [c]);
    AppliedOfOne(c);
    NoChangeAppend(s.log, c);
    assert !InPhase(Owing, th) && !InPhase(Crediting, th) && !InPhase(Unclassified, th) && !InPhase(Unchanging, th);
  }

  lemma LockStaysOk(s: State, s': State, t: nat, th: Thread)
    requires LockOk(s) && s'.threads == s.threads[t := th]
    requires th.Marking? <==> s'.lock == Some(t)
    requires s'.lock == s.lock || s.lock == Some(t) || (s.lock.None? && s'.lock == Some(t))
    requires s'.lock.None? || s'.lock == s.lock || s'.lock == Some(t)
    ensures LockOk(s')
  {
    forall u: nat
      ensures At(s'.threads, u).Marking? <==> s'.lock == Some(u)
    {
      assert At(s.threads, u).Marking? <==> s.lock == Some(u);
    }
  }

  // A thread moving between points outside every phase, with nothing else changing.
  lemma QuietMoveKeepsInv(max: nat, s: State, t: nat, th: Thread)
    requires Inv(max, s) && ThreadOk(max, s.decisions, s.applied, th)
    requires forall p :: !InPhase(p, th) && !InPhase(p, At(s.threads, t))
    requires !th.Marking? && !At(s.threads, t).Marking?
    ensures Inv(max, Move(s, t, th))
  {
    AllMembersAfter(s.threads, t, th);
    assert !InPhase(Owing, th) && !InPhase(Crediting, th) && !InPhase(Unclassified, th) && !InPhase(Unchanging, th);
    OthersStayOk(max, s, Move(s, t, th), t, th);
    LockStaysOk(s, Move(s, t, th), t, th);
  }

  lemma StartKeepsInv(max: nat, s: State, a: Action)
    requires max >= 1 && Inv(max, s) && (a.StartBatch? || a.StartRevert? || a.Return?)
    ensures Inv(max, Next(max, s, a))
  {
    var s', t := Next(max, s, a), a.t;
    if s' != s {
      QuietMoveKeepsInv(max, s, t, s'.threads[t]);
    }
  }

  lemma ReadKeepsInv(max: nat, s: State, a: Action)
    requires max >= 1 && Inv(max, s) && (a.ReadRing? || a.Load?)
    ensures Inv(max, Next(max, s, a))
  {
    var s', t := Next(max, s, a), a.t;
    if s' != s {
      if a.ReadRing? {
        ReaderIsOk(max, s);
      } else {
        assert ThreadOk(max, s.decisions, s.applied, s.threads[t]);
      }
      QuietMoveKeepsInv(max, s, t, s'.threads[t]);
    }
  }

  // A thread moving while counters go up.
  lemma CountingMoveKeepsInv(max: nat, s: State, s': State, t: nat, th: Thread)
    requires Inv(max, s) && s'.threads == s.threads[t := th] && s'.ring == s.ring && s'.log == s.log
    requires s.decisions <= s'.decisions && s.applied <= s'.applied
    requires ThreadOk(max, s'.decisions, s'.applied, th) && !th.Marking?
    requires s'.lock == if At(s.threads, t).Marking? then None else s.lock
    requires var was := At(s.threads, t);
             s'.decisions + One(InPhase(Owing, was)) == s.decisions + One(InPhase(Owing, th)) &&
             s'.applied + One(s'.lock.Some?) + One(InPhase(Crediting, was)) ==
               s.applied + One(s.lock.Some?) + One(InPhase(Crediting, th)) &&
             s'.noChange + One(InPhase(Unchanging, was)) == s.noChange + One(InPhase(Unchanging, th)) &&
             s'.noChange + One(InPhase(Unclassified, th)) + s.decisions <=
               s.noChange + One(InPhase(Unclassified, was)) + s'.decisions
    ensures Inv(max, s')
  {
    AllMembersAfter(s.threads, t, th);
    OthersStayOk(max, s, s', t, th);
    LockStaysOk(s, s', t, th);
  }

  lemma CountKeepsInv(max: nat, s: State, a: Action)
    requires max >= 1 && Inv(max, s) && (a.CountDecision? || a.CountNoChange? || a.CountApplied?)
    ensures Inv(max, Next(max, s, a))
  {
    var s', t := Next(max, s, a), a.t;
    if s' != s {
      assert ThreadOk(max, s.decisions, s.applied, s.threads[t]);
      CountingMoveKeepsInv(max, s, s', t, s'.threads[t]);
    }
  }

  // A thread that owes a record appends it.
  lemma AppendedKeepsInv(max: nat, s: State, c: PolicyChange, t: nat, th: Thread)
    requires max >= 1 && Inv(max, s) && s.lock.None?
    requires InPhase(Owing, At(s.threads, t)) && !InPhase(Unclassified, At(s.threads, t))
    requires InPhase(Crediting, At(s.threads, t)) == c.applied
    requires InPhase(Unchanging, At(s.threads, t)) == c.decision.NoChange?
    requires (forall p :: !InPhase(p, th)) && !th.Marking? && ThreadOk(max, s.decisions, s.applied, th)
    ensures Inv(max, Move(AppendChange(max, s, c), t, th))
  {
    var s' := Move(AppendChange(max, s, c), t, th);
    AppendKeepsCounters(max, s, c, t, th);
    PushIsLatest(max, s.log, c);
    OthersStayOk(max, s, s', t, th);
    LockStaysOk(s, s', t, th);
  }

  lemma AppendKeepsInv(max: nat, s: State, t: nat)
    requires max >= 1 && Inv(max, s)
    ensures Inv(max, Next(max, s, Append(t)))
  {
    var was := At(s.threads, t);
    if s.lock.None? {
      assert t in s.threads ==> ThreadOk(max, s.decisions, s.applied, was);
      if was.Classified? {
        AppendedKeepsInv(max, s, was.todo[0], t, Evaluating(was.todo[1..]));
      } else if was.RevertApplied? {
        AppendedKeepsInv(max, s, was.change, t, Idle);
      }
    }
  }

  lemma MarkKeepsCounters(s: State, i: nat, t: nat)
    requires CountersOk(s) && s.lock.None? && At(s.threads, t).Idle?
    requires i < |s.ring| <= |s.log| && !s.log[|s.log| - |s.ring| + i].applied
    ensures CountersOk(Move(MarkChange(s, i).(lock := Some(t)), t, Marking))
  {
    AllMembersAfter(s.threads, t, Marking);
    MarkAddsOne(s.log, |s.log| - |s.ring| + i);
    MarkKeepsDecisions(s.log, |s.log| - |s.ring| + i);
  }

  lemma MarkedKeepsInv(max: nat, s: State, i: nat, t: nat)
    requires Inv(max, s) && s.lock.None? && At(s.threads, t).Idle?
    requires i < |s.ring| <= |s.log| && !s.ring[i].applied
    ensures Inv(max, Move(MarkChange(s, i).(lock := Some(t)), t, Marking))
  {
    var s' := Move(MarkChange(s, i).(lock := Some(t)), t, Marking);
    assert s.log[|s.log| - |s.ring| + i] == s.ring[i];
    MarkKeepsCounters(s, i, t);
    MarkIsLatest(max, s.log, i);
    OthersStayOk(max, s, s', t, Marking);
    LockStaysOk(s, s', t, Marking);
  }

  lemma MarkKeepsInv(max: nat, s: State, t: nat, segmentId: nat, timestampMs: nat)
    requires max >= 1 && Inv(max, s)
    ensures Inv(max, Next(max, s, MarkApplied(t, segmentId, timestampMs)))
  {
    var i := LatestMatch(s.ring, segmentId, timestampMs);
    if At(s.threads, t).Idle? && s.lock.None? && i < |s.ring| && !s.ring[i].applied {
      MarkedKeepsInv(max, s, i, t);
    }
  }

  lemma StepKeepsInv(max: nat, s: State, a: Action)
    requires max >= 1 && Inv(max, s)
    ensures Inv(max, Next(max, s, a))
  {
    match a
    case Append(t) => AppendKeepsInv(max, s, t);
    case MarkApplied(t, segmentId, timestampMs) => MarkKeepsInv(max, s, t, segmentId, timestampMs);
    case CountDecision(_) => CountKeepsInv(max, s, a);
    case CountNoChange(_) => CountKeepsInv(max, s, a);
    case CountApplied(_) => CountKeepsInv(max, s, a);
    case ReadRing(_) => ReadKeepsInv(max, s, a);
    case Load(_) => ReadKeepsInv(max, s, a);
    case _ => StartKeepsInv(max, s, a);
  }

  // ------------------------------------------------------------------------
  // Runs
  // ------------------------------------------------------------------------

  function Run(max: nat, actions: seq<Action>): (s: State)
    requires max >= 1
    ensures |s.ring| <= |s.log|
  {
    if actions == [] then START else
    Next(max, Run(max, actions[..|actions| - 1]), actions[|actions| - 1])
  }

  lemma StartInv(max: nat)
    ensures Inv(max, START)
  {
    assert Members(Owing, START.threads) == {} && Members(Crediting, START.threads) == {} &&
           Members(Unclassified, START.threads) == {} && Members(Unchanging, START.threads) == {};
  }

  lemma {:induction false} RunKeepsInv(max: nat, actions: seq<Action>)
    requires max >= 1
    ensures Inv(max, Run(max, actions))
  {
    if actions == [] {
      StartInv(max);
    } else {
      var before := actions[..|actions| - 1];
      RunKeepsInv(max, before);
      StepKeepsInv(max, Run(max, before), actions[|actions| - 1]);
    }
  }

  lemma InvGives(max: nat, s: State, t: nat)
    requires Inv(max, s)
    ensures s.ring == Latest(max, s.log) && s.noChange <= s.decisions
    ensures At(s.threads, t).Reported? ==> MetricsOk(max, At(s.threads, t).metrics)
  {
    if t in s.threads {
      assert ThreadOk(max, s.decisions, s.applied, s.threads[t]);
    }
  }

  // Under every interleaving: the ring is the latest records of the log, every finished metrics
  // snapshot is consistent, and the no-change counter is never ahead of the decision counter.
  lemma EveryInterleaving(max: nat, actions: seq<Action>, t: nat)
    requires max >= 1
    ensures var s := Run(max, actions);
            s.ring == Latest(max, s.log) && s.noChange <= s.decisions &&
            (At(s.threads, t).Reported? ==> MetricsOk(max, At(s.threads, t).metrics))
  {
    RunKeepsInv(max, actions);
    InvGives(max, Run(max, actions), t);
  }

  // When no thread is between counting and recording, the counters are those of the log: its length,
  // its no-change decisions and its applied records.
  lemma QuietCountersCount(max: nat, actions: seq<Action>)
    requires max >= 1
    requires var s := Run(max, actions); s.lock.None? && forall p, t :: !InPhase(p, At(s.threads, t))
    ensures var s := Run(max, actions);
            s.decisions == |s.log| && s.noChange == NoChangeCount(s.log) && s.applied == AppliedCount(s.log)
  {
    RunKeepsInv(max, actions);
    NobodyIn(Run(max, actions));
  }

  lemma NobodyIn(s: State)
    requires forall p, t :: !InPhase(p, At(s.threads, t))
    ensures forall p :: Members(p, s.threads) == {}
  {
    forall p
      ensures Members(p, s.threads) == {}
    {
      assert forall t :: t in s.threads ==> At(s.threads, t) == s.threads[t];
    }
  }

  // ------------------------------------------------------------------------
  // Who recorded what
  // ------------------------------------------------------------------------

  // The records a step takes on: a batch as decided, or the record of a revert.
  function TakesOn(s: State, a: Action): History {
    if !At(s.threads, a.t).Idle? then []
    else
      match a
      case StartBatch(_, todo) => if Unmarked(todo) then todo else []
      case StartRevert(_, segmentId, timestampMs) => [PolicyChange(segmentId, NoChange, timestampMs, true)]
      case _ => []
  }

  // What thread t has taken on in a run, and what its steps have appended to the log.
  function TakenOn(max: nat, actions: seq<Action>, t: nat): History
    requires max >= 1
  {
    if actions == [] then [] else
    var before, a := actions[..|actions| - 1], actions[|actions| - 1];
    TakenOn(max, before, t) + if a.t == t then TakesOn(Run(max, before), a) else []
  }

  function AppendedBy(max: nat, actions: seq<Action>, t: nat): History
    requires max >= 1
  {
    if actions == [] then [] else
    var before, a := actions[..|actions| - 1], actions[|actions| - 1];
    AppendedBy(max, before, t) + if a.t == t then Grown(Run(max, before).log, Run(max, actions).log) else []
  }

  function Grown(log: History, log': History): History {
    if |log| < |log'| then log'[|log|..] else []
  }

  function StillToRecord(th: Thread): History {
    match th
    case Evaluating(todo) => todo
    case Decided(todo) => todo
    case Classified(todo) => todo
    case Reverting(c) => [c]
    case RevertDecided(c) => [c]
    case RevertClassified(c) => [c]
    case RevertApplied(c) => [c]
    case _ => []
  }

  lemma StepRecords(max: nat, s: State, a: Action)
    requires max >= 1 && |s.ring| <= |s.log|
    ensures var s' := Next(max, s, a);
            StillToRecord(At(s.threads, a.t)) + TakesOn(s, a) ==
            Grown(s.log, s'.log) + StillToRecord(At(s'.threads, a.t))
  {
    var s', th := Next(max, s, a), At(s.threads, a.t);
    if a.Append? && s.lock.None? && th.Classified? && th.todo != [] {
      assert Grown(s.log, s'.log) == [th.todo[0]];
    } else if a.Append? && s.lock.None? && th.RevertApplied? {
      assert Grown(s.log, s'.log) == [th.change];
    } else {
      assert Grown(s.log, s'.log) == [];
    }
  }

  lemma Shift(taken: History, appended: History, still: History, more: History, grown: History, left: History)
    requires taken == appended + still && still + more == grown + left
    ensures taken + more == appended + grown + left
  {
    assert appended + still + more == appended + (still + more);
    assert appended + (grown + left) == appended + grown + left;
  }

  // Under every interleaving a thread appends just the records it took on, each once and in order;
  // what is missing it has still to record.
  lemma {:induction false} ThreadRecordsInOrder(max: nat, actions: seq<Action>, t: nat)
    requires max >= 1
    ensures TakenOn(max, actions, t) ==
            AppendedBy(max, actions, t) + StillToRecord(At(Run(max, actions).threads, t))
  {
    if actions != [] {
      var before, a := actions[..|actions| - 1], actions[|actions| - 1];
      ThreadRecordsInOrder(max, before, t);
      var s := Run(max, before);
      if a.t == t {
        StepRecords(max, s, a);
        Shift(TakenOn(max, before, t), AppendedBy(max, before, t), StillToRecord(At(s.threads, t)), TakesOn(s, a),
              Grown(s.log, Run(max, actions).log), StillToRecord(At(Run(max, actions).threads, t)));
      } else {
        StepElsewhere(max, s, a, t);
      }
    }
  }

  // ------------------------------------------------------------------------
  // The ring as a run goes on
  // ------------------------------------------------------------------------

  ghost predicate SameButMark(a: PolicyChange, b: PolicyChange) {
    a.(applied := true) == b.(applied := true) && (a.applied ==> b.applied)
  }

  ghost predicate Extends(log: History, log': History) {
    |log| <= |log'| && forall i :: 0 <= i < |log| ==> SameButMark(log[i], log'[i])
  }

  // The step appends a record.
  predicate Records(s: State, a: Action) {
    var th := At(s.threads, a.t);
    a.Append? && s.lock.None? && ((th.Classified? && th.todo != []) || th.RevertApplied?)
  }

  // How many records a run appends.
  function Recorded(max: nat, actions: seq<Action>): nat
    requires max >= 1
  {
    if actions == [] then 0 else
    var before := actions[..|actions| - 1];
    Recorded(max, before) + One(Records(Run(max, before), actions[|actions| - 1]))
  }

  lemma RunStep(max: nat, actions: seq<Action>, a: Action)
    requires max >= 1
    ensures Run(max, actions + [a]) == Next(max, Run(max, actions), a)
    ensures Recorded(max, actions + [a]) == Recorded(max, actions) + One(Records(Run(max, actions), a))
  {
    assert (actions + [a])[..|actions|] == actions;
  }

  lemma StepExtends(max: nat, s: State, a: Action)
    requires max >= 1 && |s.ring| <= |s.log|
    ensures Extends(s.log, Next(max, s, a).log)
    ensures |Next(max, s, a).log| == |s.log| + One(Records(s, a))
  {
  }

  lemma ExtendsTransitive(a: History, b: History, c: History)
    requires Extends(a, b) && Extends(b, c)
    ensures Extends(a, c)
  {
    forall i | 0 <= i < |a|
      ensures SameButMark(a[i], c[i])
    {
      assert SameButMark(a[i], b[i]) && SameButMark(b[i], c[i]);
    }
  }

  lemma ExtendsItself(log: History)
    ensures Extends(log, log)
  {
  }

  lemma ExtendOnce(max: nat, log: History, s: State, a: Action)
    requires max >= 1 && |s.ring| <= |s.log| && Extends(log, s.log)
    ensures Extends(log, Next(max, s, a).log)
    ensures |Next(max, s, a).log| == |s.log| + One(Records(s, a))
  {
    StepExtends(max, s, a);
    ExtendsTransitive(log, s.log, Next(max, s, a).log);
  }

  ghost predicate Continues(max: nat, actions: seq<Action>, longer: seq<Action>)
    requires max >= 1
  {
    Extends(Run(max, actions).log, Run(max, longer).log) &&
    |Run(max, longer).log| - |Run(max, actions).log| == Recorded(max, longer) - Recorded(max, actions)
  }

  lemma ContinueOnce(max: nat, actions: seq<Action>, longer: seq<Action>, a: Action)
    requires max >= 1 && Continues(max, actions, longer)
    ensures Continues(max, actions, longer + [a])
  {
    RunStep(max, longer, a);
    ExtendOnce(max, Run(max, actions).log, Run(max, longer), a);
  }

  lemma {:induction false} RunExtends(max: nat, actions: seq<Action>, more: seq<Action>)
    requires max >= 1
    ensures Continues(max, actions, actions + more)
    decreases |more|
  {
    if more == [] {
      assert actions + more == actions;
      ExtendsItself(Run(max, actions).log);
    } else {
      var a, rest := more[|more| - 1], more[..|more| - 1];
      RunExtends(max, actions, rest);
      ContinueOnce(max, actions, actions + rest, a);
      assert actions + more == actions + rest + [a];
    }
  }

  // The later ring is the earlier one with the oldest records dropped, just as many as needed, and
  // `added` new ones behind; a record that stays is unchanged but for a mark it may have gained.
  ghost predicate MovesOn(max: nat, ring: History, ring': History, added: nat) {
    |ring'| == Min(|ring| + added, max) &&
    Extends(ring[Min(|ring|, |ring| + added - |ring'|)..], ring')
  }

  lemma ExtendsSuffix(log: History, log': History, k: nat)
    requires Extends(log, log') && k <= |log|
    ensures Extends(log[k..], log'[k..])
  {
    forall i | 0 <= i < |log| - k
      ensures SameButMark(log[k..][i], log'[k..][i])
    {
      assert SameButMark(log[k + i], log'[k + i]);
    }
  }

  lemma LatestMovesOn(max: nat, log: History, log': History)
    requires Extends(log, log')
    ensures MovesOn(max, Latest(max, log), Latest(max, log'), |log'| - |log|)
  {
    var ring, ring' := Latest(max, log), Latest(max, log');
    var dropped := Min(|ring|, |ring| + (|log'| - |log|) - |ring'|);
    var k := |log'| - |ring'|;
    if k <= |log| {
      ExtendsSuffix(log, log', k);
      assert ring[dropped..] == log[k..] && ring' == log'[k..];
    } else {
      assert ring[dropped..] == [];
    }
  }

  // However a run goes on, the audit ring only drops its oldest records to make room for new ones;
  // no record is rewritten, moved past another, or loses its mark.
  lemma RingMovesOn(max: nat, actions: seq<Action>, more: seq<Action>)
    requires max >= 1
    ensures Recorded(max, actions) <= Recorded(max, actions + more)
    ensures MovesOn(max, Run(max, actions).ring, Run(max, actions + more).ring,
                    Recorded(max, actions + more) - Recorded(max, actions))
  {
    RunExtends(max, actions, more);
    EveryInterleaving(max, actions, 0);
    EveryInterleaving(max, actions + more, 0);
    LatestMovesOn(max, Run(max, actions).log, Run(max, actions + more).log);
  }

  // ------------------------------------------------------------------------
  // When a snapshot's counters fit together
  // ------------------------------------------------------------------------

  // The step counts a decision that changes nothing.
  predicate CountsNoChange(s: State, a: Action) {
    var th := At(s.threads, a.t);
    a.CountNoChange? &&
    ((th.Decided? && th.todo != [] && th.todo[0].decision.NoChange?) || th.RevertDecided?)
  }

  // How many such steps `mid` takes after `actions`.
  function NoChangesDuring(max: nat, actions: seq<Action>, mid: seq<Action>): nat
    requires max >= 1
    decreases |mid|
  {
    if mid == [] then 0 else
    var rest := mid[..|mid| - 1];
    NoChangesDuring(max, actions, rest) + One(CountsNoChange(Run(max, actions + rest), mid[|mid| - 1]))
  }

  predicate WithoutThread(t: nat, actions: seq<Action>) {
    forall i :: 0 <= i < |actions| ==> actions[i].t != t
  }

  lemma StepElsewhere(max: nat, s: State, a: Action, t: nat)
    requires max >= 1 && |s.ring| <= |s.log|
    ensures a.t != t ==> At(Next(max, s, a).threads, t) == At(s.threads, t)
    ensures Next(max, s, a).noChange == s.noChange + One(CountsNoChange(s, a))
  {
  }

  // While other threads take the steps `mid`, thread t stays where it is, and the no-change counter
  // grows by what they count.
  ghost predicate StaysPut(max: nat, actions: seq<Action>, mid: seq<Action>, t: nat)
    requires max >= 1
  {
    At(Run(max, actions + mid).threads, t) == At(Run(max, actions).threads, t) &&
    Run(max, actions + mid).noChange == Run(max, actions).noChange + NoChangesDuring(max, actions, mid)
  }

  lemma StayOnce(max: nat, actions: seq<Action>, mid: seq<Action>, a: Action, t: nat)
    requires max >= 1 && StaysPut(max, actions, mid, t) && a.t != t
    ensures StaysPut(max, actions, mid + [a], t)
  {
    assert actions + (mid + [a]) == actions + mid + [a];
    assert (mid + [a])[..|mid|] == mid;
    RunStep(max, actions + mid, a);
    StepElsewhere(max, Run(max, actions + mid), a, t);
  }

  lemma {:induction false} Meanwhile(max: nat, actions: seq<Action>, mid: seq<Action>, t: nat)
    requires max >= 1 && WithoutThread(t, mid)
    ensures StaysPut(max, actions, mid, t)
    decreases |mid|
  {
    if mid == [] {
      assert actions + mid == actions;
    } else {
      var a, rest := mid[|mid| - 1], mid[..|mid| - 1];
      Meanwhile(max, actions, rest, t);
      StayOnce(max, actions, rest, a, t);
      assert mid == rest + [a];
    }
  }

  lemma LoadStep(max: nat, s: State, t: nat)
    requires max >= 1 && |s.ring| <= |s.log|
    ensures var th, th' := At(s.threads, t), At(Next(max, s, Load(t)).threads, t);
            (th.RingRead? ==> th' == DecisionsRead(th.size, th.pending, s.decisions)) &&
            (th.DecisionsRead? ==> th' == NoChangeRead(th.size, th.pending, th.decisions, s.noChange)) &&
            (th.NoChangeRead? ==>
               th' == Reported(Metrics(th.decisions, th.noChange, s.applied, th.pending, th.size)))
    ensures Next(max, s, Load(t)).noChange == s.noChange
  {
  }

  // A snapshot reports no more no-change decisions than decisions if and only if the other threads
  // count, between its first two loads, no more no-change decisions than there was room for at the
  // first. In particular it does when none is counted in between.
  lemma SnapshotFitsExactlyWhen(max: nat, before: seq<Action>, t: nat, mid: seq<Action>, rest: seq<Action>)
    requires max >= 1 && WithoutThread(t, mid) && WithoutThread(t, rest)
    requires At(Run(max, before).threads, t).RingRead?
    ensures var s, end := Run(max, before), Run(max, before + [Load(t)] + mid + [Load(t)] + rest + [Load(t)]);
            s.noChange <= s.decisions && At(end.threads, t).Reported? &&
            (At(end.threads, t).metrics.noChangeTotal <= At(end.threads, t).metrics.decisionsTotal <==>
             NoChangesDuring(max, before + [Load(t)], mid) <= s.decisions - s.noChange)
  {
    RunKeepsInv(max, before);
    InvGives(max, Run(max, before), t);
    var a1 := before + [Load(t)];
    RunStep(max, before, Load(t));
    LoadStep(max, Run(max, before), t);
    Meanwhile(max, a1, mid, t);
    RunStep(max, a1 + mid, Load(t));
    LoadStep(max, Run(max, a1 + mid), t);
    var a2 := a1 + mid + [Load(t)];
    Meanwhile(max, a2, rest, t);
    RunStep(max, a2 + rest, Load(t));
    LoadStep(max, Run(max, a2 + rest), t);
  }

  const SAMPLE := PolicyChange(7, NoChange, 5, false)

  // Thread 0 has read the ring and the decision counter.
  const BEFORE := START.(threads := map[0 := DecisionsRead(0, 0, 0)])

  // Then thread 1 has counted a decision that changes nothing.
  const BETWEEN := State([], 1, 1, 0, None, map[0 := DecisionsRead(0, 0, 0), 1 := Classified([SAMPLE])], [])

  lemma ReachBefore(max: nat)
    requires max >= 1
    ensures Run(max, [ReadRing(0), Load(0)]) == BEFORE
  {
    RunStep(max, [], ReadRing(0));
    assert [] + [ReadRing(0)] == [ReadRing(0)];
    assert Run(max, [ReadRing(0)]) == START.(threads := map[0 := RingRead(0, 0)]);
    RunStep(max, [ReadRing(0)], Load(0));
    assert [ReadRing(0)] + [Load(0)] == [ReadRing(0), Load(0)];
  }

  lemma DecideBetween(max: nat)
    requires max >= 1
    ensures Next(max, Next(max, Next(max, BEFORE, StartBatch(1, [SAMPLE])), CountDecision(1)), CountNoChange(1)) ==
            BETWEEN
  {
    var s := Next(max, BEFORE, StartBatch(1, [SAMPLE]));
    assert s == BEFORE.(threads := map[0 := DecisionsRead(0, 0, 0), 1 := Evaluating([SAMPLE])]);
    var u := Next(max, s, CountDecision(1));
    assert u == BEFORE.(decisions := 1, threads := map[0 := DecisionsRead(0, 0, 0), 1 := Decided([SAMPLE])]);
  }

  lemma LoadsAfter(max: nat)
    requires max >= 1
    ensures At(Next(max, Next(max, BETWEEN, Load(0)), Load(0)).threads, 0) == Reported(Metrics(0, 1, 0, 0, 0))
  {
  }

  const DURING: seq<Action> :=
    [ReadRing(0), Load(0)] + [StartBatch(1, [SAMPLE])] + [CountDecision(1)] + [CountNoChange(1)]

  lemma ReachBetween(max: nat)
    requires max >= 1
    ensures Run(max, DURING) == BETWEEN
  {
    var a2 := [ReadRing(0), Load(0)];
    var a3 := a2 + [StartBatch(1, [SAMPLE])];
    ReachBefore(max);
    RunStep(max, a2, StartBatch(1, [SAMPLE]));
    RunStep(max, a3, CountDecision(1));
    RunStep(max, a3 + [CountDecision(1)], CountNoChange(1));
    DecideBetween(max);
  }

  // The counters are loaded one after the other, so one snapshot can show more no-change
  // decisions than decisions: thread 1 decides between two loads of thread 0.
  lemma SnapshotMayShowMoreNoChanges(max: nat)
    requires max >= 1
    ensures exists actions :: At(Run(max, actions).threads, 0) == Reported(Metrics(0, 1, 0, 0, 0))
  {
    ReachBetween(max);
    RunStep(max, DURING, Load(0));
    RunStep(max, DURING + [Load(0)], Load(0));
    LoadsAfter(max);
    assert At(Run(max, DURING + [Load(0)] + [Load(0)]).threads, 0) == Reported(Metrics(0, 1, 0, 0, 0));
  }
}
