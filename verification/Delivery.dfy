/**
 Replay from the event log: a consumer of a stream replays what follows its checkpoint and moves
 the checkpoint by acknowledging a list of events. Appends, replays and acknowledgements of any
 number of streams interleave freely.
 */
module Delivery {
  import opened Wrappers
  import opened Collections
  import opened Text
  import opened EventCodec
  import EventBus

  type Events = seq<StreamEventEnvelope>

  // ------------------------------------------------------------------------
  // The log
  // ------------------------------------------------------------------------

  // The events of a stream numbered `from` or later, in log order.
  function Select(log: Events, stream: string, from: nat): Events {
    if log == [] then [] else
    var e := log[|log| - 1];
    Select(log[..|log| - 1], stream, from) +
    (if e.streamName == stream && e.eventId >= from then [e] else [])
  }

  function StreamEvents(log: Events, stream: string): Events {
    Select(log, stream, 0)
  }

  // `replay_from_store` with the checkpoint the store has for the stream
  function ReplayFrom(log: Events, stream: string, checkpoint: Option<nat>, maxItems: nat): Events {
    Take(Select(log, stream, if checkpoint.Some? then checkpoint.value + 1 else 1), maxItems)
  }

  ghost predicate Numbered(log: Events) {
    forall i :: 0 <= i < |log| ==> log[i].eventId == i + 1
  }

  lemma {:induction false} SelectedIds(log: Events, stream: string, from: nat)
    requires Numbered(log)
    ensures forall e :: e in Select(log, stream, from) ==> 1 <= e.eventId <= |log| && e.eventId >= from
  {
    if log != [] {
      SelectedIds(log[..|log| - 1], stream, from);
    }
  }

  // Just the events of the stream numbered `from` or later, each once and in log order.
  lemma {:induction false} SelectPicks(log: Events, stream: string, from: nat) returns (at: seq<nat>)
    ensures PicksAt(Select(log, stream, from), log, at)
    ensures forall j: nat :: j in at <==> j < |log| && log[j].streamName == stream && log[j].eventId >= from
  {
    if log == [] {
      at := [];
    } else {
      at := SelectPicks(log[..|log| - 1], stream, from);
      PicksOn(Select(log[..|log| - 1], stream, from), log, at);
      var e := log[|log| - 1];
      if e.streamName == stream && e.eventId >= from {
        at := at + [|log| - 1];
      }
    }
  }

  lemma {:induction false} NothingLater(log: Events, stream: string, from: nat)
    requires Numbered(log) && from > |log|
    ensures Select(log, stream, from) == []
  {
    if log != [] {
      NothingLater(log[..|log| - 1], stream, from);
    }
  }

  // The number that a consumer who has seen n events of the stream stops at.
  function Mark(all: Events, n: nat): nat
    requires n <= |all|
  {
    if n == 0 then 0 else all[n - 1].eventId
  }

  lemma MarkBound(log: Events, stream: string, n: nat)
    requires Numbered(log) && n <= |StreamEvents(log, stream)|
    ensures Mark(StreamEvents(log, stream), n) <= |log|
  {
    SelectedIds(log, stream, 0);
    assert n > 0 ==> StreamEvents(log, stream)[n - 1] in StreamEvents(log, stream);
  }

  // Selecting past the n-th event of a stream skips exactly the first n.
  lemma {:induction false} SelectSkips(log: Events, stream: string, n: nat)
    requires Numbered(log) && n <= |StreamEvents(log, stream)|
    ensures Select(log, stream, Mark(StreamEvents(log, stream), n) + 1) == StreamEvents(log, stream)[n..]
  {
    if log != [] {
      var init, e := log[..|log| - 1], log[|log| - 1];
      var all := StreamEvents(init, stream);
      if n <= |all| {
        SelectSkips(init, stream, n);
        MarkBound(init, stream, n);
        SkipInAll(all, if e.streamName == stream then [e] else [], n);
      } else {
        NothingLater(init, stream, e.eventId + 1);
      }
    }
  }

  lemma SkipInAll(all: Events, tail: Events, n: nat)
    requires n <= |all|
    ensures Mark(all + tail, n) == Mark(all, n) && (all + tail)[n..] == all[n..] + tail
  {
  }

  lemma {:induction false} StreamIdsAscend(log: Events, stream: string)
    requires Numbered(log)
    ensures var all := StreamEvents(log, stream);
            forall i, j :: 0 <= i < j < |all| ==> all[i].eventId < all[j].eventId
  {
    if log != [] {
      var init := log[..|log| - 1];
      StreamIdsAscend(init, stream);
      SelectedIds(init, stream, 0);
      var all := StreamEvents(init, stream);
      assert forall i :: 0 <= i < |all| ==> all[i] in all;
    }
  }

  // ------------------------------------------------------------------------
  // The protocol
  // ------------------------------------------------------------------------

  // `acknowledged` is what the consumer of a stream has accepted so far, list after list.
  datatype State = State(log: Events, checkpoints: map<string, nat>, acknowledged: map<string, Events>)

  // A replay changes nothing, and a consumer may acknowledge any list of events it has; `saveOk` is
  // the outcome of saving the checkpoint.
  datatype Op =
    | Append(m: EventBus.Message)
    | Acknowledge(stream: string, delivered: Events, saveOk: bool)

  const START := State([], map[], map[])

  function Accepted(s: State, stream: string): Events {
    if stream in s.acknowledged then s.acknowledged[stream] else []
  }

  function Envelope(m: EventBus.Message, eventId: u64): StreamEventEnvelope {
    StreamEventEnvelope(eventId, m.streamName, m.direction, m.origin, m.now, m.payloadJson, m.attributes)
  }

  // What a replay of the stream would deliver now.
  function Batch(s: State, stream: string, maxItems: nat): Events {
    ReplayFrom(s.log, stream, Lookup(s.checkpoints, stream), maxItems)
  }

  function Step(s: State, op: Op): State
    requires |s.log| + 1 < U64_LIMIT
  {
    match op
    case Append(m) => s.(log := s.log + [Envelope(m, |s.log| + 1)])
    case Acknowledge(stream, delivered, saveOk) =>
      if delivered == [] || !saveOk then s else
      s.(checkpoints := s.checkpoints[stream := delivered[|delivered| - 1].eventId],
         acknowledged := s.acknowledged[stream := Accepted(s, stream) + delivered])
  }

  function Run(s: State, ops: seq<Op>): State {
    if ops == [] then s else
    var t := Run(s, ops[..|ops| - 1]);
    if |t.log| + 1 < U64_LIMIT then Step(t, ops[|ops| - 1]) else t
  }

  // The consumer of a stream has accepted a prefix of its events, and the checkpoint sits on the
  // last of them.
  ghost predicate InOrder(s: State, stream: string) {
    var all, done := StreamEvents(s.log, stream), Accepted(s, stream);
    done <= all &&
    Lookup(s.checkpoints, stream) == (if done == [] then None else Some(done[|done| - 1].eventId))
  }

  lemma BatchIsNext(s: State, stream: string, maxItems: nat)
    requires Numbered(s.log) && InOrder(s, stream)
    ensures Batch(s, stream, maxItems) ==
            Take(StreamEvents(s.log, stream)[|Accepted(s, stream)|..], maxItems)
  {
    SelectSkips(s.log, stream, |Accepted(s, stream)|);
  }

  // The step is no successful acknowledgement of the stream, or one of just the events that a replay
  // of as many would deliver now.
  predicate InTime(s: State, op: Op, stream: string) {
    op.Acknowledge? && op.stream == stream && op.saveOk ==> op.delivered == Batch(s, stream, |op.delivered|)
  }

  // ------------------------------------------------------------------------
  // What each step keeps
  // ------------------------------------------------------------------------

  lemma AppendKeepsOrder(s: State, m: EventBus.Message, stream: string)
    requires Numbered(s.log) && |s.log| + 1 < U64_LIMIT
    ensures var t := Step(s, Append(m));
            Numbered(t.log) &&
            (StreamEvents(t.log, stream) == StreamEvents(s.log, stream) ||
             StreamEvents(t.log, stream) == StreamEvents(s.log, stream) + [Envelope(m, |s.log| + 1)])
    ensures InOrder(s, stream) ==> InOrder(Step(s, Append(m)), stream)
  {
    assert Step(s, Append(m)).log[..|s.log|] == s.log;
  }

  lemma NextIsPrefix(all: Events, done: Events, delivered: Events)
    requires done <= all
    ensures done + delivered <= all <==> delivered == Take(all[|done|..], |delivered|)
  {
    if done + delivered <= all {
      assert delivered == (done + delivered)[|done|..] == all[|done|..|done| + |delivered|];
    }
    if delivered == Take(all[|done|..], |delivered|) {
      assert all == done + all[|done|..];
    }
  }

  lemma AcknowledgeKeepsOrder(s: State, op: Op, stream: string)
    requires Numbered(s.log) && InOrder(s, stream) && |s.log| + 1 < U64_LIMIT
    requires op.Acknowledge? && op.stream == stream && op.saveOk && op.delivered != []
    ensures InOrder(Step(s, op), stream) <==> op.delivered == Batch(s, stream, |op.delivered|)
  {
    var all, done, t := StreamEvents(s.log, stream), Accepted(s, stream), Step(s, op);
    BatchIsNext(s, stream, |op.delivered|);
    NextIsPrefix(all, done, op.delivered);
    assert Accepted(t, stream) == done + op.delivered;
    assert Lookup(t.checkpoints, stream) == Some(op.delivered[|op.delivered| - 1].eventId);
  }

  // A stream in order stays so through a step if and only if the step is in time, whatever list of
  // events is acknowledged.
  lemma StepKeepsOrder(s: State, op: Op, stream: string)
    requires Numbered(s.log) && InOrder(s, stream) && |s.log| + 1 < U64_LIMIT
    ensures Numbered(Step(s, op).log)
    ensures InOrder(Step(s, op), stream) <==> InTime(s, op, stream)
  {
    if op.Append? {
      AppendKeepsOrder(s, op.m, stream);
    } else if op.stream == stream && op.saveOk && op.delivered != [] {
      AcknowledgeKeepsOrder(s, op, stream);
    } else {
      var t := Step(s, op);
      assert Accepted(t, stream) == Accepted(s, stream);
      assert Lookup(t.checkpoints, stream) == Lookup(s.checkpoints, stream);
      assert op.delivered == [] ==> Batch(s, stream, 0) == [];
    }
  }

  // ------------------------------------------------------------------------
  // Disorder stays
  // ------------------------------------------------------------------------

  // The n-th accepted event is not the n-th of the stream, and never will be, as it is an event
  // already logged.
  ghost predicate WrongAt(s: State, stream: string, n: nat) {
    var all, done := StreamEvents(s.log, stream), Accepted(s, stream);
    n < |done| && done[n].eventId <= |s.log| && (n < |all| ==> all[n] != done[n])
  }

  lemma WrongStays(s: State, op: Op, stream: string, n: nat)
    requires Numbered(s.log) && WrongAt(s, stream, n) && |s.log| + 1 < U64_LIMIT
    ensures Numbered(Step(s, op).log) && WrongAt(Step(s, op), stream, n)
  {
    if op.Append? {
      AppendKeepsOrder(s, op.m, stream);
    }
  }

  ghost predicate Logged(s: State, events: Events) {
    forall e :: e in events ==> e in s.log
  }

  lemma FirstDifference(all: Events, done: Events) returns (n: nat)
    requires !(done <= all)
    ensures n < |done| && (n < |all| ==> all[n] != done[n])
  {
    if |done| > |all| {
      n := |all|;
    } else {
      n :| 0 <= n < |done| && all[n] != done[n];
    }
  }

  lemma {:induction false} SelectedIsLogged(log: Events, stream: string, from: nat)
    ensures forall e :: e in Select(log, stream, from) ==> e in log
  {
    if log != [] {
      SelectedIsLogged(log[..|log| - 1], stream, from);
    }
  }

  // Acknowledging logged events out of time puts a wrong event among the accepted ones.
  lemma LateIsWrong(s: State, op: Op, stream: string) returns (n: nat)
    requires Numbered(s.log) && InOrder(s, stream) && |s.log| + 1 < U64_LIMIT
    requires op.Acknowledge? && Logged(s, op.delivered) && !InTime(s, op, stream)
    ensures WrongAt(Step(s, op), stream, n)
  {
    var all, done := StreamEvents(s.log, stream), Accepted(s, stream);
    StepKeepsOrder(s, op, stream);
    assert op.delivered != [];
    AcknowledgeKeepsOrder(s, op, stream);
    BatchIsNext(s, stream, |op.delivered|);
    NextIsPrefix(all, done, op.delivered);
    n := FirstDifference(all, done + op.delivered);
    SelectedIsLogged(s.log, stream, 0);
    var e := (done + op.delivered)[n];
    assert e in done || e in op.delivered;
    assert e in done ==> e in all;
    assert e in s.log;
  }

  // ------------------------------------------------------------------------
  // Runs
  // ------------------------------------------------------------------------

  ghost predicate HasRoom(s: State) {
    |s.log| + 1 < U64_LIMIT
  }

  // Every acknowledgement is of events that were in the log at that moment.
  ghost predicate OfLogged(ops: seq<Op>) {
    ops == [] ||
    var before, op := ops[..|ops| - 1], ops[|ops| - 1];
    OfLogged(before) && (op.Acknowledge? ==> Logged(Run(START, before), op.delivered))
  }

  // Every acknowledgement of the stream was in time.
  ghost predicate Timely(ops: seq<Op>, stream: string) {
    ops == [] ||
    var before, op := ops[..|ops| - 1], ops[|ops| - 1];
    var s := Run(START, before);
    Timely(before, stream) && (HasRoom(s) ==> InTime(s, op, stream))
  }

  lemma {:induction false} OrderOrWrong(ops: seq<Op>, stream: string)
    requires OfLogged(ops)
    ensures Numbered(Run(START, ops).log)
    ensures Timely(ops, stream) ==> InOrder(Run(START, ops), stream)
    ensures !Timely(ops, stream) ==> exists n: nat :: WrongAt(Run(START, ops), stream, n)
  {
    if ops != [] {
      var before, op := ops[..|ops| - 1], ops[|ops| - 1];
      var s := Run(START, before);
      OrderOrWrong(before, stream);
      if HasRoom(s) {
        if !Timely(before, stream) {
          var n: nat :| WrongAt(s, stream, n);
          WrongStays(s, op, stream, n);
        } else {
          StepKeepsOrder(s, op, stream);
          if !InTime(s, op, stream) {
            var n := LateIsWrong(s, op, stream);
          }
        }
      }
    }
  }

  // In-order, exactly-once delivery, for every run and stream: at the end of the run the stream is in
  // order if and only if each of its acknowledgements was of just the events that came next.
  lemma InOrderExactlyWhen(ops: seq<Op>, stream: string)
    requires OfLogged(ops)
    ensures InOrder(Run(START, ops), stream) <==> Timely(ops, stream)
  {
    OrderOrWrong(ops, stream);
  }

  // What a consumer that does so has accepted is a prefix of its stream, in ascending and hence
  // distinct event numbers, with the checkpoint on the last one.
  lemma {:induction false} DeliveredInOrder(ops: seq<Op>, stream: string)
    requires Timely(ops, stream)
    ensures Numbered(Run(START, ops).log) && InOrder(Run(START, ops), stream)
    ensures var done := Accepted(Run(START, ops), stream);
            forall i, j :: 0 <= i < j < |done| ==> done[i].eventId < done[j].eventId
  {
    if ops != [] {
      var before := ops[..|ops| - 1];
      DeliveredInOrder(before, stream);
      if HasRoom(Run(START, before)) {
        StepKeepsOrder(Run(START, before), ops[|ops| - 1], stream);
      }
    }
    StreamIdsAscend(Run(START, ops).log, stream);
  }

  // A replay asking for at least one event comes back empty exactly when nothing is outstanding.
  lemma EmptyReplayMeansCaughtUp(s: State, stream: string, maxItems: nat)
    requires Numbered(s.log) && InOrder(s, stream) && maxItems >= 1
    ensures Batch(s, stream, maxItems) == [] <==> Accepted(s, stream) == StreamEvents(s.log, stream)
  {
    BatchIsNext(s, stream, maxItems);
  }

  // ------------------------------------------------------------------------
  // An older batch
  // ------------------------------------------------------------------------

  // Two events of one stream, none acknowledged.
  function TwoEvents(m: EventBus.Message, n: EventBus.Message): State {
    State([Envelope(m, 1), Envelope(n, 2)], map[], map[])
  }

  lemma ReplaysOfTwo(m: EventBus.Message, n: EventBus.Message)
    requires m.streamName == n.streamName
    ensures var s, stream := TwoEvents(m, n), m.streamName;
            Batch(s, stream, 2) == [Envelope(m, 1), Envelope(n, 2)] && Batch(s, stream, 1) == [Envelope(m, 1)]
  {
    var d, e, stream := Envelope(m, 1), Envelope(n, 2), m.streamName;
    assert Select([], stream, 1) == [];
    assert [d][..0] == [] && [d, e][..1] == [d];
    assert Select([d], stream, 1) == [d] && Select([d, e], stream, 1) == [d, e];
  }

  // Replays of both events and of the first are acknowledged in that order. The source accepts the
  // older batch, takes its event twice and moves the checkpoint back from 2 to 1.
  lemma OlderBatchMovesBack(m: EventBus.Message, n: EventBus.Message)
    requires m.streamName == n.streamName
    ensures var s, stream := TwoEvents(m, n), m.streamName;
            var t := Step(s, Acknowledge(stream, Batch(s, stream, 2), true));
            var u := Step(t, Acknowledge(stream, Batch(s, stream, 1), true));
            Lookup(t.checkpoints, stream) == Some(2) && Lookup(u.checkpoints, stream) == Some(1) &&
            Accepted(u, stream) == [Envelope(m, 1), Envelope(n, 2), Envelope(m, 1)]
  {
    ReplaysOfTwo(m, n);
    var d, e := Envelope(m, 1), Envelope(n, 2);
    assert [] + [d, e] == [d, e] && [d, e] + [d] == [d, e, d];
  }

  lemma ReachTwoEvents(m: EventBus.Message, n: EventBus.Message)
    ensures Run(START, [Append(m), Append(n)]) == TwoEvents(m, n)
  {
    assert [Append(m), Append(n)][..1] == [Append(m)] && [Append(m)][..0] == [];
    assert Run(START, [Append(m)]) == START.(log := [Envelope(m, 1)]);
  }

  // ------------------------------------------------------------------------
  // Between acknowledgements
  // ------------------------------------------------------------------------

  ghost predicate WithoutAcknowledgement(ops: seq<Op>, stream: string) {
    forall i :: 0 <= i < |ops| ==> !(ops[i].Acknowledge? && ops[i].stream == stream && ops[i].saveOk)
  }

  lemma {:induction false} UnacknowledgedStays(s: State, ops: seq<Op>, stream: string)
    requires Numbered(s.log) && InOrder(s, stream) && WithoutAcknowledgement(ops, stream)
    ensures Numbered(Run(s, ops).log) && InOrder(Run(s, ops), stream)
    ensures Accepted(Run(s, ops), stream) == Accepted(s, stream)
    ensures StreamEvents(s.log, stream) <= StreamEvents(Run(s, ops).log, stream)
  {
    if ops != [] {
      var before, op := ops[..|ops| - 1], ops[|ops| - 1];
      UnacknowledgedStays(s, before, stream);
      var t := Run(s, before);
      if HasRoom(t) {
        StepKeepsOrder(t, op, stream);
        if op.Append? {
          AppendKeepsOrder(t, op.m, stream);
        }
      }
    }
  }

  lemma TakePrefix(xs: Events, ys: Events, skip: nat, n: nat)
    requires xs <= ys && skip <= |xs|
    ensures Take(xs[skip..], n) <= Take(ys[skip..], n)
  {
    assert xs[skip..] <= ys[skip..];
  }

  // Until the stream is acknowledged again, whatever else happens, a replay delivers everything
  // an earlier one delivered, first.
  lemma {:induction false} UnacknowledgedIsRedelivered(s: State, ops: seq<Op>, stream: string, maxItems: nat)
    requires Numbered(s.log) && InOrder(s, stream) && WithoutAcknowledgement(ops, stream)
    ensures Batch(s, stream, maxItems) <= Batch(Run(s, ops), stream, maxItems)
  {
    var t := Run(s, ops);
    UnacknowledgedStays(s, ops, stream);
    BatchIsNext(s, stream, maxItems);
    BatchIsNext(t, stream, maxItems);
    TakePrefix(StreamEvents(s.log, stream), StreamEvents(t.log, stream), |Accepted(s, stream)|, maxItems);
  }

  // And acknowledging the batch of that earlier replay is still in time.
  lemma {:induction false} ReplayStaysTimely(s: State, ops: seq<Op>, stream: string, maxItems: nat)
    requires Numbered(s.log) && InOrder(s, stream) && WithoutAcknowledgement(ops, stream)
    ensures InTime(Run(s, ops), Acknowledge(stream, Batch(s, stream, maxItems), true), stream)
  {
    var t, batch := Run(s, ops), Batch(s, stream, maxItems);
    UnacknowledgedStays(s, ops, stream);
    BatchIsNext(s, stream, maxItems);
    BatchIsNext(t, stream, |batch|);
    var all, all', k := StreamEvents(s.log, stream), StreamEvents(t.log, stream), |Accepted(s, stream)|;
    assert all[k..] <= all'[k..];
  }

  // ------------------------------------------------------------------------
  // The log object
  // ------------------------------------------------------------------------

  class InMemoryEventLog {
    var nextEventId: nat
    var events: Events

    ghost predicate Valid()
      reads this
    {
      Numbered(events) && nextEventId == |events| + 1
    }

    constructor ()
      ensures Valid() && events == []
    {
      nextEventId := 1;
      events := [];
    }

    method AppendEvent(m: EventBus.Message) returns (event: StreamEventEnvelope)
      requires Valid() && nextEventId + 1 < U64_LIMIT
      modifies this
      ensures Valid()
      ensures events == old(events) + [event]
      ensures event.eventId == |old(events)| + 1 && EventBus.SameContents(event, m) && event.attributes == m.attributes
    {
      event := Envelope(m, nextEventId);
      nextEventId := nextEventId + 1;
      events := events + [event];
    }
  }
}
