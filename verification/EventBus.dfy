/**
 The file-backed event bus transport. Publishing appends a record to the write-ahead log before
 the in-memory state moves; opening the transport rebuilds that state from the log.
 */
module EventBus {
  import opened Wrappers
  import opened Text
  import opened Wal
  import opened EventCodec

  datatype Bus = Bus(nextTransportSequence: nat, nextEventId: nat, events: seq<TransportEvent>)

  datatype OpenError = ReadFailed(wal: WalError) | BadRecord(cause: DecodeError)

  const FRESH := Bus(1, 1, [])

  // What a caller publishes, with the clock reading at that moment.
  datatype Message = Message(
    streamName: string,
    direction: StreamDirection,
    origin: string,
    payloadJson: string,
    attributes: map<string, string>,
    now: u128)

  function Max(a: nat, b: nat): nat {
    if a < b then b else a
  }

  // ------------------------------------------------------------------------
  // Opening
  // ------------------------------------------------------------------------

  function Absorb(bus: Bus, e: TransportEvent): Bus {
    Bus(Max(bus.nextTransportSequence, e.transportSequence + 1),
        Max(bus.nextEventId, e.event.eventId + 1),
        bus.events + [e])
  }

  function Recover(records: seq<WalRecord>, bus: Bus): Result<Bus, OpenError> {
    if records == [] then Ok(bus)
    else
      match DecodeEvent(records[0])
      case Err(e) => Err(BadRecord(e))
      case Ok(e) => Recover(records[1..], Absorb(bus, e))
  }

  function Open(text: string): Result<Bus, OpenError> {
    match ReadText(text)
    case Err(e) => Err(ReadFailed(e))
    case Ok(records) => Recover(records, FRESH)
  }

  // ------------------------------------------------------------------------
  // Publishing
  // ------------------------------------------------------------------------

  function Stamp(m: Message, sequence: u64, eventId: u64): TransportEvent {
    TransportEvent(sequence,
                   StreamEventEnvelope(eventId, m.streamName, m.direction, m.origin, m.now,
                                       m.payloadJson, m.attributes))
  }

  // The event holds what was published, field by field, under this number.
  ghost predicate Carries(e: TransportEvent, m: Message, n: nat) {
    e.transportSequence == n && e.event.eventId == n && SameContents(e.event, m) &&
    e.event.attributes == m.attributes
  }

  ghost predicate SameContents(e: StreamEventEnvelope, m: Message) {
    e.streamName == m.streamName && e.direction == m.direction && e.origin == m.origin &&
    e.occurredEpochMs == m.now && e.payloadJson == m.payloadJson
  }

  // The same, but that the value of the greatest key may have lost a final carriage return.
  ghost predicate CarriesButCr(e: TransportEvent, m: Message, n: nat) {
    e.transportSequence == n && e.event.eventId == n && SameContents(e.event, m) &&
    e.event.attributes.Keys == m.attributes.Keys &&
    forall k :: k in m.attributes ==>
      e.event.attributes[k] == m.attributes[k] ||
      (m.attributes[k] == e.event.attributes[k] + "\r" && forall j :: j in m.attributes ==> j == k || Less(j, k))
  }

  // The counters can still be incremented.
  predicate HasRoom(bus: Bus) {
    bus.nextTransportSequence + 1 < U64_LIMIT && bus.nextEventId + 1 < U64_LIMIT
  }

  function NextEvent(bus: Bus, m: Message): TransportEvent
    requires HasRoom(bus)
  {
    Stamp(m, bus.nextTransportSequence, bus.nextEventId)
  }

  // ------------------------------------------------------------------------
  // Runs
  // ------------------------------------------------------------------------

  // The file on disk and the transport that has it open.
  datatype System = System(text: string, bus: Bus)

  datatype Op =
    | Publish(m: Message, diskOk: bool)
    | Reopen

  ghost function Step(s: System, op: Op): Result<System, OpenError>
    requires HasRoom(s.bus)
  {
    match op
    case Publish(m, diskOk) =>
      if !diskOk then Ok(s) else
      var e := NextEvent(s.bus, m);
      Ok(System(s.text + EncodeRecord(EncodeEvent(e)) + "\n",
                Bus(s.bus.nextTransportSequence + 1, s.bus.nextEventId + 1, s.bus.events + [e])))
    case Reopen =>
      match Open(s.text)
      case Err(e) => Err(e)
      case Ok(bus) => Ok(System(s.text, bus))
  }

  // The history a client would write down: the n-th publish that succeeded carries number n.
  function Published(ops: seq<Op>): (r: seq<TransportEvent>)
    requires |ops| < U64_LIMIT - 2
    ensures |r| <= |ops|
    ensures forall i :: 0 <= i < |r| ==> r[i].transportSequence == r[i].event.eventId == i + 1
  {
    if ops == [] then [] else
    var before := Published(ops[..|ops| - 1]);
    var op := ops[|ops| - 1];
    if op.Publish? && op.diskOk then before + [Stamp(op.m, |before| + 1, |before| + 1)] else before
  }

  // How many events the log held when the transport was last opened.
  function PublishedAtOpen(ops: seq<Op>): (n: nat)
    requires |ops| < U64_LIMIT - 2
    ensures n <= |Published(ops)|
  {
    if ops == [] then 0
    else if ops[|ops| - 1].Reopen? then |Published(ops)|
    else PublishedAtOpen(ops[..|ops| - 1])
  }

  ghost predicate WellFormed(ops: seq<Op>) {
    |ops| < U64_LIMIT - 2 &&
    forall i :: 0 <= i < |ops| && ops[i].Publish? ==> |ops[i].m.attributes| < U64_LIMIT
  }

  ghost function EncodeAll(events: seq<TransportEvent>): (r: seq<WalRecord>)
    ensures |r| == |events|
  {
    if events == [] then [] else
    EncodeAll(events[..|events| - 1]) + [EncodeEvent(events[|events| - 1])]
  }

  ghost function RecoveredAll(events: seq<TransportEvent>): (r: seq<TransportEvent>)
    ensures |r| == |events|
    ensures forall i :: 0 <= i < |r| ==> r[i] == Recovered(events[i])
  {
    seq(|events|, i requires 0 <= i < |events| => Recovered(events[i]))
  }

  // Event i of a history carries the numbers i + 1.
  ghost predicate Numbered(events: seq<TransportEvent>) {
    forall i :: 0 <= i < |events| ==>
      Representable(events[i]) && events[i].transportSequence == events[i].event.eventId == i + 1
  }

  // The bus rebuilt from the log of a history.
  ghost function Rebuilt(p: seq<TransportEvent>): Bus {
    Bus(|p| + 1, |p| + 1, RecoveredAll(p))
  }

  // The system with history p whose transport was opened when the log held n events: those as
  // the log gives them back, then the ones published since.
  ghost function SystemOf(p: seq<TransportEvent>, n: nat): System
    requires n <= |p|
  {
    System(FileOf(EncodeAll(p)), Bus(|p| + 1, |p| + 1, Live(p, n)))
  }

  // Running the operations on a transport opened on an empty file.
  ghost function Run(ops: seq<Op>): Result<System, OpenError> {
    if ops == [] then Ok(System("", FRESH)) else
    match Run(ops[..|ops| - 1])
    case Err(e) => Err(e)
    case Ok(s) => if HasRoom(s.bus) then Step(s, ops[|ops| - 1]) else Ok(s)
  }

  lemma {:induction false} EncodeAllAt(events: seq<TransportEvent>)
    ensures forall i :: 0 <= i < |events| ==> EncodeAll(events)[i] == EncodeEvent(events[i])
  {
    if events != [] {
      EncodeAllAt(events[..|events| - 1]);
    }
  }

  // Record i decodes to event i.
  ghost predicate Decodes(records: seq<WalRecord>, events: seq<TransportEvent>) {
    |events| == |records| && forall i :: 0 <= i < |records| ==> DecodeEvent(records[i]) == Ok(events[i])
  }

  // A counter that starts at `start` and is raised past each of the numbers, and no further.
  ghost predicate JustPast(next: nat, start: nat, numbers: seq<nat>) {
    start <= next && (forall i :: 0 <= i < |numbers| ==> numbers[i] < next) &&
    (next == start || next - 1 in numbers)
  }

  ghost function Sequences(events: seq<TransportEvent>): seq<nat> {
    seq(|events|, i requires 0 <= i < |events| => events[i].transportSequence)
  }

  ghost function EventIds(events: seq<TransportEvent>): seq<nat> {
    seq(|events|, i requires 0 <= i < |events| => events[i].event.eventId)
  }

  // What absorbing these events makes of a transport.
  ghost predicate Follows(events: seq<TransportEvent>, before: Bus, after: Bus) {
    after.events == before.events + events &&
    JustPast(after.nextTransportSequence, before.nextTransportSequence, Sequences(events)) &&
    JustPast(after.nextEventId, before.nextEventId, EventIds(events))
  }

  lemma JustPastOn(next: nat, start: nat, first: nat, numbers: seq<nat>)
    requires JustPast(next, Max(start, first + 1), numbers)
    ensures JustPast(next, start, [first] + numbers)
  {
    assert first == ([first] + numbers)[0];
  }

  lemma DecodesOn(records: seq<WalRecord>, e: TransportEvent, rest: seq<TransportEvent>)
    requires records != [] && DecodeEvent(records[0]) == Ok(e) && Decodes(records[1..], rest)
    ensures Decodes(records, [e] + rest)
  {
    forall i | 0 <= i < |records|
      ensures DecodeEvent(records[i]) == Ok(([e] + rest)[i])
    {
      assert i > 0 ==> records[1..][i - 1] == records[i];
    }
  }

  lemma NumbersOn(e: TransportEvent, rest: seq<TransportEvent>)
    ensures Sequences([e] + rest) == [e.transportSequence] + Sequences(rest)
    ensures EventIds([e] + rest) == [e.event.eventId] + EventIds(rest)
  {
  }

  lemma FollowsOn(e: TransportEvent, rest: seq<TransportEvent>, before: Bus, after: Bus)
    requires Follows(rest, Absorb(before, e), after)
    ensures Follows([e] + rest, before, after)
  {
    NumbersOn(e, rest);
    JustPastOn(after.nextTransportSequence, before.nextTransportSequence, e.transportSequence, Sequences(rest));
    JustPastOn(after.nextEventId, before.nextEventId, e.event.eventId, EventIds(rest));
    assert before.events + ([e] + rest) == Absorb(before, e).events + rest;
  }

  // Recovery of any log succeeds if and only if every record decodes, and then holds just those events.
  lemma {:induction false} RecoverFollows(records: seq<WalRecord>, before: Bus) returns (events: seq<TransportEvent>)
    ensures Recover(records, before).Ok? <==> forall i :: 0 <= i < |records| ==> DecodeEvent(records[i]).Ok?
    ensures Recover(records, before).Ok? ==> Decodes(records, events)
    ensures Recover(records, before).Ok? ==> Follows(events, before, Recover(records, before).value)
  {
    events := [];
    if records == [] {
      assert before.events + events == before.events;
    } else if DecodeEvent(records[0]).Ok? {
      var e := DecodeEvent(records[0]).value;
      var rest := RecoverFollows(records[1..], Absorb(before, e));
      events := [e] + rest;
      assert forall i :: 0 < i < |records| ==> records[i] == records[1..][i - 1];
      if Recover(records, before).Ok? {
        DecodesOn(records, e, rest);
        FollowsOn(e, rest, before, Recover(records, before).value);
      }
    }
  }

  lemma AbsorbNext(p: seq<TransportEvent>, k: nat)
    requires k < |p| && Numbered(p)
    ensures Absorb(Rebuilt(p[..k]), Recovered(p[k])) == Rebuilt(p[..k + 1])
  {
    assert RecoveredAll(p[..k + 1]) == RecoveredAll(p[..k]) + [Recovered(p[k])];
  }

  // Recovery keeps every event, in order, and lands on the successor of the last number.
  lemma {:induction false} RecoverAll(p: seq<TransportEvent>, records: seq<WalRecord>, k: nat)
    requires Numbered(p) && k <= |p| == |records|
    requires forall i :: 0 <= i < |p| ==> records[i] == AsReadBack(EncodeEvent(p[i]))
    ensures Recover(records[k..], Rebuilt(p[..k])) == Ok(Rebuilt(p))
    decreases |p| - k
  {
    if k == |p| {
      assert p[..k] == p;
    } else {
      DecodeReadBack(p[k]);
      AbsorbNext(p, k);
      RecoverAll(p, records, k + 1);
      var rest := records[k..];
      assert rest[0] == AsReadBack(EncodeEvent(p[k])) && rest[1..] == records[k + 1..];
    }
  }

  // Opening the log of a history always succeeds.
  lemma OpenHistory(p: seq<TransportEvent>)
    requires Numbered(p)
    ensures Open(FileOf(EncodeAll(p))) == Ok(Rebuilt(p))
  {
    EncodeAllAt(p);
    ReadBack(EncodeAll(p));
    var records := AllAsReadBack(EncodeAll(p));
    assert records[0..] == records && p[..0] == [] && Rebuilt([]) == FRESH;
    RecoverAll(p, records, 0);
  }

  lemma EncodeAllAppend(p: seq<TransportEvent>, e: TransportEvent)
    ensures FileOf(EncodeAll(p + [e])) == FileOf(EncodeAll(p)) + EncodeRecord(EncodeEvent(e)) + "\n"
  {
    assert (p + [e])[..|p|] == p;
    FileOfAppend(EncodeAll(p), EncodeEvent(e));
  }

  // The live events: recovered up to n, as published after that.
  ghost function Live(p: seq<TransportEvent>, n: nat): seq<TransportEvent>
    requires n <= |p|
  {
    RecoveredAll(p[..n]) + p[n..]
  }

  lemma LiveExtends(p: seq<TransportEvent>, n: nat, e: TransportEvent)
    requires n <= |p|
    ensures Live(p + [e], n) == Live(p, n) + [e]
  {
    assert (p + [e])[..n] == p[..n] && (p + [e])[n..] == p[n..] + [e];
  }

  lemma LiveIsRebuilt(p: seq<TransportEvent>, n: nat)
    requires n <= |p|
    ensures RecoveredAll(p) == Live(p, n) <==> forall i :: n <= i < |p| ==> !LosesCr(p[i])
  {
    var live, back := Live(p, n), RecoveredAll(p);
    forall i | 0 <= i < |p|
      ensures back[i] == live[i] <==> i < n || !LosesCr(p[i])
    {
      RecoveredUnchanged(p[i]);
    }
    assert back == live <==> forall i :: 0 <= i < |p| ==> back[i] == live[i];
  }

  lemma PublishExtends(p: seq<TransportEvent>, n: nat, m: Message)
    requires n <= |p| < U64_LIMIT - 2
    ensures Step(SystemOf(p, n), Publish(m, true)) == Ok(SystemOf(p + [Stamp(m, |p| + 1, |p| + 1)], n))
  {
    var e := Stamp(m, |p| + 1, |p| + 1);
    EncodeAllAppend(p, e);
    LiveExtends(p, n, e);
  }

  lemma ReopenRebuilds(p: seq<TransportEvent>, n: nat)
    requires n <= |p| < U64_LIMIT - 2 && Numbered(p)
    ensures Step(SystemOf(p, n), Reopen) == Ok(SystemOf(p, |p|))
  {
    OpenHistory(p);
    assert p[..|p|] == p && p[|p|..] == [] && Live(p, |p|) == RecoveredAll(p);
  }

  lemma {:induction false} PublishedNumbered(ops: seq<Op>)
    requires WellFormed(ops)
    ensures Numbered(Published(ops))
  {
    if ops != [] {
      PublishedNumbered(ops[..|ops| - 1]);
    }
  }

  // After any run of successful publishes, failed publishes and restarts, the file and the live
  // transport are what the history predicts; no restart fails and no number is used twice.
  lemma {:induction false} RunMatchesHistory(ops: seq<Op>)
    requires WellFormed(ops)
    ensures Run(ops) == Ok(SystemOf(Published(ops), PublishedAtOpen(ops)))
    ensures Numbered(Published(ops))
  {
    PublishedNumbered(ops);
    if ops == [] {
      assert RecoveredAll([]) + [] == [];
    } else {
      var before, op := ops[..|ops| - 1], ops[|ops| - 1];
      RunMatchesHistory(before);
      var p, n := Published(before), PublishedAtOpen(before);
      if op.Reopen? {
        ReopenRebuilds(p, n);
      } else if op.diskOk {
        PublishExtends(p, n, op.m);
      }
    }
  }

  // Crash recovery. Restarting after any run succeeds, lands on the running transport's counters
  // (each one past the number of publishes that ever succeeded), and gives exactly its events if
  // and only if no event published since the last opening ends its last attribute in a carriage
  // return.
  lemma {:induction false} CrashRecovery(ops: seq<Op>)
    requires WellFormed(ops)
    ensures Run(ops).Ok?
    ensures var s, p, n := Run(ops).value, Published(ops), PublishedAtOpen(ops);
            Open(s.text) == Ok(Rebuilt(p)) &&
            s.bus.nextTransportSequence == s.bus.nextEventId == |p| + 1 &&
            (Rebuilt(p) == s.bus <==> forall i :: n <= i < |p| ==> !LosesCr(p[i]))
  {
    RunMatchesHistory(ops);
    OpenHistory(Published(ops));
    LiveIsRebuilt(Published(ops), PublishedAtOpen(ops));
  }

  // The messages whose publish succeeded, in order.
  function Messages(ops: seq<Op>): seq<Message> {
    if ops == [] then []
    else
      var before, op := Messages(ops[..|ops| - 1]), ops[|ops| - 1];
      if op.Publish? && op.diskOk then before + [op.m] else before
  }

  lemma {:induction false} HistoryCarries(ops: seq<Op>)
    requires |ops| < U64_LIMIT - 2
    ensures |Published(ops)| == |Messages(ops)|
    ensures forall i :: 0 <= i < |Messages(ops)| ==> Carries(Published(ops)[i], Messages(ops)[i], i + 1)
  {
    if ops != [] {
      HistoryCarries(ops[..|ops| - 1]);
    }
  }

  lemma RecoveredCarries(e: TransportEvent, m: Message, n: nat)
    requires Carries(e, m, n)
    ensures CarriesButCr(Recovered(e), m, n)
  {
    var r := Recovered(e);
    if m.attributes != map[] {
      var k := LastKey(m.attributes);
      assert r.event.attributes == m.attributes[k := StripCr(m.attributes[k])];
      forall j | j in m.attributes
        ensures j == k || Less(j, k)
      {
        LastKeyIsGreatest(m.attributes, j);
      }
    }
  }

  lemma EventCarries(p: seq<TransportEvent>, n: nat, i: nat, m: Message)
    requires n <= |p| && i < |p| && Carries(p[i], m, i + 1)
    ensures CarriesButCr(Rebuilt(p).events[i], m, i + 1)
    ensures |Live(p, n)| == |p| && CarriesButCr(Live(p, n)[i], m, i + 1)
    ensures i >= n ==> Carries(Live(p, n)[i], m, i + 1)
  {
    RecoveredCarries(p[i], m, i + 1);
    assert Live(p, n)[i] == if i < n then Recovered(p[i]) else p[i];
  }

  // After every run, the i-th event of the transport a restart gives, and of the running one, holds
  // the fields of the i-th message published, under number i, up to that carriage return.
  lemma EventsCarryMessages(ops: seq<Op>, i: nat)
    requires WellFormed(ops) && i < |Messages(ops)|
    ensures Run(ops).Ok? && Open(Run(ops).value.text).Ok?
    ensures var live, restarted := Run(ops).value.bus.events, Open(Run(ops).value.text).value.events;
            |live| == |restarted| == |Messages(ops)| &&
            CarriesButCr(live[i], Messages(ops)[i], i + 1) && CarriesButCr(restarted[i], Messages(ops)[i], i + 1) &&
            (i >= PublishedAtOpen(ops) ==> Carries(live[i], Messages(ops)[i], i + 1))
  {
    HistoryCarries(ops);
    RunMatchesHistory(ops);
    OpenHistory(Published(ops));
    EventCarries(Published(ops), PublishedAtOpen(ops), i, Messages(ops)[i]);
  }

  lemma OnePublished(m: Message)
    ensures Published([Publish(m, true)]) == [Stamp(m, 1, 1)] && PublishedAtOpen([Publish(m, true)]) == 0
  {
    var ops := [Publish(m, true)];
    assert ops[..0] == [] && Published([]) == [];
  }

  lemma LosesOneCr(e: TransportEvent)
    requires e.event.attributes == map["k" := "v\r"]
    ensures LosesCr(e) && Recovered(e).event.attributes == map["k" := "v"]
  {
    var m := e.event.attributes;
    assert "k" in m && LastKey(m) == "k";
    StripCrDropsOne("v");
    assert "v" + "\r" == "v\r" && m["k"] == "v\r";
    assert m["k" := "v"] == map["k" := "v"];
  }

  // A history for which a restart does change an event: one attribute ending in "\r".
  lemma RestartLosesCarriageReturn(m: Message)
    requires m.attributes == map["k" := "v\r"]
    ensures var run := Run([Publish(m, true)]);
            run.Ok? && Open(run.value.text).Ok? && Open(run.value.text).value != run.value.bus &&
            |Open(run.value.text).value.events| == 1 &&
            Open(run.value.text).value.events[0].event.attributes == map["k" := "v"]
  {
    var ops, e := [Publish(m, true)], Stamp(m, 1, 1);
    OnePublished(m);
    LosesOneCr(e);
    assert WellFormed(ops);
    CrashRecovery(ops);
    assert LosesCr(Published(ops)[0]);
    assert Rebuilt([e]).events == [Recovered(e)];
  }

  // ------------------------------------------------------------------------
  // The transport object
  // ------------------------------------------------------------------------

  class FileBackedEventBusTransport {
    const adapter: FileWalAdapter
    var nextTransportSequence: nat
    var nextEventId: nat
    var events: seq<TransportEvent>

    ghost function View(): System
      reads this, adapter
    {
      System(adapter.text, Bus(nextTransportSequence, nextEventId, events))
    }

    constructor (adapter: FileWalAdapter, bus: Bus)
      ensures this.adapter == adapter
      ensures View() == System(adapter.text, bus)
    {
      this.adapter := adapter;
      nextTransportSequence := bus.nextTransportSequence;
      nextEventId := bus.nextEventId;
      events := bus.events;
    }

    // Replays the log into a new transport.
    static method OpenTransport(adapter: FileWalAdapter)
      returns (r: Result<FileBackedEventBusTransport, OpenError>)
      ensures r.Ok? <==> Open(adapter.text).Ok?
      ensures r.Ok? ==> fresh(r.value) && r.value.adapter == adapter &&
                        r.value.View() == System(adapter.text, Open(adapter.text).value)
      ensures r.Err? ==> r.error == Open(adapter.text).error
    {
      var read := adapter.ReadAll();
      if read.Err? {
        return Err(ReadFailed(read.error));
      }
      var records := read.value;
      var bus := FRESH;
      var i := 0;
      assert records[0..] == records;
      while i < |records|
        invariant i <= |records|
        invariant Recover(records[i..], bus) == Recover(records, FRESH)
      {
        assert records[i..][0] == records[i] && records[i..][1..] == records[i + 1..];
        var decoded := DecodeEvent(records[i]);
        if decoded.Err? {
          return Err(BadRecord(decoded.error));
        }
        bus := Absorb(bus, decoded.value);
        i := i + 1;
      }
      var transport := new FileBackedEventBusTransport(adapter, bus);
      r := Ok(transport);
    }

    // `diskOk` is the outcome of the append.
    method PublishMessage(m: Message, diskOk: bool) returns (r: Option<TransportEvent>)
      requires HasRoom(View().bus)
      modifies this, adapter
      ensures Step(old(View()), Publish(m, diskOk)) == Ok(View())
      ensures r.Some? <==> diskOk
      ensures r.Some? ==> View().bus.events == old(View()).bus.events + [r.value]
      ensures r.Some? ==> SameContents(r.value.event, m) && r.value.event.attributes == m.attributes &&
                          r.value.transportSequence == old(nextTransportSequence) &&
                          r.value.event.eventId == old(nextEventId)
    {
      var event := Stamp(m, nextTransportSequence, nextEventId);
      var record := EncodeEventBusRecord(event);
      var ok := adapter.Append(record, diskOk);
      if !ok {
        return None;
      }
      nextTransportSequence := nextTransportSequence + 1;
      nextEventId := nextEventId + 1;
      events := events + [event];
      r := Some(event);
    }
  }
}
