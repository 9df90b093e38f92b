/**
 Replay checkpoints, one per stream: the in-memory map and the store that keeps every save as a
 record of a write-ahead log and answers from the latest one.
 */
module CursorStore {
  import opened Wrappers
  import opened Collections
  import opened Text
  import opened Wal

  const KEY_PREFIX := "replay_cursor::"

  function CursorKey(stream: string): string {
    KEY_PREFIX + stream
  }

  // The latest record with the key.
  function FindLast(records: seq<WalRecord>, key: string): Option<WalRecord> {
    if records == [] then None
    else if records[|records| - 1].key == key then Some(records[|records| - 1])
    else FindLast(records[..|records| - 1], key)
  }

  lemma FindLastAt(records: seq<WalRecord>, i: nat, key: string)
    requires i < |records|
    ensures FindLast(records[..i + 1], key) ==
            if records[i].key == key then Some(records[i]) else FindLast(records[..i], key)
  {
    assert records[..i + 1][..i] == records[..i];
  }

  function Load(text: string, stream: string): Option<nat> {
    match ReadText(text)
    case Err(_) => None
    case Ok(records) =>
      match FindLast(records, CursorKey(stream))
      case None => None
      case Some(record) => ParseUnsigned(record.value, U64_LIMIT)
  }

  // One past the greatest sequence number, or 1.
  function NextSequence(records: seq<WalRecord>): nat {
    if records == [] then 1 else
    var rest := NextSequence(records[..|records| - 1]);
    var here := records[|records| - 1].sequence + 1;
    if rest < here || |records| == 1 then here else rest
  }

  lemma {:induction false} NextSequenceIs(records: seq<WalRecord>)
    ensures forall i :: 0 <= i < |records| ==> records[i].sequence < NextSequence(records)
    ensures if records == [] then NextSequence(records) == 1
            else exists i :: 0 <= i < |records| && NextSequence(records) == records[i].sequence + 1
  {
    if records != [] {
      var k := |records| - 1;
      NextSequenceIs(records[..k]);
      assert records[k].sequence < NextSequence(records);
    }
  }

  function OpenSequence(text: string): nat {
    match ReadText(text)
    case Err(_) => 1
    case Ok(records) => NextSequence(records)
  }

  // ------------------------------------------------------------------------
  // Runs
  // ------------------------------------------------------------------------

  datatype Store = Store(text: string, sequence: nat)

  datatype Op =
    | Save(stream: string, eventId: u64, now: u128, diskOk: bool)
    | Reopen

  function SavedRecord(sequence: u64, stream: string, eventId: u64, now: u128): WalRecord {
    WalRecord(sequence, now, CursorKey(stream), Decimal(eventId))
  }

  // A failed append still uses up a sequence number.
  function Step(s: Store, op: Op): Store
    requires s.sequence + 1 < U64_LIMIT
  {
    match op
    case Save(stream, eventId, now, diskOk) =>
      var record := SavedRecord(s.sequence, stream, eventId, now);
      Store(if diskOk then s.text + EncodeRecord(record) + "\n" else s.text, s.sequence + 1)
    case Reopen =>
      s.(sequence := OpenSequence(s.text))
  }

  function Run(ops: seq<Op>): Store {
    if ops == [] then Store("", 1) else
    var s := Run(ops[..|ops| - 1]);
    if s.sequence + 1 < U64_LIMIT then Step(s, ops[|ops| - 1]) else s
  }

  // The reference: a map that remembers the last successful save of each stream.
  function Saved(ops: seq<Op>): map<string, nat> {
    if ops == [] then map[] else
    var before, op := Saved(ops[..|ops| - 1]), ops[|ops| - 1];
    if op.Save? && op.diskOk then before[op.stream := op.eventId] else before
  }

  // The records on the log and the checkpoints they stand for.
  ghost predicate Represents(records: seq<WalRecord>, saved: map<string, nat>) {
    (forall i :: 0 <= i < |records| ==> AllDigits(records[i].value)) &&
    forall stream :: ParsedLast(records, stream) == Lookup(saved, stream)
  }

  ghost function ParsedLast(records: seq<WalRecord>, stream: string): Option<nat> {
    match FindLast(records, CursorKey(stream))
    case None => None
    case Some(record) => ParseUnsigned(record.value, U64_LIMIT)
  }

  ghost predicate StrictlyIncreasing(records: seq<WalRecord>, below: nat) {
    (forall i, j :: 0 <= i < j < |records| ==> records[i].sequence < records[j].sequence) &&
    (forall i :: 0 <= i < |records| ==> records[i].sequence < below)
  }

  lemma KeyInjective(s: string, t: string)
    ensures CursorKey(s) == CursorKey(t) <==> s == t
  {
    assert CursorKey(s)[|KEY_PREFIX|..] == s && CursorKey(t)[|KEY_PREFIX|..] == t;
  }

  lemma SaveRepresents(records: seq<WalRecord>, saved: map<string, nat>, r: WalRecord, stream: string, eventId: u64)
    requires Represents(records, saved)
    requires r.key == CursorKey(stream) && r.value == Decimal(eventId)
    ensures Represents(records + [r], saved[stream := eventId])
  {
    var after, saved' := records + [r], saved[stream := eventId];
    assert after[..|records|] == records;
    ParseDecimal(eventId, U64_LIMIT);
    forall other
      ensures ParsedLast(after, other) == Lookup(saved', other)
    {
      KeyInjective(stream, other);
      assert ParsedLast(records, other) == Lookup(saved, other);
    }
  }

  // Digits never end in a carriage return, so the log gives cursor records back unchanged.
  lemma CursorFileReadsBack(records: seq<WalRecord>)
    requires forall i :: 0 <= i < |records| ==> AllDigits(records[i].value)
    ensures ReadText(FileOf(records)) == Ok(records)
  {
    forall i | 0 <= i < |records|
      ensures !EndsInCr(records[i].value)
    {
      var v := records[i].value;
      assert v != "" ==> IsDigit(v[|v| - 1]);
    }
    ReadBackLossless(records);
  }

  lemma {:induction false} NextSequenceBounds(records: seq<WalRecord>, below: nat)
    requires StrictlyIncreasing(records, below) && below >= 1
    ensures StrictlyIncreasing(records, NextSequence(records))
    ensures NextSequence(records) <= below
  {
    if records != [] {
      var init := records[..|records| - 1];
      NextSequenceBounds(init, records[|records| - 1].sequence + 1);
    }
  }

  ghost predicate Inv(s: Store, records: seq<WalRecord>, saved: map<string, nat>, steps: nat) {
    s.text == FileOf(records) && Represents(records, saved) &&
    StrictlyIncreasing(records, s.sequence) && 1 <= s.sequence <= steps + 1
  }

  ghost function StepRecords(s: Store, records: seq<WalRecord>, op: Op): seq<WalRecord>
    requires s.sequence + 1 < U64_LIMIT
  {
    if op.Save? && op.diskOk then records + [SavedRecord(s.sequence, op.stream, op.eventId, op.now)]
    else records
  }

  lemma IncreasingAppend(records: seq<WalRecord>, r: WalRecord)
    requires StrictlyIncreasing(records, r.sequence)
    ensures StrictlyIncreasing(records + [r], r.sequence + 1)
  {
  }

  lemma SaveKeepsInv(s: Store, records: seq<WalRecord>, saved: map<string, nat>, steps: nat, op: Op)
    requires Inv(s, records, saved, steps) && s.sequence + 1 < U64_LIMIT && op.Save? && op.diskOk
    ensures Inv(Step(s, op), StepRecords(s, records, op), saved[op.stream := op.eventId], steps + 1)
  {
    var r := SavedRecord(s.sequence, op.stream, op.eventId, op.now);
    FileOfAppend(records, r);
    SaveRepresents(records, saved, r, op.stream, op.eventId);
    IncreasingAppend(records, r);
  }

  lemma ReopenKeepsInv(s: Store, records: seq<WalRecord>, saved: map<string, nat>, steps: nat)
    requires Inv(s, records, saved, steps) && s.sequence + 1 < U64_LIMIT
    ensures Inv(Step(s, Reopen), records, saved, steps + 1)
  {
    CursorFileReadsBack(records);
    NextSequenceBounds(records, s.sequence);
  }

  lemma StepKeepsInv(s: Store, records: seq<WalRecord>, saved: map<string, nat>, steps: nat, op: Op)
    requires Inv(s, records, saved, steps) && s.sequence + 1 < U64_LIMIT
    ensures var saved' := if op.Save? && op.diskOk then saved[op.stream := op.eventId] else saved;
            Inv(Step(s, op), StepRecords(s, records, op), saved', steps + 1)
  {
    match op
    case Save(_, _, _, diskOk) =>
      if diskOk {
        SaveKeepsInv(s, records, saved, steps, op);
      }
    case Reopen => ReopenKeepsInv(s, records, saved, steps);
  }

  // The records a run has put on the log.
  ghost function Records(ops: seq<Op>): seq<WalRecord> {
    if ops == [] then [] else
    var before := ops[..|ops| - 1];
    var s := Run(before);
    if s.sequence + 1 < U64_LIMIT then StepRecords(s, Records(before), ops[|ops| - 1]) else Records(before)
  }

  lemma {:induction false} RunKeepsInv(ops: seq<Op>)
    requires |ops| < U64_LIMIT - 2
    ensures Inv(Run(ops), Records(ops), Saved(ops), |ops|)
  {
    if ops != [] {
      var before := ops[..|ops| - 1];
      RunKeepsInv(before);
      StepKeepsInv(Run(before), Records(before), Saved(before), |before|, ops[|ops| - 1]);
    }
  }

  // After any run of saves, failed saves and reopenings, loading a stream gives its last
  // successful save, and the sequence numbers on the log only ever grow.
  lemma WalStoreRefinesMap(ops: seq<Op>, stream: string)
    requires |ops| < U64_LIMIT - 2
    ensures Load(Run(ops).text, stream) == Lookup(Saved(ops), stream)
    ensures ReadText(Run(ops).text) == Ok(Records(ops))
    ensures StrictlyIncreasing(Records(ops), Run(ops).sequence)
  {
    RunKeepsInv(ops);
    CursorFileReadsBack(Records(ops));
    assert ParsedLast(Records(ops), stream) == Lookup(Saved(ops), stream);
  }

  // ------------------------------------------------------------------------
  // The stores
  // ------------------------------------------------------------------------

  class InMemoryReplayCursorStore {
    var checkpoints: map<string, nat>

    constructor ()
      ensures checkpoints == map[]
    {
      checkpoints := map[];
    }

    method LoadCheckpoint(stream: string) returns (r: Option<nat>)
      ensures r.Some? <==> stream in checkpoints
      ensures r.Some? ==> r.value == checkpoints[stream]
    {
      if stream in checkpoints {
        return Some(checkpoints[stream]);
      }
      r := None;
    }

    method SaveCheckpoint(stream: string, eventId: u64)
      modifies this
      ensures checkpoints == old(checkpoints)[stream := eventId]
    {
      checkpoints := checkpoints[stream := eventId];
    }
  }

  class WalBackedReplayCursorStore {
    const adapter: FileWalAdapter
    var sequence: nat

    ghost function View(): Store
      reads this, adapter
    {
      Store(adapter.text, sequence)
    }

    constructor (adapter: FileWalAdapter)
      ensures this.adapter == adapter
      ensures View() == Store(adapter.text, OpenSequence(adapter.text))
    {
      var read := adapter.ReadAll();
      this.adapter := adapter;
      sequence := if read.Ok? then NextSequence(read.value) else 1;
    }

    // Searches the log backwards.
    method LoadCheckpoint(stream: string) returns (r: Option<nat>)
      ensures r == Load(adapter.text, stream)
    {
      var read := adapter.ReadAll();
      if read.Err? {
        return None;
      }
      var records, key := read.value, CursorKey(stream);
      var i := |records|;
      assert records[..i] == records;
      while i > 0
        invariant 0 <= i <= |records|
        invariant FindLast(records[..i], key) == FindLast(records, key)
      {
        i := i - 1;
        FindLastAt(records, i, key);
        if records[i].key == key {
          return ParseUnsigned(records[i].value, U64_LIMIT);
        }
      }
      r := None;
    }

    method SaveCheckpoint(stream: string, eventId: u64, now: u128, diskOk: bool) returns (ok: bool)
      requires sequence + 1 < U64_LIMIT
      modifies this, adapter
      ensures ok == diskOk
      ensures View() == Step(old(View()), Save(stream, eventId, now, diskOk))
      ensures var record := WalRecord(old(sequence), now, "replay_cursor::" + stream, Decimal(eventId));
              ok ==> adapter.text == old(adapter.text) + EncodeRecord(record) + "\n"
    {
      var record := SavedRecord(sequence, stream, eventId, now);
      sequence := sequence + 1;
      ok := adapter.Append(record, diskOk);
    }
  }
}
