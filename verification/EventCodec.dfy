/**
 The record codec of the event bus: an event becomes the escaped, tab-joined components of one
 write-ahead-log record, with its attributes sorted by key.
 */
module EventCodec {
  import opened Wrappers
  import opened Text
  import opened Escaping
  import opened Wal

  datatype StreamDirection = Inbound | Outbound | Internal

  datatype StreamEventEnvelope = StreamEventEnvelope(
    eventId: u64,
    streamName: string,
    direction: StreamDirection,
    origin: string,
    occurredEpochMs: u128,
    payloadJson: string,
    attributes: map<string, string>)

  datatype TransportEvent = TransportEvent(transportSequence: u64, event: StreamEventEnvelope)

  datatype DecodeError =
    | MissingFields
    | InvalidTransportSequence
    | InvalidEventId
    | UnsupportedDirection
    | InvalidTimestamp
    | InvalidAttributeCount
    | WrongFieldCount

  function DirectionText(d: StreamDirection): string {
    match d
    case Inbound => "inbound"
    case Outbound => "outbound"
    case Internal => "internal"
  }

  function ParseDirection(s: string): Option<StreamDirection> {
    var t := AsciiLower(Trim(s));
    if t == "inbound" then Some(Inbound)
    else if t == "outbound" then Some(Outbound)
    else if t == "internal" then Some(Internal)
    else None
  }

  lemma ParseDirectionText(d: StreamDirection)
    ensures ParseDirection(DirectionText(d)) == Some(d)
  {
    var s := DirectionText(d);
    assert TrimStart(s) == s && TrimEnd(s) == s;
    assert AsciiLower(s) == s;
  }

  // ------------------------------------------------------------------------
  // Components
  // ------------------------------------------------------------------------

  // key, value, key, value, ...
  function Flatten(keys: seq<string>, m: map<string, string>): (r: seq<string>)
    requires forall k :: k in keys ==> k in m
    ensures |r| == 2 * |keys|
  {
    if keys == [] then [] else [keys[0], m[keys[0]]] + Flatten(keys[1..], m)
  }

  // Inserting the pairs in order.
  function PairsToMap(flat: seq<string>): map<string, string> {
    if |flat| < 2 then map[] else map[flat[0] := flat[1]] + PairsToMap(flat[2..])
  }

  function Restrict(m: map<string, string>, ks: set<string>): map<string, string> {
    map k | k in m && k in ks :: m[k]
  }

  lemma RestrictAdd(m: map<string, string>, k: string, ks: set<string>)
    requires k in m
    ensures map[k := m[k]] + Restrict(m, ks) == Restrict(m, {k} + ks)
  {
  }

  lemma {:induction false} FlattenedPairs(keys: seq<string>, m: map<string, string>)
    requires forall k :: k in keys ==> k in m
    ensures PairsToMap(Flatten(keys, m)) == Restrict(m, Elements(keys))
  {
    if keys != [] {
      var flat := Flatten(keys, m);
      assert flat[2..] == Flatten(keys[1..], m);
      FlattenedPairs(keys[1..], m);
      assert keys == [keys[0]] + keys[1..];
      assert Elements(keys) == {keys[0]} + Elements(keys[1..]);
      RestrictAdd(m, keys[0], Elements(keys[1..]));
    }
  }

  function Header(e: TransportEvent): seq<string> {
    [ Decimal(e.transportSequence),
      Decimal(e.event.eventId),
      e.event.streamName,
      DirectionText(e.event.direction),
      e.event.origin,
      Decimal(e.event.occurredEpochMs),
      e.event.payloadJson,
      Decimal(|e.event.attributes|)]
  }

  ghost function AttributeFields(m: map<string, string>): (r: seq<string>)
    ensures |r| == 2 * |m|
  {
    SortedKeys(m);
    Flatten(Sorted(m.Keys), m)
  }

  lemma SortedKeys(m: map<string, string>)
    ensures forall k :: k in Sorted(m.Keys) <==> k in m
  {
    assert forall k :: k in Sorted(m.Keys) <==> k in Elements(Sorted(m.Keys));
  }

  ghost function Components(e: TransportEvent): seq<string> {
    Header(e) + AttributeFields(e.event.attributes)
  }

  function EscapeAll(parts: seq<string>): (r: seq<string>)
    ensures |r| == |parts|
  {
    if parts == [] then [] else [Escape(parts[0])] + EscapeAll(parts[1..])
  }

  function UnescapeAll(parts: seq<string>): (r: seq<string>)
    ensures |r| == |parts|
  {
    if parts == [] then [] else [Unescape(parts[0])] + UnescapeAll(parts[1..])
  }

  lemma {:induction false} UnescapeEscapeAll(parts: seq<string>)
    ensures UnescapeAll(EscapeAll(parts)) == parts
    ensures forall i :: 0 <= i < |parts| ==> '\t' !in EscapeAll(parts)[i]
  {
    if parts != [] {
      UnescapeEscape(parts[0]);
      EscapedHasNoSeparators(parts[0]);
      UnescapeEscapeAll(parts[1..]);
      assert EscapeAll(parts)[1..] == EscapeAll(parts[1..]);
    }
  }

  // The text of a record value for a list of components, and back.
  function Pack(parts: seq<string>): string {
    Join(EscapeAll(parts), '\t')
  }

  function Unpack(value: string): seq<string> {
    UnescapeAll(Split(value, '\t'))
  }

  lemma UnpackPack(parts: seq<string>)
    requires |parts| >= 1
    ensures Unpack(Pack(parts)) == parts
  {
    UnescapeEscapeAll(parts);
    SplitJoin(EscapeAll(parts), '\t');
  }

  // ------------------------------------------------------------------------
  // Records
  // ------------------------------------------------------------------------

  ghost function EncodeEvent(e: TransportEvent): WalRecord {
    WalRecord(e.transportSequence, e.event.occurredEpochMs,
              "eventbus::" + Decimal(e.transportSequence), Pack(Components(e)))
  }

  function DecodeEvent(record: WalRecord): Result<TransportEvent, DecodeError> {
    DecodeComponents(Unpack(record.value))
  }

  function DecodeComponents(parts: seq<string>): Result<TransportEvent, DecodeError> {
    if |parts| < 8 then Err(MissingFields) else
    var sequence := ParseUnsigned(parts[0], U64_LIMIT);
    if sequence.None? then Err(InvalidTransportSequence) else
    var eventId := ParseUnsigned(parts[1], U64_LIMIT);
    if eventId.None? then Err(InvalidEventId) else
    var direction := ParseDirection(parts[3]);
    if direction.None? then Err(UnsupportedDirection) else
    var timestamp := ParseUnsigned(parts[5], U128_LIMIT);
    if timestamp.None? then Err(InvalidTimestamp) else
    var count := ParseUnsigned(parts[7], U64_LIMIT);
    if count.None? then Err(InvalidAttributeCount) else
    if |parts| != 8 + 2 * count.value then Err(WrongFieldCount) else
    Ok(TransportEvent(sequence.value,
                      StreamEventEnvelope(eventId.value, parts[2], direction.value, parts[4],
                                          timestamp.value, parts[6], PairsToMap(parts[8..]))))
  }

  // A hash map never holds more entries than fit a `usize`.
  predicate Representable(e: TransportEvent) {
    |e.event.attributes| < U64_LIMIT
  }

  lemma DecodedHeader(e: TransportEvent, fields: seq<string>)
    requires Representable(e)
    requires |fields| == 2 * |e.event.attributes|
    ensures DecodeComponents(Header(e) + fields) ==
            Ok(e.(event := e.event.(attributes := PairsToMap(fields))))
  {
    var parts := Header(e) + fields;
    assert parts[0] == Decimal(e.transportSequence) && parts[1] == Decimal(e.event.eventId);
    assert parts[5] == Decimal(e.event.occurredEpochMs) && parts[7] == Decimal(|e.event.attributes|);
    ParseDecimal(e.transportSequence, U64_LIMIT);
    ParseDecimal(e.event.eventId, U64_LIMIT);
    ParseDecimal(e.event.occurredEpochMs, U128_LIMIT);
    ParseDecimal(|e.event.attributes|, U64_LIMIT);
    ParseDirectionText(e.event.direction);
    assert parts[8..] == fields;
  }

  // A record is refused unless it holds the eight header fields and two more for each attribute it
  // announces.
  lemma FieldCountMustFit(e: TransportEvent, count: nat, fields: seq<string>, short: seq<string>)
    requires |short| < 8
    ensures DecodeComponents(Header(e)[..7] + [Decimal(count)] + fields).Ok? <==>
            count < U64_LIMIT && |fields| == 2 * count
    ensures DecodeComponents(short) == Err(MissingFields)
  {
    ParseDecimal(e.transportSequence, U64_LIMIT);
    ParseDecimal(e.event.eventId, U64_LIMIT);
    ParseDecimal(e.event.occurredEpochMs, U128_LIMIT);
    ParseDecimal(count, U64_LIMIT);
    ParseDirectionText(e.event.direction);
    var parts := Header(e)[..7] + [Decimal(count)] + fields;
    assert parts[0] == Header(e)[0] && parts[1] == Header(e)[1] && parts[3] == Header(e)[3];
    assert parts[5] == Header(e)[5] && parts[7] == Decimal(count);
  }

  lemma DecodedAttributes(m: map<string, string>)
    ensures PairsToMap(AttributeFields(m)) == m
  {
    SortedKeys(m);
    FlattenedPairs(Sorted(m.Keys), m);
    assert Restrict(m, m.Keys) == m;
  }

  lemma DecodedComponents(e: TransportEvent)
    requires Representable(e)
    ensures DecodeComponents(Components(e)) == Ok(e)
  {
    DecodedAttributes(e.event.attributes);
    DecodedHeader(e, AttributeFields(e.event.attributes));
  }

  // Every event survives its record, whatever tabs, newlines and backslashes its strings contain.
  lemma DecodeEncodeEvent(e: TransportEvent)
    requires Representable(e)
    ensures DecodeEvent(EncodeEvent(e)) == Ok(e)
  {
    UnpackPack(Components(e));
    DecodedComponents(e);
  }

  // ------------------------------------------------------------------------
  // Events read back from the log file
  // ------------------------------------------------------------------------

  // The attribute written last: the value of the greatest key.
  ghost function LastKey(m: map<string, string>): (k: string)
    requires m != map[]
    ensures k in m
  {
    SortedKeys(m);
    var keys := Sorted(m.Keys);
    assert |keys| > 0 && keys[|keys| - 1] in keys;
    keys[|keys| - 1]
  }

  lemma LastKeyIsGreatest(m: map<string, string>, j: string)
    requires j in m
    ensures j == LastKey(m) || Less(j, LastKey(m))
  {
    SortedKeys(m);
    var keys := Sorted(m.Keys);
    var i :| 0 <= i < |keys| && keys[i] == j;
  }

  // The event as a restart sees it: a carriage return ending the last attribute is gone.
  ghost function Recovered(e: TransportEvent): (r: TransportEvent)
    ensures r.transportSequence == e.transportSequence && r.event.eventId == e.event.eventId
    ensures Representable(e) ==> Representable(r)
  {
    var m := e.event.attributes;
    if m == map[] then e else
    var k := LastKey(m);
    assert m[k := StripCr(m[k])].Keys == m.Keys;
    e.(event := e.event.(attributes := m[k := StripCr(m[k])]))
  }

  ghost predicate LosesCr(e: TransportEvent) {
    e.event.attributes != map[] && EndsInCr(e.event.attributes[LastKey(e.event.attributes)])
  }

  lemma RecoveredUnchanged(e: TransportEvent)
    ensures Recovered(e) == e <==> !LosesCr(e)
  {
    var m := e.event.attributes;
    if m != map[] {
      var k := LastKey(m);
      assert m[k := StripCr(m[k])] == m <==> StripCr(m[k]) == m[k];
    }
  }

  function ChompLast(parts: seq<string>): (r: seq<string>)
    requires |parts| >= 1
    ensures |r| == |parts|
  {
    parts[..|parts| - 1] + [StripCr(parts[|parts| - 1])]
  }

  lemma {:induction false} PackStripCr(parts: seq<string>)
    requires |parts| >= 1
    ensures StripCr(Pack(parts)) == Pack(ChompLast(parts))
  {
    if |parts| == 1 {
      EscapeStripCr(parts[0]);
    } else {
      var tail := parts[1..];
      PackStripCr(tail);
      PackHead(parts);
      PackHead(ChompLast(parts));
      assert ChompLast(parts)[1..] == ChompLast(tail);
      StripCrAfterTab(Escape(parts[0]), Pack(tail));
    }
  }

  lemma PackHead(parts: seq<string>)
    requires |parts| >= 2
    ensures Pack(parts) == Escape(parts[0]) + "\t" + Pack(parts[1..])
  {
    assert EscapeAll(parts)[1..] == EscapeAll(parts[1..]);
  }

  lemma {:induction false} FlattenLastChanged(keys: seq<string>, m: map<string, string>, v: string)
    requires |keys| >= 1 && Ascending(keys)
    requires forall k :: k in keys ==> k in m
    ensures var n := |keys|;
            Flatten(keys, m[keys[n - 1] := v]) == Flatten(keys, m)[..2 * n - 1] + [v]
  {
    var n := |keys|;
    var m' := m[keys[n - 1] := v];
    if n > 1 {
      assert Less(keys[0], keys[n - 1]);
      LessIrreflexive(keys[0]);
      FlattenLastChanged(keys[1..], m, v);
      assert keys[1..][n - 2] == keys[n - 1];
      assert Flatten(keys, m') == [keys[0], m[keys[0]]] + Flatten(keys[1..], m');
    }
  }

  lemma ChompedFlatten(keys: seq<string>, m: map<string, string>)
    requires |keys| >= 1 && Ascending(keys)
    requires forall k :: k in keys ==> k in m
    ensures var k := keys[|keys| - 1];
            Flatten(keys, m[k := StripCr(m[k])]) == ChompLast(Flatten(keys, m))
  {
    FlattenLastChanged(keys, m, StripCr(m[keys[|keys| - 1]]));
    LastFlattened(keys, m);
  }

  lemma ChompedFields(m: map<string, string>)
    requires m != map[]
    ensures var k := LastKey(m);
            AttributeFields(m[k := StripCr(m[k])]) == ChompLast(AttributeFields(m))
  {
    SortedKeys(m);
    ChompedFlatten(Sorted(m.Keys), m);
    assert m[LastKey(m) := StripCr(m[LastKey(m)])].Keys == m.Keys;
  }

  lemma ChompAfterHeader(h: seq<string>, fields: seq<string>)
    requires |fields| >= 1
    ensures ChompLast(h + fields) == h + ChompLast(fields)
  {
  }

  lemma RecoveredComponents(e: TransportEvent)
    ensures Components(Recovered(e)) == ChompLast(Components(e))
  {
    var m := e.event.attributes;
    if m == map[] {
      HeaderEndsInDigits(e);
      assert Components(e) == Header(e);
    } else {
      ChompedFields(m);
      ChompAfterHeader(Header(e), AttributeFields(m));
    }
  }

  lemma HeaderEndsInDigits(e: TransportEvent)
    ensures ChompLast(Header(e)) == Header(e)
  {
    assert IsDigit(Header(e)[7][|Header(e)[7]| - 1]);
  }

  lemma {:induction false} LastFlattened(keys: seq<string>, m: map<string, string>)
    requires |keys| >= 1
    requires forall k :: k in keys ==> k in m
    ensures Flatten(keys, m)[2 * |keys| - 1] == m[keys[|keys| - 1]]
  {
    if |keys| > 1 {
      LastFlattened(keys[1..], m);
    }
  }

  // Decoding what the log file gives back.
  lemma {:induction false} DecodeReadBack(e: TransportEvent)
    requires Representable(e)
    ensures DecodeEvent(AsReadBack(EncodeEvent(e))) == Ok(Recovered(e))
  {
    PackStripCr(Components(e));
    RecoveredComponents(e);
    DecodeEncodeEvent(Recovered(e));
  }

  // ------------------------------------------------------------------------
  // The loops
  // ------------------------------------------------------------------------

  method EncodeEventBusRecord(e: TransportEvent) returns (record: WalRecord)
    ensures record == EncodeEvent(e)
    ensures record.sequence == e.transportSequence && record.timestampEpochMs == e.event.occurredEpochMs
    ensures record.key == "eventbus::" + Decimal(e.transportSequence)
  {
    SortedKeys(e.event.attributes);
    var keys := CollectSorted(e.event.attributes.Keys);
    var fields := PushAttributes(keys, e.event.attributes);
    record := WalRecord(e.transportSequence, e.event.occurredEpochMs,
                        "eventbus::" + Decimal(e.transportSequence), Pack(Header(e) + fields));
  }

  // The attribute loop of `encode_event_bus_record`
  method PushAttributes(keys: seq<string>, m: map<string, string>) returns (fields: seq<string>)
    requires forall k :: k in keys ==> k in m
    ensures fields == Flatten(keys, m)
  {
    fields := [];
    var i := 0;
    while i < |keys|
      invariant i <= |keys|
      invariant fields == Flatten(keys[..i], m)
    {
      FlattenAppend(keys[..i], keys[i], m);
      assert keys[..i] + [keys[i]] == keys[..i + 1];
      fields := fields + [keys[i]];
      fields := fields + [m[keys[i]]];
      i := i + 1;
    }
    assert keys[..i] == keys;
  }

  lemma {:induction false} FlattenAppend(keys: seq<string>, k: string, m: map<string, string>)
    requires k in m && forall j :: j in keys ==> j in m
    ensures Flatten(keys + [k], m) == Flatten(keys, m) + [k, m[k]]
  {
    if keys == [] {
      assert keys + [k] == [k];
    } else {
      assert (keys + [k])[1..] == keys[1..] + [k];
      FlattenAppend(keys[1..], k, m);
    }
  }

  // The attribute loop of `decode_event_bus_record`
  method CollectAttributes(flat: seq<string>) returns (attributes: map<string, string>)
    requires |flat| % 2 == 0
    ensures attributes == PairsToMap(flat)
  {
    attributes := map[];
    var i := 0;
    assert flat[0..] == flat;
    while i < |flat|
      invariant i <= |flat| && i % 2 == 0
      invariant attributes + PairsToMap(flat[i..]) == PairsToMap(flat)
    {
      PairsAt(attributes, flat, i);
      attributes := attributes[flat[i] := flat[i + 1]];
      i := i + 2;
    }
  }

  lemma PairsAt(m: map<string, string>, flat: seq<string>, i: nat)
    requires i + 1 < |flat|
    ensures m + PairsToMap(flat[i..]) == m[flat[i] := flat[i + 1]] + PairsToMap(flat[i + 2..])
  {
    var here := flat[i..];
    assert here[0] == flat[i] && here[1] == flat[i + 1] && here[2..] == flat[i + 2..];
  }
}
