/**
 The file-backed write-ahead log: one escaped, tab-separated line per record.
 The file is its text; a failed append leaves it unchanged.
 */
module Wal {
  import opened Wrappers
  import opened Text
  import opened Escaping

  datatype WalRecord = WalRecord(sequence: u64, timestampEpochMs: u128, key: string, value: string)

  datatype WalError = CorruptRecord(line: string)

  function EncodedHead(r: WalRecord): string {
    Decimal(r.sequence) + "\t" + Decimal(r.timestampEpochMs) + "\t" + EscapeField(r.key)
  }

  function EncodeRecord(r: WalRecord): string {
    EncodedHead(r) + "\t" + EscapeField(r.value)
  }

  function DecodeRecord(line: string): Result<WalRecord, WalError> {
    var parts := SplitN(line, '\t', 4);
    if |parts| != 4 then Err(CorruptRecord(line))
    else
      var sequence := ParseUnsigned(parts[0], U64_LIMIT);
      var timestamp := ParseUnsigned(parts[1], U128_LIMIT);
      if sequence.None? || timestamp.None? then Err(CorruptRecord(line))
      else Ok(WalRecord(sequence.value, timestamp.value, Unescape(parts[2]), Unescape(parts[3])))
  }

  lemma FourFields(a: string, b: string, c: string, d: string)
    requires '\t' !in a && '\t' !in b && '\t' !in c
    ensures SplitN(a + "\t" + b + "\t" + c + "\t" + d, '\t', 4) == [a, b, c, d]
  {
    assert a + "\t" + b + "\t" + c + "\t" + d == a + ['\t'] + (b + ['\t'] + (c + ['\t'] + d));
    SplitNHead(a, '\t', b + ['\t'] + (c + ['\t'] + d), 4);
    SplitNHead(b, '\t', c + ['\t'] + d, 3);
    SplitNHead(c, '\t', d, 2);
    assert SplitN(d, '\t', 1) == [d];
  }

  // A record survives its own line.
  lemma DecodeEncode(r: WalRecord)
    ensures DecodeRecord(EncodeRecord(r)) == Ok(r)
  {
    EscapeFieldIsEscape(r.key);
    EscapeFieldIsEscape(r.value);
    EscapedHasNoSeparators(r.key);
    FourFields(Decimal(r.sequence), Decimal(r.timestampEpochMs), Escape(r.key), Escape(r.value));
    ParseDecimal(r.sequence, U64_LIMIT);
    ParseDecimal(r.timestampEpochMs, U128_LIMIT);
    UnescapeEscape(r.key);
    UnescapeEscape(r.value);
  }

  lemma EncodedHeadClean(r: WalRecord)
    ensures '\n' !in EncodedHead(r)
    ensures EncodedHead(r) != "" && IsDigit(EncodedHead(r)[0])
  {
    EscapeFieldIsEscape(r.key);
    EscapedHasNoSeparators(r.key);
    assert '\n' !in Decimal(r.sequence) && '\n' !in Decimal(r.timestampEpochMs);
    assert EncodedHead(r)[0] == Decimal(r.sequence)[0];
  }

  lemma EncodedLine(r: WalRecord)
    ensures '\n' !in EncodeRecord(r)
    ensures EncodeRecord(r) != "" && IsDigit(EncodeRecord(r)[0])
    ensures StripCr(EncodeRecord(r)) == EncodeRecord(AsReadBack(r))
  {
    EncodedHeadClean(r);
    EscapeFieldIsEscape(r.value);
    EscapeFieldIsEscape(StripCr(r.value));
    EscapedHasNoSeparators(r.value);
    EscapeStripCr(r.value);
    StripCrAfterTab(EncodedHead(r), Escape(r.value));
    assert EncodedHead(AsReadBack(r)) == EncodedHead(r);
  }

  // What a record looks like after a restart: the line reader eats a carriage return in front of
  // the newline, so a value ending in one comes back without it.
  function AsReadBack(r: WalRecord): WalRecord {
    r.(value := StripCr(r.value))
  }

  predicate EndsInCr(s: string) {
    s != "" && s[|s| - 1] == '\r'
  }

  function AllAsReadBack(records: seq<WalRecord>): (r: seq<WalRecord>)
    ensures |r| == |records|
    ensures forall i :: 0 <= i < |r| ==> r[i] == AsReadBack(records[i])
  {
    if records == [] then [] else [AsReadBack(records[0])] + AllAsReadBack(records[1..])
  }

  // The file after appending the records in order.
  function FileOf(records: seq<WalRecord>): string {
    if records == [] then "" else EncodeRecord(records[0]) + "\n" + FileOf(records[1..])
  }

  lemma {:induction false} FileOfAppend(records: seq<WalRecord>, r: WalRecord)
    ensures FileOf(records + [r]) == FileOf(records) + EncodeRecord(r) + "\n"
  {
    if records == [] {
      assert records + [r] == [r];
      assert FileOf([r]) == EncodeRecord(r) + "\n" + FileOf([]);
    } else {
      assert (records + [r])[1..] == records[1..] + [r];
      FileOfAppend(records[1..], r);
    }
  }

  // Decoding the lines in order; blank lines are skipped and the first bad line is the error.
  function DecodeLines(lines: seq<string>): Result<seq<WalRecord>, WalError> {
    if lines == [] then Ok([])
    else if Trim(lines[0]) == "" then DecodeLines(lines[1..])
    else
      match DecodeRecord(lines[0])
      case Err(e) => Err(e)
      case Ok(r) =>
        match DecodeLines(lines[1..])
        case Err(e) => Err(e)
        case Ok(rs) => Ok([r] + rs)
  }

  function ReadText(text: string): Result<seq<WalRecord>, WalError> {
    DecodeLines(Lines(text))
  }

  lemma NotBlank(s: string)
    requires s != "" && IsDigit(s[0])
    ensures Trim(s) != ""
  {
    assert TrimStart(s) == s;
    TrimEndKeepsFirst(s);
  }

  lemma {:induction false} TrimEndKeepsFirst(s: string)
    requires s != "" && !IsWhitespace(s[0])
    ensures TrimEnd(s) != ""
  {
    if IsWhitespace(s[|s| - 1]) {
      TrimEndKeepsFirst(s[..|s| - 1]);
    }
  }

  lemma ReadOne(r: WalRecord, rest: string)
    ensures ReadText(EncodeRecord(r) + "\n" + rest) == Prepend([AsReadBack(r)], ReadText(rest))
  {
    var lines := Lines(EncodeRecord(r) + "\n" + rest);
    EncodedLine(r);
    LinesHead(EncodeRecord(r), rest);
    assert lines[0] == EncodeRecord(AsReadBack(r)) && lines[1..] == Lines(rest);
    EncodedLine(AsReadBack(r));
    NotBlank(lines[0]);
    DecodeEncode(AsReadBack(r));
  }

  // Reading the file always succeeds and yields every record, in order, minus final carriage
  // returns.
  lemma {:induction false} ReadBack(records: seq<WalRecord>)
    ensures ReadText(FileOf(records)) == Ok(AllAsReadBack(records))
  {
    if records != [] {
      ReadOne(records[0], FileOf(records[1..]));
      ReadBack(records[1..]);
    }
  }

  // The log is lossless exactly for records whose value does not end in a carriage return.
  lemma ReadBackLossless(records: seq<WalRecord>)
    ensures ReadText(FileOf(records)) == Ok(records) <==>
            forall i :: 0 <= i < |records| ==> !EndsInCr(records[i].value)
  {
    ReadBack(records);
    var back := AllAsReadBack(records);
    if back == records {
      forall i | 0 <= i < |records|
        ensures !EndsInCr(records[i].value)
      {
        assert back[i] == AsReadBack(records[i]);
      }
    } else {
      assert exists i :: 0 <= i < |records| && back[i] != records[i];
    }
  }

  // A line of four fields is a record exactly when the first two are numbers in range, and a line of
  // fewer fields never is.
  lemma DecodesExactly(a: string, b: string, c: string, d: string)
    requires '\t' !in a && '\t' !in b && '\t' !in c
    ensures DecodeRecord(a + "\t" + b + "\t" + c + "\t" + d).Ok? <==>
            ParseUnsigned(a, U64_LIMIT).Some? && ParseUnsigned(b, U128_LIMIT).Some?
    ensures DecodeRecord(a).Err? && DecodeRecord(a + "\t" + b).Err? && DecodeRecord(a + "\t" + b + "\t" + c).Err?
  {
    FourFields(a, b, c, d);
    FewFields(a, b, c);
  }

  lemma FewFields(a: string, b: string, c: string)
    requires '\t' !in a && '\t' !in b && '\t' !in c
    ensures |SplitN(a, '\t', 4)| == 1
    ensures |SplitN(a + "\t" + b, '\t', 4)| == 2
    ensures |SplitN(a + "\t" + b + "\t" + c, '\t', 4)| == 3
  {
    SplitNHead(a, '\t', b, 4);
    assert a + "\t" + b == a + ['\t'] + b;
    assert a + "\t" + b + "\t" + c == a + ['\t'] + (b + ['\t'] + c);
    SplitNHead(a, '\t', b + ['\t'] + c, 4);
    SplitNHead(b, '\t', c, 3);
  }

  // The first line that is no record is the error, whatever comes after it.
  lemma {:induction false} BadLineStops(records: seq<WalRecord>, bad: string, rest: string)
    requires '\n' !in bad && !EndsInCr(bad) && Trim(bad) != "" && DecodeRecord(bad).Err?
    ensures ReadText(FileOf(records) + (bad + "\n" + rest)) == Err(CorruptRecord(bad))
  {
    if records == [] {
      assert FileOf(records) + (bad + "\n" + rest) == bad + "\n" + rest;
      LinesHead(bad, rest);
    } else {
      BadLineStops(records[1..], bad, rest);
      var line, more := EncodeRecord(records[0]) + "\n", FileOf(records[1..]);
      assert FileOf(records) + (bad + "\n" + rest) == line + (more + (bad + "\n" + rest));
      ReadOne(records[0], more + (bad + "\n" + rest));
    }
  }

  // A line of spaces and tabs is skipped.
  lemma BlankLineSkipped(blank: string, rest: string)
    requires forall i :: 0 <= i < |blank| ==> blank[i] == ' ' || blank[i] == '\t'
    ensures ReadText(blank + "\n" + rest) == ReadText(rest)
  {
    LinesHead(blank, rest);
    TrimBlank(blank);
  }

  lemma {:induction false} TrimBlank(s: string)
    requires forall i :: 0 <= i < |s| ==> s[i] == ' ' || s[i] == '\t'
    ensures Trim(s) == ""
  {
    if s != "" {
      TrimBlank(s[1..]);
    }
  }

  class FileWalAdapter {
    var text: string

    // A file that is on disk is opened as it is, and a missing one is created empty.
    constructor (onDisk: Option<string>)
      ensures onDisk.Some? ==> text == onDisk.value
      ensures onDisk.None? ==> text == ""
    {
      text := if onDisk.Some? then onDisk.value else "";
    }

    // `diskOk` is the outcome of the write; a failed write leaves the file as it was.
    method Append(record: WalRecord, diskOk: bool) returns (ok: bool)
      modifies this
      ensures ok == diskOk
      ensures text == if ok then old(text) + EncodeRecord(record) + "\n" else old(text)
    {
      if diskOk {
        text := text + EncodeRecord(record) + "\n";
      }
      return diskOk;
    }

    method ReadAll() returns (r: Result<seq<WalRecord>, WalError>)
      ensures r == ReadText(text)
    {
      var lines := Lines(text);
      var records := [];
      var i := 0;
      PrependNothing(DecodeLines(lines));
      assert lines[0..] == lines;
      while i < |lines|
        invariant i <= |lines|
        invariant ReadText(text) == Prepend(records, DecodeLines(lines[i..]))
      {
        DecodeStep(records, lines, i);
        if Trim(lines[i]) != "" {
          var d := DecodeRecord(lines[i]);
          if d.Err? {
            return Err(d.error);
          }
          records := records + [d.value];
        }
        i := i + 1;
      }
      PrependNothing(Ok(records));
      r := Ok(records);
    }
  }

  function Prepend(records: seq<WalRecord>, r: Result<seq<WalRecord>, WalError>): Result<seq<WalRecord>, WalError> {
    match r
    case Err(e) => Err(e)
    case Ok(rs) => Ok(records + rs)
  }

  lemma PrependNothing(r: Result<seq<WalRecord>, WalError>)
    ensures Prepend([], r) == r
    ensures r.Ok? ==> Prepend(r.value, Ok([])) == r
  {
    if r.Ok? {
      assert [] + r.value == r.value == r.value + [];
    }
  }

  lemma DecodeStep(records: seq<WalRecord>, lines: seq<string>, i: nat)
    requires i < |lines|
    ensures Prepend(records, DecodeLines(lines[i..])) ==
            if Trim(lines[i]) == "" then Prepend(records, DecodeLines(lines[i + 1..])) else
            match DecodeRecord(lines[i])
            case Err(e) => Err(e)
            case Ok(r) => Prepend(records + [r], DecodeLines(lines[i + 1..]))
  {
    var here, next := lines[i..], lines[i + 1..];
    assert here[0] == lines[i] && here[1..] == next;
    if DecodeLines(next).Ok? {
      var rs := DecodeLines(next).value;
      assert forall r :: records + ([r] + rs) == records + [r] + rs;
    }
  }
}
