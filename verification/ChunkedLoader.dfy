/**
 Chunked and parallel ingest loading: the chunks, the windows they are dispatched in, and the merge
 of tasks that finish in any order.
 */
module ChunkedLoader {
  import opened Collections

  datatype IngestRecord = IngestRecord(key: string, payload: string)

  datatype Config = Config(maxInFlightTasks: nat, chunkTargetRows: nat)

  datatype ChunkOutcome = ChunkOutcome(chunkIndex: nat, recordsInChunk: nat)

  datatype Stats = Stats(totalRecords: nat, chunkCount: nat, chunkTargetRows: nat, maxInFlightTasks: nat,
                         tasksDispatched: nat, outcomes: seq<ChunkOutcome>)

  function AtLeastOne(n: nat): (r: nat)
    ensures r >= 1 && (n >= 1 ==> r == n) && (n == 0 ==> r == 1)
  {
    if n > 1 then n else 1
  }

  // ------------------------------------------------------------------------
  // Chunks
  // ------------------------------------------------------------------------

  // `chunks` on a slice: consecutive pieces of n elements, the last one possibly shorter.
  function Chunks<T>(s: seq<T>, n: nat): seq<seq<T>>
    requires n >= 1
    decreases |s|
  {
    if s == [] then [] else [s[..Min(n, |s|)]] + Chunks(s[Min(n, |s|)..], n)
  }

  ghost function Flatten<T>(parts: seq<seq<T>>): seq<T> {
    if parts == [] then [] else parts[0] + Flatten(parts[1..])
  }

  lemma {:induction false} ChunksFlatten<T>(s: seq<T>, n: nat)
    requires n >= 1
    ensures Flatten(Chunks(s, n)) == s
    decreases |s|
  {
    if s != [] {
      var k := Min(n, |s|);
      ChunksFlatten(s[k..], n);
      assert Chunks(s, n)[1..] == Chunks(s[k..], n);
      assert s[..k] + s[k..] == s;
    }
  }

  // The count is the ceiling quotient.
  lemma {:induction false} ChunkCount<T>(s: seq<T>, n: nat)
    requires n >= 1
    ensures |Chunks(s, n)| == (|s| + n - 1) / n
    ensures |s| <= |Chunks(s, n)| * n < |s| + n
    decreases |s|
  {
    if s != [] {
      var rest := Chunks(s[Min(n, |s|)..], n);
      ChunkCount(s[Min(n, |s|)..], n);
      assert (1 + |rest|) * n == n + |rest| * n;
    }
    CeilingIs(|s|, n, |Chunks(s, n)|);
  }

  lemma CeilingIs(a: nat, n: nat, q: nat)
    requires n >= 1 && a <= q * n < a + n
    ensures (a + n - 1) / n == q
  {
    var d := (a + n - 1) / n;
    assert a + n - 1 == n * d + (a + n - 1) % n;
    MultiplesApart(d, q, n);
    MultiplesApart(q, d, n);
  }

  lemma MultiplesApart(x: nat, y: nat, n: nat)
    ensures x < y ==> x * n + n <= y * n
  {
    assert x < y ==> (x + 1) * n <= y * n;
  }

  lemma SliceOfRest<T>(s: seq<T>, k: nat, at: nat, end: nat)
    requires k + at <= k + end <= |s|
    ensures s[k..][at..end] == s[k + at..k + end]
  {
  }

  // The stretch a chunk holds, in terms of where it starts.
  ghost predicate HoldsFrom<T>(s: seq<T>, n: nat, b: nat, at: nat)
    requires n >= 1
  {
    b < |Chunks(s, n)| && at <= |s| && Chunks(s, n)[b] == s[at..Min(at + n, |s|)]
  }

  lemma NextChunkHolds<T>(s: seq<T>, n: nat, b: nat, at: nat)
    requires 1 <= n <= |s| && HoldsFrom(s[n..], n, b, at)
    ensures HoldsFrom(s, n, b + 1, n + at)
  {
    assert Chunks(s, n) == [s[..n]] + Chunks(s[n..], n);
    SliceOfRest(s, n, at, Min(at + n, |s| - n));
  }

  // b times n, by addition.
  ghost function StartOf(n: nat, b: nat): nat {
    if b == 0 then 0 else n + StartOf(n, b - 1)
  }

  lemma {:induction false} StartIsProduct(n: nat, b: nat)
    ensures StartOf(n, b) == b * n
  {
    if b > 0 {
      StartIsProduct(n, b - 1);
      assert b * n == (b - 1) * n + n;
    }
  }

  lemma {:induction false} ChunkHolds<T>(s: seq<T>, n: nat, b: nat)
    requires n >= 1 && b < |Chunks(s, n)|
    ensures HoldsFrom(s, n, b, StartOf(n, b))
    decreases |s|
  {
    if b > 0 {
      assert n <= |s|;
      ChunkHolds(s[n..], n, b - 1);
      NextChunkHolds(s, n, b - 1, StartOf(n, b - 1));
    }
  }

  lemma ChunkIs<T>(s: seq<T>, n: nat, b: nat)
    requires n >= 1 && b < |Chunks(s, n)|
    ensures b * n <= |s| && Chunks(s, n)[b] == s[b * n..Min(b * n + n, |s|)]
  {
    ChunkHolds(s, n, b);
    StartIsProduct(n, b);
  }

  // ------------------------------------------------------------------------
  // The bounded window
  // ------------------------------------------------------------------------

  // Outcome i describes chunk i.
  ghost predicate Describes(outcomes: seq<ChunkOutcome>, chunks: seq<seq<IngestRecord>>) {
    |outcomes| <= |chunks| &&
    forall i :: 0 <= i < |outcomes| ==> outcomes[i] == ChunkOutcome(i, |chunks[i]|)
  }

  ghost function TotalRecords(outcomes: seq<ChunkOutcome>): nat {
    if outcomes == [] then 0
    else TotalRecords(outcomes[..|outcomes| - 1]) + outcomes[|outcomes| - 1].recordsInChunk
  }

  lemma {:induction false} DescribedTotal(outcomes: seq<ChunkOutcome>, records: seq<IngestRecord>, n: nat)
    requires n >= 1 && Describes(outcomes, Chunks(records, n))
    ensures |outcomes| > 0 ==> (|outcomes| - 1) * n <= |records|
    ensures TotalRecords(outcomes) == Min(|outcomes| * n, |records|)
  {
    if outcomes != [] {
      var b := |outcomes| - 1;
      DescribedTotal(outcomes[..b], records, n);
      ChunkIs(records, n, b);
      assert (b + 1) * n == b * n + n;
    }
  }

  // What both loaders report about a non-empty input.
  ghost predicate Reports(stats: Stats, records: seq<IngestRecord>, n: nat, tasks: nat)
    requires n >= 1
  {
    stats.totalRecords == |records| && stats.chunkTargetRows == n && stats.maxInFlightTasks == tasks &&
    stats.chunkCount == (|records| + n - 1) / n && stats.tasksDispatched == Min(stats.chunkCount, tasks) &&
    |stats.outcomes| == stats.chunkCount && Describes(stats.outcomes, Chunks(records, n)) &&
    TotalRecords(stats.outcomes) == |records|
  }

  lemma ReportsAll(stats: Stats, records: seq<IngestRecord>, n: nat, tasks: nat)
    requires n >= 1 && Describes(stats.outcomes, Chunks(records, n)) && |stats.outcomes| == |Chunks(records, n)|
    requires stats == Stats(|records|, |stats.outcomes|, n, tasks, Min(|stats.outcomes|, tasks), stats.outcomes)
    ensures Reports(stats, records, n, tasks)
  {
    ChunkCount(records, n);
    DescribedTotal(stats.outcomes, records, n);
  }

  method DispatchWindows(chunks: seq<seq<IngestRecord>>, window: nat) returns (outcomes: seq<ChunkOutcome>)
    requires window >= 1
    ensures Describes(outcomes, chunks) && |outcomes| == |chunks|
  {
    outcomes := [];
    var windows := Chunks(chunks, window);
    for b := 0 to |windows|
      invariant Describes(outcomes, chunks) && |outcomes| == Min(b * window, |chunks|)
    {
      ChunkIs(chunks, window, b);
      for slot := 0 to |windows[b]|
        invariant Describes(outcomes, chunks) && |outcomes| == b * window + slot
      {
        assert windows[b][slot] == chunks[b * window + slot];
        outcomes := outcomes + [ChunkOutcome(b * window + slot, |windows[b][slot]|)];
      }
      assert (b + 1) * window == b * window + window;
    }
    ChunkCount(chunks, window);
  }

  // An empty input reports no chunks whatever the chunk size; otherwise a chunk size of zero is the
  // caller's error.
  method LoadRecordsChunked(records: seq<IngestRecord>, config: Config) returns (stats: Stats)
    requires records != [] ==> config.chunkTargetRows >= 1
    ensures records == [] ==> stats == Stats(0, 0, config.chunkTargetRows, config.maxInFlightTasks, 0, [])
    ensures records != [] ==> Reports(stats, records, config.chunkTargetRows, config.maxInFlightTasks)
  {
    if records == [] {
      return Stats(0, 0, config.chunkTargetRows, config.maxInFlightTasks, 0, []);
    }
    var chunks := Chunks(records, config.chunkTargetRows);
    var window := AtLeastOne(config.maxInFlightTasks);
    var outcomes := DispatchWindows(chunks, window);
    stats := Stats(|records|, |chunks|, config.chunkTargetRows, config.maxInFlightTasks,
                   Min(|chunks|, config.maxInFlightTasks), outcomes);
    ReportsAll(stats, records, config.chunkTargetRows, config.maxInFlightTasks);
  }

  // ------------------------------------------------------------------------
  // Parallel validation
  // ------------------------------------------------------------------------

  predicate IsValid(record: IngestRecord) {
    record.key != "" && record.payload != ""
  }

  // The sequential form: the valid records in input order.
  ghost function ValidRecords(records: seq<IngestRecord>): (r: seq<IngestRecord>)
    ensures |r| <= |records|
  {
    if records == [] then []
    else
      ValidRecords(records[..|records| - 1]) +
      if IsValid(records[|records| - 1]) then [records[|records| - 1]] else []
  }

  lemma ConcatAssociative<T>(a: seq<T>, b: seq<T>, c: seq<T>)
    ensures (a + b) + c == a + (b + c)
  {
  }

  lemma {:induction false} ValidOfConcat(a: seq<IngestRecord>, b: seq<IngestRecord>)
    ensures ValidRecords(a + b) == ValidRecords(a) + ValidRecords(b)
  {
    if b == [] {
      assert a + b == a;
    } else {
      var k := |b| - 1;
      ValidOfConcat(a, b[..k]);
      assert (a + b)[..|a + b| - 1] == a + b[..k];
      assert (a + b)[|a + b| - 1] == b[k];
      ConcatAssociative(ValidRecords(a), ValidRecords(b[..k]), if IsValid(b[k]) then [b[k]] else []);
    }
  }

  // Just the records with a key and a payload, each once and in input order.
  lemma {:induction false} ValidPicks(records: seq<IngestRecord>) returns (at: seq<nat>)
    ensures PicksAt(ValidRecords(records), records, at)
    ensures forall j: nat :: j in at <==> j < |records| && records[j].key != "" && records[j].payload != ""
  {
    if records == [] {
      at := [];
    } else {
      at := ValidPicks(records[..|records| - 1]);
      PicksOn(ValidRecords(records[..|records| - 1]), records, at);
      if IsValid(records[|records| - 1]) {
        at := at + [|records| - 1];
      }
    }
  }

  datatype TaskResult = TaskResult(valid: seq<IngestRecord>, invalid: nat, outcome: ChunkOutcome)

  ghost predicate IsResult(r: TaskResult, index: nat, chunk: seq<IngestRecord>) {
    r.valid == ValidRecords(chunk) && r.invalid == |chunk| - |r.valid| && r.outcome == ChunkOutcome(index, |chunk|)
  }

  method ValidateChunk(index: nat, chunk: seq<IngestRecord>) returns (r: TaskResult)
    ensures IsResult(r, index, chunk)
  {
    var valid: seq<IngestRecord> := [];
    var invalid := 0;
    for i := 0 to |chunk|
      invariant valid == ValidRecords(chunk[..i]) && invalid == i - |valid|
    {
      assert chunk[..i + 1][..i] == chunk[..i];
      if IsValid(chunk[i]) {
        valid := valid + [chunk[i]];
      } else {
        invalid := invalid + 1;
      }
    }
    assert chunk[..|chunk|] == chunk;
    r := TaskResult(valid, invalid, ChunkOutcome(index, |chunk|));
  }

  // Every chunk is validated, in any order.
  ghost predicate IsSchedule(schedule: seq<nat>, count: nat) {
    (forall k :: 0 <= k < |schedule| ==> schedule[k] < count) &&
    forall i :: 0 <= i < count ==> i in schedule
  }

  method RunTasks(chunks: seq<seq<IngestRecord>>, schedule: seq<nat>) returns (results: map<nat, TaskResult>)
    requires IsSchedule(schedule, |chunks|)
    ensures forall i :: 0 <= i < |chunks| ==> i in results && IsResult(results[i], i, chunks[i])
  {
    results := map[];
    for k := 0 to |schedule|
      invariant forall i :: i in results ==> i < |chunks| && IsResult(results[i], i, chunks[i])
      invariant forall j :: 0 <= j < k ==> schedule[j] in results
    {
      var r := ValidateChunk(schedule[k], chunks[schedule[k]]);
      results := results[schedule[k] := r];
    }
    forall i | 0 <= i < |chunks|
      ensures i in results
    {
      assert i in schedule;
    }
  }

  lemma FlattenLast<T>(parts: seq<seq<T>>, k: nat)
    requires k < |parts|
    ensures Flatten(parts[..k + 1]) == Flatten(parts[..k]) + parts[k]
    decreases k
  {
    if k > 0 {
      FlattenLast(parts[1..], k - 1);
      assert parts[..k + 1][1..] == parts[1..][..k] && parts[..k][1..] == parts[1..][..k - 1];
    } else {
      assert parts[..1][1..] == [];
    }
  }

  // In whatever order chunks finish, the result is that of filtering the records in sequence,
  // and every record is counted once.
  method LoadRecordsParallel(records: seq<IngestRecord>, chunkSize: nat, threads: nat, schedule: seq<nat>)
    returns (valid: seq<IngestRecord>, invalid: nat, stats: Stats)
    requires IsSchedule(schedule, |Chunks(records, AtLeastOne(chunkSize))|)
    ensures valid == ValidRecords(records) && |valid| + invalid == |records|
    ensures records == [] ==> stats == Stats(0, 0, chunkSize, threads, 0, [])
    ensures records != [] ==> Reports(stats, records, AtLeastOne(chunkSize), threads)
  {
    if records == [] {
      return [], 0, Stats(0, 0, chunkSize, threads, 0, []);
    }
    var n := AtLeastOne(chunkSize);
    var chunks := Chunks(records, n);
    var results := RunTasks(chunks, schedule);
    var outcomes: seq<ChunkOutcome>;
    valid, invalid, outcomes := [], 0, [];
    for i := 0 to |chunks|
      invariant valid == ValidRecords(Flatten(chunks[..i]))
      invariant |valid| + invalid == |Flatten(chunks[..i])|
      invariant |outcomes| == i && Describes(outcomes, chunks)
    {
      FlattenLast(chunks, i);
      ValidOfConcat(Flatten(chunks[..i]), chunks[i]);
      valid := valid + results[i].valid;
      invalid := invalid + results[i].invalid;
      outcomes := outcomes + [results[i].outcome];
    }
    assert chunks[..|chunks|] == chunks;
    ChunksFlatten(records, n);
    stats := Stats(|records|, |chunks|, n, threads, Min(|chunks|, threads), outcomes);
    ReportsAll(stats, records, n, threads);
  }
}
