/** The raw engine log kept beside the records: a bounded tail per attempt, and
    the retention that keeps all tails together within the node's budget. */
module EngineTail {
  import opened Wrappers
  import opened PrefixRange
  import opened Framing
  import opened FramingTheorems
  import opened FramingChunks

  // ------------------------------------------------------------- one attempt

  ghost predicate IsSuffix(part: Bytes, whole: Bytes) {
    |part| <= |whole| && whole[|whole| - |part|..] == part
  }

  /** `chunk[-limit:]`. */
  function LastBytes(chunk: Bytes, limit: nat): Bytes {
    if |chunk| <= limit then chunk else chunk[|chunk| - limit..]
  }

  /** The file after one chunk: appended, or started over when it would not fit. */
  function Appended(file: Bytes, chunk: Bytes, limit: nat): Bytes {
    var tail := LastBytes(chunk, limit);
    if |file| + |tail| > limit then tail else file + tail
  }

  lemma AppendedIsSuffix(file: Bytes, output: Bytes, chunk: Bytes, limit: nat)
    requires IsSuffix(file, output) && |file| <= limit
    ensures IsSuffix(Appended(file, chunk, limit), output + chunk) && |Appended(file, chunk, limit)| <= limit
    ensures |Appended(file, chunk, limit)| >= Min(limit, |chunk|)
    ensures file == output && |output| + |chunk| <= limit ==> Appended(file, chunk, limit) == output + chunk
  {
    var tail := LastBytes(chunk, limit);
    var whole := output + chunk;
    assert whole[|whole| - |tail|..] == tail;
    if |file| + |tail| <= limit {
      if |file| == 0 {
        assert file + tail == tail;
      } else {
        assert tail == chunk;
        assert whole[|whole| - |file + tail|..] == output[|output| - |file|..] + chunk;
      }
    }
  }

  /** What the store says when a batch is about to be written. */
  datatype Answer = Recording | StopRequested | Forgotten

  /** What has been stored after the flush at chunk `upTo`; `whole` when the recorder
      closed there and stored the unterminated rest as a last record. */
  function Stored(chunks: seq<Bytes>, upTo: nat, whole: bool, limit: nat): seq<Record>
    requires limit > 0 && upTo <= |chunks|
  {
    var f := Feed([], chunks[..upTo], limit);
    if whole then Flushed(f) else f.records
  }

  /** No flush is due after the chunks from a to b. */
  ghost predicate Quiet(due: nat -> bool, a: nat, b: nat) {
    forall k | a <= k < b :: !due(k)
  }

  /** The first flush due after the one at `closedAt` finds the attempt forgotten. */
  ghost predicate Lost(due: nat -> bool, answer: nat -> Answer, closedAt: nat, read: nat) {
    exists k :: closedAt < k <= read && due(k) && answer(k).Forgotten? && Quiet(due, closedAt + 1, k)
  }

  /** Why the stored records end where they do, as long as the input has not ended. */
  ghost predicate Closing(
    due: nat -> bool, answer: nat -> Answer, closedAt: nat, whole: bool, recording: bool, read: nat)
  {
    && closedAt <= read
    && (forall k | 0 < k < closedAt && due(k) :: answer(k).Recording?)
    && (closedAt > 0 ==> due(closedAt) && answer(closedAt) == if whole then StopRequested else Recording)
    && (whole ==> closedAt > 0 && !recording)
    && (recording ==> Quiet(due, closedAt + 1, read + 1))
    && (!whole && !recording ==> Lost(due, answer, closedAt, read))
  }

  /** One more chunk, with no flush that anything depends on. */
  lemma NoFlush(due: nat -> bool, answer: nat -> Answer, closedAt: nat, whole: bool, recording: bool, read: nat)
    requires Closing(due, answer, closedAt, whole, recording, read) && (recording ==> !due(read + 1))
    ensures Closing(due, answer, closedAt, whole, recording, read + 1)
  {
    if !whole && !recording {
      var k :| closedAt < k <= read && due(k) && answer(k).Forgotten? && Quiet(due, closedAt + 1, k);
      assert closedAt < k <= read + 1;
    }
  }

  /** One more chunk and a flush behind it. */
  lemma FlushOnce(due: nat -> bool, answer: nat -> Answer, closedAt: nat, read: nat)
    requires Closing(due, answer, closedAt, false, true, read) && due(read + 1)
    ensures match answer(read + 1)
            case Forgotten => Closing(due, answer, closedAt, false, false, read + 1)
            case StopRequested => Closing(due, answer, read + 1, true, false, read + 1)
            case Recording => Closing(due, answer, read + 1, false, true, read + 1)
  {
  }

  /** The file is the end of the output so far, within the limit: all of it as long as
      that fits, and always as much of the latest chunk as does. */
  ghost predicate TailOf(file: Bytes, chunks: seq<Bytes>, read: nat, limit: nat)
    requires read <= |chunks|
  {
    var output := Concat(chunks[..read]);
    && IsSuffix(file, output) && |file| <= limit
    && (|output| <= limit ==> file == output)
    && (read > 0 ==> |file| >= Min(limit, |chunks[read - 1]|))
  }

  lemma TailGrows(file: Bytes, chunks: seq<Bytes>, read: nat, limit: nat)
    requires read < |chunks| && TailOf(file, chunks, read, limit)
    ensures var longer := Appended(file, chunks[read], limit);
            |longer| <= limit && TailOf(longer, chunks, read + 1, limit)
  {
    hide Appended, IsSuffix, Concat;
    assert chunks[..read + 1] == chunks[..read] + [chunks[read]];
    ConcatSnoc(chunks[..read], chunks[read]);
    AppendedIsSuffix(file, Concat(chunks[..read]), chunks[read], limit);
  }

  /** `capture_engine_output` over the chunks the engine writes. `due(k)` is whether size
      or time calls for a flush after chunk k, `answer(k)` what the store then says, and
      `last` what it says at the end of the input; `evictedAt` is the chunk at which the
      raw file is found gone. Durable capture closes at the first stop request or at the
      end of the input, after the buffered batch and never before it, with the
      unterminated line included; a store that has forgotten the attempt, or an evicted
      file, leaves what the last flush stored. The raw file is at every step the end of the
      output within the limit. */
  method CaptureEngineOutput(
    chunks: seq<Bytes>, recordLimit: nat, tailLimit: nat, evictedAt: Option<nat>,
    due: nat -> bool, answer: nat -> Answer, last: Answer)
    returns (stored: seq<Record>, closedAt: nat, whole: bool, file: Bytes, read: nat)
    requires recordLimit > 0
    ensures read == if evictedAt.Some? then Min(evictedAt.value, |chunks|) else |chunks|
    ensures closedAt <= read && stored == Stored(chunks, closedAt, whole, recordLimit)
    ensures || Closing(due, answer, closedAt, whole, false, read)
            || (Closing(due, answer, closedAt, whole, true, read) && (read == |chunks| ==> last.Forgotten?))
            || (whole && closedAt == |chunks| == read && !last.Forgotten?
                && exists k :: Closing(due, answer, k, false, true, read))
    ensures TailOf(file, chunks, read, tailLimit)
  {
    hide Drain, Feed, TailOf, Appended, Flushed, Closing, Stored;
    var pending: Bytes, batch: seq<Record>, recording := [], [], true;
    stored, closedAt, whole, file, read := [], 0, false, [], 0;
    NothingStored(chunks, recordLimit, due, answer);
    while read < |chunks|
      invariant read <= |chunks| && (evictedAt.Some? ==> read <= evictedAt.value)
      invariant closedAt <= read && Closing(due, answer, closedAt, whole, recording, read)
      invariant recording ==> !whole && Frames(stored + batch, pending) == Feed([], chunks[..read], recordLimit)
      invariant stored == Stored(chunks, closedAt, whole, recordLimit)
      invariant |file| <= tailLimit && TailOf(file, chunks, read, tailLimit)
    {
      if evictedAt == Some(read) {
        return;
      }
      var chunk := chunks[read];
      FeedSnoc([], chunks[..read], chunk, recordLimit);
      TailGrows(file, chunks, read, tailLimit);
      assert chunks[..read + 1] == chunks[..read] + [chunk];
      var cut, rest := DrainBuffer(pending + chunk, recordLimit);
      assert stored + (batch + cut) == stored + batch + cut;
      batch, pending := batch + cut, rest;
      file := WriteTail(file, chunk, tailLimit);
      if !recording || !due(read + 1) {
        NoFlush(due, answer, closedAt, whole, recording, read);
        read := read + 1;
      } else {
        FlushOnce(due, answer, closedAt, read);
        read := read + 1;
        StoredForms(chunks, read, stored, batch, pending, recordLimit);
        match answer(read) {
          case Forgotten => recording := false;
          case StopRequested =>
            stored, closedAt, whole := FlushRest(stored, batch, pending), read, true;
            pending, recording := [], false;
          case Recording => stored, closedAt := stored + batch, read;
        }
        batch := [];
        assert stored + [] == stored;
      }
    }
    assert chunks[..read] == chunks;
    if recording && !last.Forgotten? {
      StoredForms(chunks, read, stored, batch, pending, recordLimit);
      stored, closedAt, whole := FlushRest(stored, batch, pending), read, true;
    }
  }

  lemma NothingStored(chunks: seq<Bytes>, limit: nat, due: nat -> bool, answer: nat -> Answer)
    requires limit > 0
    ensures chunks[..0] == [] && Feed([], [], limit) == Frames([], []) && forall t: nat :: TailOf([], chunks, 0, t)
    ensures [] == Stored(chunks, 0, false, limit) && Closing(due, answer, 0, false, true, 0)
  {
    assert chunks[..0] == [];
  }

  /** What a flush stores, with and without the unterminated rest. */
  lemma StoredForms(chunks: seq<Bytes>, read: nat, stored: seq<Record>, batch: seq<Record>, pending: Bytes, limit: nat)
    requires limit > 0 && read <= |chunks| && Frames(stored + batch, pending) == Feed([], chunks[..read], limit)
    ensures FlushRest(stored, batch, pending) == Stored(chunks, read, true, limit)
    ensures stored + batch == Stored(chunks, read, false, limit)
  {
  }

  /** The batch and the unterminated rest. */
  function FlushRest(stored: seq<Record>, batch: seq<Record>, pending: Bytes): seq<Record> {
    stored + batch + if pending == [] then [] else [Record(pending, false)]
  }

  /** Rotate by truncating, then write. */
  method WriteTail(file: Bytes, chunk: Bytes, limit: nat) returns (written: Bytes)
    requires |file| <= limit
    ensures written == Appended(file, chunk, limit)
  {
    var size := |file|;
    var tail := LastBytes(chunk, limit);
    written := file;
    if size + |tail| > limit {
      written, size := [], 0;
    }
    written := written + tail;
    assert [] + tail == tail;
  }

  /** Feeding one more chunk drains it behind what was fed before. */
  lemma {:induction false} FeedSnoc(pending: Bytes, chunks: seq<Bytes>, chunk: Bytes, limit: nat)
    requires limit > 0
    ensures var before := Feed(pending, chunks, limit);
            var last := Drain(before.rest + chunk, limit);
            Feed(pending, chunks + [chunk], limit) == Frames(before.records + last.records, last.rest)
    decreases |chunks|
  {
    hide Drain;
    var all := chunks + [chunk];
    if chunks == [] {
      assert all == [chunk] && all[1..] == [] && all[0] == chunk;
      var only := Drain(pending + chunk, limit);
      assert only.records + [] == only.records && [] + only.records == only.records;
    } else {
      var first := Drain(pending + chunks[0], limit);
      assert all[1..] == chunks[1..] + [chunk] && all[0] == chunks[0];
      FeedSnoc(first.rest, chunks[1..], chunk, limit);
      var middle := Feed(first.rest, chunks[1..], limit);
      var last := Drain(middle.rest + chunk, limit);
      assert first.records + (middle.records + last.records) == (first.records + middle.records) + last.records;
    }
  }

  lemma {:induction false} ConcatSnoc(chunks: seq<Bytes>, chunk: Bytes)
    ensures Concat(chunks + [chunk]) == Concat(chunks) + chunk
  {
    var all := chunks + [chunk];
    if chunks == [] {
      assert all == [chunk] && all[1..] == [];
    } else {
      assert all[1..] == chunks[1..] + [chunk] && all[0] == chunks[0];
      ConcatSnoc(chunks[1..], chunk);
    }
  }

  // ---------------------------------------------------------------- retention

  datatype Config = Config(maxBytes: nat, attemptMaxBytes: nat, maxAttempts: nat)

  const TAIL_MIN: nat := 262_144

  /** The settings validator, as far as it concerns the node's log budget. */
  predicate Accepted(c: Config) {
    && c.maxAttempts >= 1
    && c.attemptMaxBytes <= c.maxBytes / 2
    && c.attemptMaxBytes >= TAIL_MIN
    && c.maxBytes >= 2 * c.maxAttempts * TAIL_MIN
  }

  function TailLimit(c: Config): nat
    requires c.maxAttempts > 0
  {
    Max(1, Min(c.attemptMaxBytes, c.maxBytes / (2 * c.maxAttempts)))
  }

  datatype RawLog = RawLog(attempt: string, modified: int, content: Bytes)

  /** Newest first, equal ages in listing order. */
  function Ranked(log: RawLog, sorted: seq<RawLog>): (ranked: seq<RawLog>)
    ensures |ranked| == |sorted| + 1
  {
    if sorted == [] then [log]
    else if sorted[0].modified >= log.modified then [sorted[0]] + Ranked(log, sorted[1..])
    else [log] + sorted
  }

  function NewestFirst(logs: seq<RawLog>): (sorted: seq<RawLog>)
    ensures |sorted| == |logs|
  {
    if logs == [] then [] else Ranked(logs[|logs| - 1], NewestFirst(logs[..|logs| - 1]))
  }

  ghost predicate Descending(logs: seq<RawLog>) {
    forall i, j | 0 <= i < j < |logs| :: logs[i].modified >= logs[j].modified
  }

  lemma {:induction false} RankedSorts(log: RawLog, sorted: seq<RawLog>, bound: int)
    requires Descending(sorted) && log.modified <= bound && forall i | 0 <= i < |sorted| :: sorted[i].modified <= bound
    ensures var r := Ranked(log, sorted);
            Descending(r) && |r| == |sorted| + 1 && forall i | 0 <= i < |r| :: r[i].modified <= bound
  {
    if sorted != [] && sorted[0].modified >= log.modified {
      RankedSorts(log, sorted[1..], sorted[0].modified);
    }
  }

  lemma {:induction false} RankedPermutes(log: RawLog, sorted: seq<RawLog>)
    ensures multiset(Ranked(log, sorted)) == multiset(sorted) + multiset{log}
  {
    if sorted != [] && sorted[0].modified >= log.modified {
      RankedPermutes(log, sorted[1..]);
      assert sorted == [sorted[0]] + sorted[1..];
    }
  }

  ghost function Newest(logs: seq<RawLog>): (bound: int)
    ensures forall i | 0 <= i < |logs| :: logs[i].modified <= bound
  {
    if logs == [] then 0 else Max(logs[|logs| - 1].modified, Newest(logs[..|logs| - 1]))
  }

  /** The listing, sorted: the same logs, newest first. */
  lemma {:induction false} NewestFirstSorts(logs: seq<RawLog>)
    ensures Descending(NewestFirst(logs)) && multiset(NewestFirst(logs)) == multiset(logs) && |NewestFirst(logs)| == |logs|
  {
    if logs != [] {
      var n := |logs| - 1;
      NewestFirstSorts(logs[..n]);
      var sorted := NewestFirst(logs[..n]);
      RankedSorts(logs[n], sorted, Max(logs[n].modified, Newest(sorted)));
      RankedPermutes(logs[n], sorted);
      assert logs == logs[..n] + [logs[n]];
    }
  }

  /** The logs of one age, in order. */
  function OfAge(logs: seq<RawLog>, age: int): seq<RawLog> {
    if logs == [] then [] else (if logs[0].modified == age then [logs[0]] else []) + OfAge(logs[1..], age)
  }

  lemma {:induction false} OfAgeConcat(a: seq<RawLog>, b: seq<RawLog>, age: int)
    ensures OfAge(a + b, age) == OfAge(a, age) + OfAge(b, age)
  {
    if a == [] {
      assert a + b == b;
    } else {
      assert (a + b)[1..] == a[1..] + b && (a + b)[0] == a[0];
      OfAgeConcat(a[1..], b, age);
      var head := if a[0].modified == age then [a[0]] else [];
      assert head + (OfAge(a[1..], age) + OfAge(b, age)) == (head + OfAge(a[1..], age)) + OfAge(b, age);
    }
  }

  lemma {:induction false} RankedStable(log: RawLog, sorted: seq<RawLog>, age: int)
    requires Descending(sorted)
    ensures OfAge(Ranked(log, sorted), age) == OfAge(sorted, age) + OfAge([log], age)
  {
    assert [log][1..] == [];
    if sorted == [] {
    } else if sorted[0].modified >= log.modified {
      RankedStable(log, sorted[1..], age);
      var r := [sorted[0]] + Ranked(log, sorted[1..]);
      assert r[1..] == Ranked(log, sorted[1..]);
    } else {
      var r := [log] + sorted;
      assert r[1..] == sorted;
      if log.modified == age {
        YoungerHaveNone(sorted, age);
      }
    }
  }

  lemma {:induction false} YoungerHaveNone(logs: seq<RawLog>, age: int)
    requires forall i | 0 <= i < |logs| :: logs[i].modified < age
    ensures OfAge(logs, age) == []
  {
    if logs != [] {
      YoungerHaveNone(logs[1..], age);
    }
  }

  /** Logs of the same age stay in listing order. */
  lemma {:induction false} NewestFirstIsStable(logs: seq<RawLog>, age: int)
    ensures OfAge(NewestFirst(logs), age) == OfAge(logs, age)
  {
    if logs != [] {
      var n := |logs| - 1;
      NewestFirstIsStable(logs[..n], age);
      NewestFirstSorts(logs[..n]);
      RankedStable(logs[n], NewestFirst(logs[..n]), age);
      assert logs == logs[..n] + [logs[n]];
      OfAgeConcat(logs[..n], [logs[n]], age);
    }
  }

  /** `prune_raw_logs`: the newest recent logs are kept, as many as leave room for
      one more attempt, and no more are dropped than that. */
  method PruneRawLogs(logs: seq<RawLog>, maxAttempts: nat, cutoff: int) returns (kept: seq<RawLog>)
    ensures |kept| <= |logs| && kept == NewestFirst(logs)[..|kept|]
    ensures |kept| <= Max(maxAttempts - 1, 0) && forall i | 0 <= i < |kept| :: kept[i].modified >= cutoff
    ensures |kept| == Max(maxAttempts - 1, 0) || |kept| == |logs| || NewestFirst(logs)[|kept|].modified < cutoff
  {
    var paths := NewestFirst(logs);
    NewestFirstSorts(logs);
    kept := [];
    for index := 0 to |paths|
      invariant |kept| <= index && kept == paths[..|kept|]
      invariant |kept| <= Max(maxAttempts - 1, 0) && forall i | 0 <= i < |kept| :: kept[i].modified >= cutoff
      invariant |kept| == index || |kept| == Max(maxAttempts - 1, 0) || paths[|kept|].modified < cutoff
    {
      if index >= maxAttempts - 1 || paths[index].modified < cutoff {
        // evicted
      } else {
        assert |kept| == index;
        kept := kept + [paths[index]];
      }
    }
  }

  // ------------------------------------------------------------- node budget

  function Total(logs: seq<RawLog>): nat {
    if logs == [] then 0 else |logs[0].content| + Total(logs[1..])
  }

  datatype Step =
    | NewAttempt(attempt: string, now: int, kept: nat)   // prune, then a new file
    | Reopen(index: nat, now: int)                       // a later phase starts the file over
    | Write(index: nat, chunk: Bytes, now: int)
    | Remove(index: nat)                                 // an operator deletes a file

  /** Attempts start one at a time: the prune that keeps `kept` logs and the new
      file behind it are one step. */
  predicate Enabled(logs: seq<RawLog>, c: Config, step: Step) {
    match step
    case NewAttempt(_, _, kept) => kept <= |logs| && kept <= Max(c.maxAttempts - 1, 0)
    case Reopen(index, _) => index < |logs|
    case Write(index, _, _) => index < |logs|
    case Remove(index) => index < |logs|
  }

  function Next(logs: seq<RawLog>, c: Config, step: Step): seq<RawLog>
    requires c.maxAttempts > 0 && Enabled(logs, c, step)
  {
    match step
    case NewAttempt(attempt, now, kept) =>
      NewestFirstSorts(logs);
      NewestFirst(logs)[..kept] + [RawLog(attempt, now, [])]
    case Reopen(index, now) => logs[index := logs[index].(modified := now, content := [])]
    case Write(index, chunk, now) =>
      logs[index := logs[index].(modified := now, content := Appended(logs[index].content, chunk, TailLimit(c)))]
    case Remove(index) => logs[..index] + logs[index + 1..]
  }

  function Run(logs: seq<RawLog>, c: Config, steps: seq<Step>): Option<seq<RawLog>>
    requires c.maxAttempts > 0
  {
    if steps == [] then Some(logs)
    else
      var before := Run(logs, c, steps[..|steps| - 1]);
      if before.Some? && Enabled(before.value, c, steps[|steps| - 1])
      then Some(Next(before.value, c, steps[|steps| - 1]))
      else None
  }

  ghost predicate Bounded(logs: seq<RawLog>, c: Config)
    requires c.maxAttempts > 0
  {
    |logs| <= c.maxAttempts && forall i | 0 <= i < |logs| :: |logs[i].content| <= TailLimit(c)
  }

  lemma StepKeeps(logs: seq<RawLog>, c: Config, step: Step)
    requires c.maxAttempts > 0 && Bounded(logs, c) && Enabled(logs, c, step)
    ensures Bounded(Next(logs, c, step), c)
  {
    match step
    case NewAttempt(_, _, kept) =>
      NewestFirstSorts(logs);
      var sorted := NewestFirst(logs);
      forall i | 0 <= i < |sorted| ensures |sorted[i].content| <= TailLimit(c) {
        assert sorted[i] in multiset(sorted);
        assert sorted[i] in logs;
      }
    case _ =>
  }

  lemma {:induction false} RunKeeps(c: Config, steps: seq<Step>)
    requires c.maxAttempts > 0 && Run([], c, steps).Some?
    ensures Bounded(Run([], c, steps).value, c)
  {
    if steps != [] {
      RunKeeps(c, steps[..|steps| - 1]);
      StepKeeps(Run([], c, steps[..|steps| - 1]).value, c, steps[|steps| - 1]);
    }
  }

  lemma {:induction false} TotalBound(logs: seq<RawLog>, limit: nat)
    requires forall i | 0 <= i < |logs| :: |logs[i].content| <= limit
    ensures Total(logs) <= |logs| * limit
  {
    if logs != [] {
      TotalBound(logs[1..], limit);
      assert |logs| * limit == (|logs| - 1) * limit + limit;
    }
  }

  lemma Half(n: nat, bytes: nat)
    requires n > 0
    ensures n * (bytes / (2 * n)) <= bytes / 2
  {
    var q := bytes / (2 * n);
    assert 2 * n * q <= bytes;
    assert 2 * (n * q) == 2 * n * q;
  }

  lemma Scaled(n: nat, a: nat, b: nat)
    requires a <= b
    ensures n * a <= n * b
  {
  }

  /** Full tails of all attempts fit half the budget exactly when the budget is
      at least two bytes per attempt. */
  lemma TailsFitIff(c: Config)
    requires c.maxAttempts > 0
    ensures c.maxAttempts * TailLimit(c) <= c.maxBytes / 2 <==> 2 * c.maxAttempts <= c.maxBytes
  {
    var n, q := c.maxAttempts, c.maxBytes / (2 * c.maxAttempts);
    Half(n, c.maxBytes);
    QuotientZero(c.maxBytes, 2 * n);
    if 2 * n <= c.maxBytes {
      Scaled(n, TailLimit(c), q);
    } else {
      assert TailLimit(c) == 1 && n * 1 == n;
    }
  }

  /** The limit is the largest that the attempt budget and the node budget allow. */
  lemma TailLimitIsLargest(c: Config)
    requires c.maxAttempts > 0 && c.attemptMaxBytes > 0 && 2 * c.maxAttempts <= c.maxBytes
    ensures 0 < TailLimit(c) <= c.attemptMaxBytes && c.maxAttempts * TailLimit(c) <= c.maxBytes / 2
    ensures TailLimit(c) == c.attemptMaxBytes || c.maxBytes < 2 * c.maxAttempts * (TailLimit(c) + 1)
  {
    var d := 2 * c.maxAttempts;
    TailsFitIff(c);
    QuotientZero(c.maxBytes, d);
    NextMultiple(c.maxBytes, d);
  }

  lemma NextMultiple(bytes: nat, d: nat)
    requires d > 0
    ensures bytes < d * (bytes / d + 1)
  {
    assert bytes == d * (bytes / d) + bytes % d;
    assert d * (bytes / d + 1) == d * (bytes / d) + d;
  }

  lemma QuotientZero(bytes: nat, d: nat)
    requires d > 0
    ensures bytes / d >= 1 <==> d <= bytes
  {
  }

  /** Over every run under accepted settings, the retained tails together stay
      within half the node's budget, and each has room for the configured minimum. */
  lemma TailsStayWithinBudget(c: Config, steps: seq<Step>)
    requires Accepted(c) && Run([], c, steps).Some?
    ensures Total(Run([], c, steps).value) <= c.maxBytes / 2
    ensures forall i | 0 <= i < |Run([], c, steps).value| ::
              |Run([], c, steps).value[i].content| <= TailLimit(c) <= c.attemptMaxBytes
    ensures TailLimit(c) >= TAIL_MIN
  {
    assert TailLimit(c) <= c.attemptMaxBytes;
    hide TailLimit, Total, Run;
    var logs := Run([], c, steps).value;
    RunKeeps(c, steps);
    var limit := TailLimit(c);
    TotalBound(logs, limit);
    Scaled(limit, |logs|, c.maxAttempts);
    assert |logs| * limit == limit * |logs| && c.maxAttempts * limit == limit * c.maxAttempts;
    TailsFitIff(c);
    RoomForMinimum(c);
  }

  /** The bound is reached: a node can come to hold a full tail for every attempt. */
  lemma BudgetIsReached(c: Config) returns (steps: seq<Step>)
    requires c.maxAttempts > 0
    ensures Run([], c, steps).Some? && Total(Run([], c, steps).value) == c.maxAttempts * TailLimit(c)
  {
    steps := FullTails(c, c.maxAttempts);
    TotalExact(Run([], c, steps).value, TailLimit(c));
  }

  lemma {:induction false} TotalExact(logs: seq<RawLog>, limit: nat)
    requires forall i | 0 <= i < |logs| :: |logs[i].content| == limit
    ensures Total(logs) == |logs| * limit
  {
    if logs != [] {
      TotalExact(logs[1..], limit);
      assert |logs| * limit == (|logs| - 1) * limit + limit;
    }
  }

  lemma {:induction false} FullTails(c: Config, n: nat) returns (steps: seq<Step>)
    requires c.maxAttempts > 0 && n <= c.maxAttempts
    ensures Run([], c, steps).Some?
    ensures var logs := Run([], c, steps).value;
            |logs| == n && forall i | 0 <= i < |logs| :: |logs[i].content| == TailLimit(c)
  {
    hide TailLimit, NewestFirst;
    if n == 0 {
      steps := [];
    } else {
      var before := FullTails(c, n - 1);
      var logs := Run([], c, before).value;
      var chunk := seq(TailLimit(c), _ => 0 as Byte);
      var begin, write := NewAttempt("attempt", 0, n - 1), Write(n - 1, chunk, 0);
      assert (before + [begin])[..|before|] == before;
      NewestFirstSorts(logs);
      var sorted := NewestFirst(logs);
      forall i | 0 <= i < |sorted| ensures |sorted[i].content| == TailLimit(c) {
        assert sorted[i] in multiset(sorted);
        assert sorted[i] in logs;
      }
      steps := before + [begin] + [write];
      assert steps[..|before| + 1] == before + [begin];
      assert Run([], c, before + [begin]) == Some(sorted[..n - 1] + [RawLog("attempt", 0, [])]);
    }
  }

  lemma RoomForMinimum(c: Config)
    requires Accepted(c)
    ensures TailLimit(c) >= TAIL_MIN
  {
    var d := 2 * c.maxAttempts;
    assert c.maxBytes >= d * TAIL_MIN;
    if c.maxBytes / d < TAIL_MIN {
      Scaled(d, c.maxBytes / d + 1, TAIL_MIN);
    }
  }
}
