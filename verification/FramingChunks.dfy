/** When two chunkings of a stream give the very same records, and what the end of
    the input adds. */
module FramingChunks {
  import opened Wrappers
  import opened PrefixRange
  import opened Utf8
  import opened Framing
  import opened FramingTheorems

  /** The boundary between `a` and what follows falls right behind a full record
      whose newline comes next. */
  predicate Splits(a: Bytes, next: Bytes, limit: nat)
    requires limit > 0
  {
    var f := Drain(a, limit);
    && f.rest == [] && f.records != [] && !f.records[|f.records| - 1].ended
    && next != [] && next[0] == NEWLINE
  }

  /** How many boundaries of the chunking do so. */
  function SplitCount(pending: Bytes, chunks: seq<Bytes>, limit: nat): nat
    requires limit > 0
    decreases |chunks|
  {
    if chunks == [] then 0
    else
      (if Splits(pending + chunks[0], Concat(chunks[1..]), limit) then 1 else 0)
      + SplitCount(Drain(pending + chunks[0], limit).rest, chunks[1..], limit)
  }

  /** A buffer of one full record, with its newline behind it. */
  lemma FullRecord(a: Bytes, b: Bytes, limit: nat)
    requires limit > 0 && Ready(a, limit) && Cut(a, limit) == Record(a, false) && b != [] && b[0] == NEWLINE
    ensures Cut(a + b, limit).ended
  {
    NewlineConcat(a, b);
    assert FindNewline(a).None?;
    assert |a| == limit && a[..limit] == a && (a + b)[..limit] == a;
  }

  /** Cutting the first record off neither makes nor unmakes a split behind it. */
  lemma SplitsUnfolds(a: Bytes, b: Bytes, limit: nat)
    requires limit > 0 && Ready(a, limit) && Ready(a + b, limit) && Cut(a, limit).ended == Cut(a + b, limit).ended
    ensures Splits(a, b, limit) <==> Splits(Rest(a, limit), b, limit)
  {
    hide Cut, Drain, Ready;
    DrainUnfolds(a, limit);
    var record, after := Cut(a, limit), Drain(Rest(a, limit), limit);
    if after.records == [] {
      DrainUnfolds(Rest(a, limit), limit);
      if Rest(a, limit) == [] && !record.ended && b != [] && b[0] == NEWLINE {
        assert record == Record(a, false);
        FullRecord(a, b, limit);
      }
    } else {
      assert ([record] + after.records)[|after.records|] == after.records[|after.records| - 1];
    }
  }

  /** Draining early gives exactly the records of draining late, or, behind a split,
      exactly one more. */
  lemma {:induction false} DrainEarly(a: Bytes, b: Bytes, limit: nat)
    requires limit > 0
    ensures var early := Drain(a, limit);
            var late := Drain(early.rest + b, limit);
            var whole := Drain(a + b, limit);
            && |early.records| + |late.records| == |whole.records| + (if Splits(a, b, limit) then 1 else 0)
            && (!Splits(a, b, limit) ==> Frames(early.records + late.records, late.rest) == whole)
    decreases |a|
  {
    hide Cut, Ready, Drain, Rest, Splits;
    if !Ready(a, limit) {
      DrainUnfolds(a, limit);
      NothingSplits(a, b, limit);
      assert [] + Drain(a + b, limit).records == Drain(a + b, limit).records;
    } else {
      CutConcat(a, b, limit);
      if Cut(a, limit).ended == Cut(a + b, limit).ended {
        DrainEarly(Rest(a, limit), b, limit);
        SplitsUnfolds(a, b, limit);
        EarlyStep(a, b, limit);
      } else {
        EarlyNewline(a, b, limit);
      }
    }
  }

  lemma NothingSplits(a: Bytes, b: Bytes, limit: nat)
    requires limit > 0 && !Ready(a, limit)
    ensures !Splits(a, b, limit)
  {
  }

  lemma EarlyStep(a: Bytes, b: Bytes, limit: nat)
    requires limit > 0 && Ready(a, limit) && Ready(a + b, limit) && Cut(a, limit) == Cut(a + b, limit)
    ensures var record, rest := Cut(a, limit), Rest(a, limit);
            && Drain(a, limit) == Frames([record] + Drain(rest, limit).records, Drain(rest, limit).rest)
            && Drain(a + b, limit) == Frames([record] + Drain(rest + b, limit).records, Drain(rest + b, limit).rest)
  {
    hide Cut, Ready, Drain;
    DrainUnfolds(a, limit);
    DrainUnfolds(a + b, limit);
    var record, rest := Cut(a, limit), Rest(a, limit);
    assert a + b == Taken(record) + (rest + b);
  }

  lemma EarlyNewline(a: Bytes, b: Bytes, limit: nat)
    requires limit > 0 && Ready(a, limit) && Ready(a + b, limit)
    requires Cut(a, limit) == Record(a, false) && Cut(a + b, limit) == Record(a, true)
    requires b != [] && b[0] == NEWLINE
    ensures var early := Drain(a, limit);
            var late := Drain(early.rest + b, limit);
            Splits(a, b, limit) && |early.records| + |late.records| == |Drain(a + b, limit).records| + 1
  {
    hide Cut, Drain, Ready;
    FullDrains(a, limit);
    NewlineFirst(b, limit);
    assert [] + b == b && b == [NEWLINE] + b[1..];
    FirstDrains(b, b[1..], limit);
    assert a + b == Taken(Record(a, true)) + b[1..];
    FirstDrains(a + b, b[1..], limit);
  }

  lemma FullDrains(a: Bytes, limit: nat)
    requires limit > 0 && Ready(a, limit) && Cut(a, limit) == Record(a, false)
    ensures Drain(a, limit) == Frames([Record(a, false)], [])
  {
    hide Cut, Drain, Ready;
    DrainUnfolds(a, limit);
    EmptyDrains(limit);
    assert Rest(a, limit) == [];
  }

  lemma FirstDrains(b: Bytes, rest: Bytes, limit: nat)
    requires limit > 0 && Ready(b, limit) && b == Taken(Cut(b, limit)) + rest
    ensures Drain(b, limit) == Frames([Cut(b, limit)] + Drain(rest, limit).records, Drain(rest, limit).rest)
  {
    hide Cut, Drain, Ready, Taken;
    DrainUnfolds(b, limit);
    assert Rest(b, limit) == rest;
  }

  /** A chunking gives as many records as the whole stream framed at once, plus one
      for every split boundary. It gives the very same records if and only if no
      boundary falls right behind a full record whose newline comes next. */
  lemma {:induction false} SameRecordsIff(pending: Bytes, chunks: seq<Bytes>, limit: nat)
    requires limit > 0 && !Ready(pending, limit)
    ensures var whole := Drain(pending + Concat(chunks), limit);
            var fed := Feed(pending, chunks, limit);
            && |fed.records| == |whole.records| + SplitCount(pending, chunks, limit)
            && (fed == whole <==> SplitCount(pending, chunks, limit) == 0)
    decreases |chunks|
  {
    if chunks == [] {
      assert pending + Concat(chunks) == pending;
    } else {
      hide Drain, Ready, Splits;
      var a, b := pending + chunks[0], Concat(chunks[1..]);
      assert pending + Concat(chunks) == a + b;
      DrainEarly(a, b, limit);
      DrainAccounts(a, limit);
      SameRecordsIff(Drain(a, limit).rest, chunks[1..], limit);
    }
  }

  /** The extra record is real at every limit: a full record of whole characters and
      its newline, in two chunks or in one. */
  lemma SplitAddsEmptyRecord(a: Bytes, limit: nat)
    requires limit > 0 && |a| == limit && NEWLINE !in a && Valid(a)
    ensures Feed([], [a, [NEWLINE]], limit).records == [Record(a, false), Record([], true)]
    ensures Feed([], [a + [NEWLINE]], limit).records == [Record(a, true)]
  {
    hide Drain, Feed, Cut, Ready;
    var n: Bytes := [NEWLINE];
    FullCuts(a, limit);
    FullDrains(a, limit);
    EmptyDrains(limit);
    NewlineFirst(n, limit);
    assert n == Taken(Record([], true)) + [] && a + n == Taken(Record(a, true)) + [];
    FirstDrains(n, [], limit);
    FirstDrains(a + n, [], limit);
    FeedOne(a + n, limit);
    FeedTwo(a, n, limit);
    assert [] + n == n;
  }

  lemma FeedOne(a: Bytes, limit: nat)
    requires limit > 0
    ensures Feed([], [a], limit).records == Drain(a, limit).records
  {
    hide Drain;
    assert [] + a == a && [a][1..] == [];
  }

  lemma FeedTwo(a: Bytes, b: Bytes, limit: nat)
    requires limit > 0
    ensures Feed([], [a, b], limit).records == Drain(a, limit).records + Drain(Drain(a, limit).rest + b, limit).records
  {
    hide Drain;
    var rest := Drain(a, limit).rest;
    assert [] + a == a && [a, b][1..] == [b] && [b][1..] == [];
    assert Feed(rest, [b], limit).records == Drain(rest + b, limit).records;
  }

  lemma FullCuts(a: Bytes, limit: nat)
    requires limit > 0 && |a| == limit && NEWLINE !in a && Valid(a)
    ensures Ready(a, limit) && Cut(a, limit) == Record(a, false)
    ensures Ready(a + [NEWLINE], limit) && Cut(a + [NEWLINE], limit) == Record(a, true)
  {
    CleanIffValid(a);
    NewlineConcat(a, [NEWLINE]);
    NewlineFirst([NEWLINE], limit);
    assert FindNewline(a).None? && FindNewline([NEWLINE]) == Some(0);
    assert a[..limit] == a && (a + [NEWLINE])[..limit] == a;
  }

  // ---------------------------------------------------------- the cut and the end

  /** What `_record_cut` promises on any buffer: all of the allowance, unless a
      character that began inside the record would be split; then everything before
      that character, which alone is left of the allowance. */
  lemma CutSplitsNothing(pending: Bytes, limit: nat)
    ensures var end, length := Min(limit, |pending|), RecordCut(pending, limit);
            && (Decode(pending[..length]).Truncated? ==> Decode(pending[..length]).start == 0 && length == end)
            && (length < end ==> Decode(pending[..length]) == Clean && First(pending[length..end]).Partial?)
  {
    var end := Min(limit, |pending|);
    TruncatedPrefix(pending[..end]);
    var length := RecordCut(pending, limit);
    assert pending[..end][..length] == pending[..length];
    assert pending[..end][length..] == pending[length..end];
  }

  /** The records of an input that has ended: what is pending leaves as the last. */
  function Flushed(f: Frames): seq<Record> {
    f.records + if f.rest == [] then [] else [Record(f.rest, false)]
  }

  /** At the end of the input nothing is left over: the records are the input, each
      within the limit, and each whole characters if the input is and a record may
      hold four bytes. */
  lemma EndOfInput(chunks: seq<Bytes>, limit: nat)
    requires limit > 0
    ensures var records := Flushed(Feed([], chunks, limit));
            && Rejoin(records) == Concat(chunks) && WellCut(records, limit)
            && (limit >= 4 && Valid(Concat(chunks)) ==> forall r | r in records :: Valid(r.bytes))
  {
    hide Feed, Valid, Rejoin, Concat;
    var f := Feed([], chunks, limit);
    FramingAccounts([], chunks, limit) by { assert !Ready([], limit); }
    assert [] + Concat(chunks) == Concat(chunks);
    RejoinConcat(f.records, if f.rest == [] then [] else [Record(f.rest, false)]);
    LastRecord(f.rest);
    if limit >= 4 && Valid(Concat(chunks)) {
      EndIsClean(chunks, limit);
    }
  }

  lemma EndIsClean(chunks: seq<Bytes>, limit: nat)
    requires limit >= 4 && Valid(Concat(chunks))
    ensures forall r | r in Flushed(Feed([], chunks, limit)) :: Valid(r.bytes)
  {
    hide Feed, Decode, Valid, Concat;
    var f := Feed([], chunks, limit);
    assert [] + Concat(chunks) == Concat(chunks);
    CleanIffValid(Concat(chunks));
    FeedIsClean([], chunks, limit);
    RestIsClean([], chunks, limit);
    forall r | r in Flushed(f) ensures Valid(r.bytes) {
      CleanIffValid(r.bytes);
      assert r in f.records || r.bytes == f.rest;
    }
  }

  lemma LastRecord(rest: Bytes)
    ensures Rejoin(if rest == [] then [] else [Record(rest, false)]) == rest
  {
    if rest != [] {
      assert [Record(rest, false)][1..] == [];
    }
  }

  lemma {:induction false} RestIsClean(pending: Bytes, chunks: seq<Bytes>, limit: nat)
    requires limit >= 4 && Decode(pending + Concat(chunks)) == Clean
    ensures Decode(Feed(pending, chunks, limit).rest) == Clean
    decreases |chunks|
  {
    hide Decode, Drain;
    if chunks == [] {
      assert pending + Concat(chunks) == pending;
    } else {
      var future := Concat(chunks[1..]);
      assert pending + Concat(chunks) == (pending + chunks[0]) + future;
      DrainIsClean(pending + chunks[0], future, limit);
      RestIsClean(Drain(pending + chunks[0], limit).rest, chunks[1..], limit);
    }
  }
}
