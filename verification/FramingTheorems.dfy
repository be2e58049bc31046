/** What the framing loop promises about characters, and that the chunking of the
    stream does not matter. */
module FramingTheorems {
  import opened Wrappers
  import opened PrefixRange
  import opened Utf8
  import opened Framing

  // ------------------------------------------------- characters are never split

  lemma NewlineBreaks(a: Bytes, b: Bytes)
    requires a != [] && First(a).Partial?
    ensures First(a + ([NEWLINE] + b)).Broken?
  {
  }

  /** A newline cannot sit inside a character. */
  lemma NewlineEndsCharacter(a: Bytes, b: Bytes)
    requires Decode(a + ([NEWLINE] + b)) == Clean
    ensures Decode(a) == Clean
  {
    PrefixVerdict(a, [NEWLINE] + b);
    if Decode(a).Truncated? {
      var s := Decode(a).start;
      var tail := a[s..] + ([NEWLINE] + b);
      assert a + ([NEWLINE] + b) == a[..s] + tail;
      DecodeConcat(a[..s], tail);
      NewlineBreaks(a[s..], b);
    }
  }

  /** Four bytes always hold the first character of a clean stream. */
  lemma PrefixOfFour(a: Bytes, b: Bytes)
    requires |a| >= 4 && Decode(a + b) == Clean
    ensures match Decode(a)
            case Clean => true
            case Truncated(s) => 0 < s < |a| && Decode(a[..s]) == Clean
            case Malformed(_) => false
  {
    PrefixVerdict(a, b);
    assert a[0..] == a;
  }

  lemma CutIsClean(pending: Bytes, future: Bytes, limit: nat)
    requires limit >= 4 && Ready(pending, limit) && Decode(pending + future) == Clean
    ensures Decode(Cut(pending, limit).bytes) == Clean
  {
    hide Decode, RecordCut;
    var newline := FindNewline(pending);
    if newline.Some? && newline.value <= limit {
      LineIsClean(pending, future, newline.value);
    } else {
      FullIsClean(pending, future, limit);
    }
  }

  /** What a newline ends is whole. */
  lemma LineIsClean(pending: Bytes, future: Bytes, at: nat)
    requires at < |pending| && pending[at] == NEWLINE && Decode(pending + future) == Clean
    ensures RecordCut(pending, at) == at && Decode(pending[..at]) == Clean
  {
    hide Decode;
    var a, b := pending[..at], pending[at + 1..];
    assert pending + future == a + ([NEWLINE] + (b + future));
    NewlineEndsCharacter(a, b + future);
  }

  /** A full record gives up the character it would split. */
  lemma FullIsClean(pending: Bytes, future: Bytes, limit: nat)
    requires 4 <= limit <= |pending| && Decode(pending + future) == Clean
    ensures Decode(pending[..RecordCut(pending, limit)]) == Clean
  {
    hide Decode;
    var a := pending[..limit];
    assert pending + future == a + (pending[limit..] + future);
    PrefixOfFour(a, pending[limit..] + future);
    if Decode(a).Truncated? {
      assert a[..Decode(a).start] == pending[..Decode(a).start];
    }
  }

  lemma TakenIsClean(record: Record)
    requires Decode(record.bytes) == Clean
    ensures Decode(Taken(record)) == Clean
  {
    var tail := if record.ended then [NEWLINE] else [];
    assert record.ended ==> tail[1..] == [];
    DecodeConcat(record.bytes, tail);
  }

  lemma {:induction false} DrainIsClean(pending: Bytes, future: Bytes, limit: nat)
    requires limit >= 4 && Decode(pending + future) == Clean
    ensures var f := Drain(pending, limit);
            Decode(f.rest + future) == Clean && forall r | r in f.records :: Decode(r.bytes) == Clean
    decreases |pending|
  {
    hide Decode, Cut, Taken, Ready;
    if Ready(pending, limit) {
      var record, rest := Cut(pending, limit), Rest(pending, limit);
      CutIsClean(pending, future, limit);
      TakenIsClean(record);
      assert pending + future == Taken(record) + (rest + future);
      DecodeConcat(Taken(record), rest + future);
      ShiftedClean(Decode(rest + future), |Taken(record)|);
      DrainIsClean(rest, future, limit);
    }
  }

  lemma ShiftedClean(v: Verdict, offset: nat)
    ensures Shifted(v, offset) == Clean <==> v == Clean
  {
  }

  lemma {:induction false} FeedIsClean(pending: Bytes, chunks: seq<Bytes>, limit: nat)
    requires limit >= 4 && Decode(pending + Concat(chunks)) == Clean
    ensures forall r | r in Feed(pending, chunks, limit).records :: Decode(r.bytes) == Clean
    decreases |chunks|
  {
    if chunks != [] {
      hide Decode, Drain;
      var future := Concat(chunks[1..]);
      assert pending + Concat(chunks) == (pending + chunks[0]) + future;
      DrainIsClean(pending + chunks[0], future, limit);
      FeedIsClean(Drain(pending + chunks[0], limit).rest, chunks[1..], limit);
    }
  }

  /** Every record cut from a valid stream is valid UTF-8. */
  ghost predicate KeepsCharacters(limit: nat)
    requires limit > 0
  {
    forall chunks: seq<Bytes>, record |
      Valid(Concat(chunks)) && record in Feed([], chunks, limit).records :: Valid(record.bytes)
  }

  /** A character of four bytes, U+10000. */
  const WIDE: Bytes := [0xF0, 0x90, 0x80, 0x80]

  lemma WideIsOneCharacter(limit: nat)
    requires 0 < limit < 4
    ensures Valid(WIDE) && FindNewline(WIDE).None? && !Valid(WIDE[..limit])
    ensures RecordCut(WIDE, limit) == limit
  {
    assert WIDE[4..] == [] && First(WIDE) == Whole(4);
    assert First(WIDE[..limit]).Partial?;
    CleanIffValid(WIDE);
    CleanIffValid(WIDE[..limit]);
    assert WIDE[1..] == [0x90, 0x80, 0x80] && WIDE[1..][1..] == [0x80, 0x80];
  }

  lemma SmallLimitSplits(limit: nat)
    requires 0 < limit < 4
    ensures !KeepsCharacters(limit)
  {
    hide Decode, FindNewline, Valid, RecordCut;
    WideIsOneCharacter(limit);
    var chunks := [WIDE];
    assert chunks[1..] == [] && Concat(chunks) == WIDE && [] + WIDE == WIDE;
    var record := Cut(WIDE, limit);
    assert record.bytes == WIDE[..limit];
    DrainUnfolds(WIDE, limit);
    assert Drain(WIDE, limit).records[0] == record;
    assert Feed([], chunks, limit).records == Drain(WIDE, limit).records;
  }

  /** The framing loop splits no character of any valid stream, however it is
      chunked, exactly when a record may hold four bytes. */
  lemma CharactersKeptIff(limit: nat)
    requires limit > 0
    ensures KeepsCharacters(limit) <==> limit >= 4
  {
    if limit < 4 {
      SmallLimitSplits(limit);
    } else {
      forall chunks: seq<Bytes>, record | Valid(Concat(chunks)) && record in Feed([], chunks, limit).records
        ensures Valid(record.bytes)
      {
        CleanIffValid(Concat(chunks));
        assert [] + Concat(chunks) == Concat(chunks);
        FeedIsClean([], chunks, limit);
        CleanIffValid(record.bytes);
      }
    }
  }

  // ------------------------------------------------------ chunking is irrelevant

  /** The texts of the records that are not empty. */
  function Texts(records: seq<Record>): seq<Bytes> {
    if records == [] then []
    else (if records[0].bytes == [] then [] else [records[0].bytes]) + Texts(records[1..])
  }

  lemma {:induction false} TextsConcat(a: seq<Record>, b: seq<Record>)
    ensures Texts(a + b) == Texts(a) + Texts(b)
  {
    if a == [] {
      assert a + b == b;
    } else {
      assert (a + b)[1..] == a[1..] + b;
      TextsConcat(a[1..], b);
    }
  }

  /** Two framings that differ at most in empty records. */
  ghost predicate Alike(f: Frames, g: Frames) {
    Texts(f.records) == Texts(g.records) && f.rest == g.rest
  }

  lemma {:induction false} NewlineConcat(a: Bytes, b: Bytes)
    ensures FindNewline(a).Some? ==> FindNewline(a + b) == FindNewline(a)
    ensures FindNewline(a).None? ==>
              FindNewline(a + b) == if FindNewline(b).Some? then Some(|a| + FindNewline(b).value) else None
  {
    if a == [] {
      assert a + b == b;
    } else {
      assert (a + b)[1..] == a[1..] + b;
      NewlineConcat(a[1..], b);
    }
  }

  /** More input changes the next record in one case only: the buffer held exactly
      one full record and the input begins with its newline. */
  lemma CutConcat(a: Bytes, b: Bytes, limit: nat)
    requires limit > 0 && Ready(a, limit)
    ensures Ready(a + b, limit)
    ensures Cut(a + b, limit).bytes == Cut(a, limit).bytes
    ensures Cut(a, limit).ended ==> Cut(a + b, limit).ended
    ensures Cut(a + b, limit).ended && !Cut(a, limit).ended ==>
              Cut(a, limit).bytes == a && b != [] && b[0] == NEWLINE
  {
    NewlineConcat(a, b);
    var n := FindNewline(a);
    var end := if n.Some? && n.value <= limit then n.value else limit;
    assert (a + b)[..end] == a[..end];
    if n.None? {
      var m := FindNewline(a + b);
      assert m.Some? ==> m.value >= |a| >= limit;
      assert RecordCut(a + b, limit) == RecordCut(a, limit);
      if m.Some? && m.value <= limit {
        assert (a + b)[..m.value] == a[..limit];
      }
    }
  }

  lemma AlikeSame(f: Frames)
    ensures Alike(Frames([] + f.records, f.rest), f)
  {
    assert [] + f.records == f.records;
  }

  /** Draining early and draining late agree. */
  lemma {:induction false} DrainConcat(a: Bytes, b: Bytes, limit: nat)
    requires limit > 0
    ensures var early := Drain(a, limit);
            var late := Drain(early.rest + b, limit);
            Alike(Frames(early.records + late.records, late.rest), Drain(a + b, limit))
    decreases |a|
  {
    hide Cut, Ready, Alike, Drain, Rest;
    if !Ready(a, limit) {
      DrainUnfolds(a, limit);
      AlikeSame(Drain(a + b, limit));
    } else {
      CutConcat(a, b, limit);
      var record, joined := Cut(a, limit), Cut(a + b, limit);
      if record.ended == joined.ended {
        DrainConcat(Rest(a, limit), b, limit);
        DrainTail(a, b, limit);
      } else {
        DrainNewline(a, b, limit);
      }
    }
  }

  lemma DrainTail(a: Bytes, b: Bytes, limit: nat)
    requires limit > 0 && Ready(a, limit) && Ready(a + b, limit) && Cut(a, limit) == Cut(a + b, limit)
    requires var early := Drain(Rest(a, limit), limit);
             var late := Drain(early.rest + b, limit);
             Alike(Frames(early.records + late.records, late.rest), Drain(Rest(a, limit) + b, limit))
    ensures var early := Drain(a, limit);
            var late := Drain(early.rest + b, limit);
            Alike(Frames(early.records + late.records, late.rest), Drain(a + b, limit))
  {
    hide Cut, Texts, Ready;
    var record := Cut(a, limit);
    var rest := Rest(a, limit);
    assert Rest(a + b, limit) == rest + b by {
      assert a + b == Taken(record) + (rest + b);
    }
    var early := Drain(rest, limit);
    var late := Drain(early.rest + b, limit);
    assert ([record] + early.records) + late.records == [record] + (early.records + late.records);
    TextsConcat([record], early.records + late.records);
    TextsConcat([record], Drain(rest + b, limit).records);
  }

  /** The one difference: cut early, the newline that follows a full record is left
      behind and leaves as an empty record of its own. */
  lemma DrainNewline(a: Bytes, b: Bytes, limit: nat)
    requires limit > 0 && Ready(a, limit) && Ready(a + b, limit)
    requires Cut(a, limit) == Record(a, false) && Cut(a + b, limit) == Record(a, true)
    requires b != [] && b[0] == NEWLINE
    ensures var early := Drain(a, limit);
            var late := Drain(early.rest + b, limit);
            Alike(Frames(early.records + late.records, late.rest), Drain(a + b, limit))
  {
    hide Cut, Drain, Ready, Texts;
    var record, full, empty := Record(a, false), Record(a, true), Record([], true);
    DrainUnfolds(a, limit);
    EmptyDrains(limit);
    assert Drain(a, limit) == Frames([record], []);
    assert [] + b == b && b == [NEWLINE] + b[1..];
    NewlineFirst(b, limit);
    DrainUnfolds(b, limit);
    DrainUnfolds(a + b, limit);
    assert Rest(b, limit) == b[1..] == Rest(a + b, limit);
    var tail := Drain(b[1..], limit).records;
    assert [record] + ([empty] + tail) == [record, empty] + tail;
    TextsConcat([record, empty], tail);
    TextsConcat([full], tail);
    SameTexts(a);
  }

  lemma EmptyDrains(limit: nat)
    requires limit > 0
    ensures Drain([], limit) == Frames([], [])
  {
  }

  lemma NewlineFirst(b: Bytes, limit: nat)
    requires limit > 0 && b != [] && b[0] == NEWLINE
    ensures Ready(b, limit) && Cut(b, limit) == Record([], true)
  {
  }

  lemma SameTexts(a: Bytes)
    ensures Texts([Record(a, false), Record([], true)]) == Texts([Record(a, true)])
  {
    var two := [Record(a, false), Record([], true)];
    assert two[1..] == [Record([], true)] && two[1..][1..] == [] && [Record(a, true)][1..] == [];
  }

  /** However the stream is chunked, the same texts come out and the same bytes
      stay pending: both are those of the whole stream framed at once. */
  lemma {:induction false} ChunkingIsIrrelevant(pending: Bytes, chunks: seq<Bytes>, limit: nat)
    requires limit > 0 && !Ready(pending, limit)
    ensures Alike(Feed(pending, chunks, limit), Drain(pending + Concat(chunks), limit))
    decreases |chunks|
  {
    if chunks == [] {
      assert pending + Concat(chunks) == pending;
    } else {
      hide Drain, Texts, Ready;
      var a, b := pending + chunks[0], Concat(chunks[1..]);
      assert pending + Concat(chunks) == a + b;
      DrainConcat(a, b, limit);
      DrainAccounts(a, limit);
      var first := Drain(a, limit);
      ChunkingIsIrrelevant(first.rest, chunks[1..], limit);
      TextsConcat(first.records, Feed(first.rest, chunks[1..], limit).records);
      TextsConcat(first.records, Drain(first.rest + b, limit).records);
    }
  }

  // --------------------------------------------------------------------- code

  /** The loop body of the recorder, over one buffer. */
  method DrainBuffer(pending: Bytes, limit: nat) returns (records: seq<Record>, rest: Bytes)
    requires limit > 0
    ensures Frames(records, rest) == Drain(pending, limit)
    ensures Rejoin(records) + rest == pending && WellCut(records, limit) && !Ready(rest, limit)
  {
    hide Cut, Drain, Taken;
    DrainAccounts(pending, limit);
    records, rest := [], pending;
    while Ready(rest, limit)
      invariant Drain(pending, limit) == Frames(records + Drain(rest, limit).records, Drain(rest, limit).rest)
      decreases |rest|
    {
      DrainUnfolds(rest, limit);
      var record := Cut(rest, limit);
      CutIsPrefix(rest, limit);
      records := records + [record];
      rest := rest[|Taken(record)|..];
    }
    DrainUnfolds(rest, limit);
  }

  lemma DrainUnfolds(pending: Bytes, limit: nat)
    requires limit > 0
    ensures Ready(pending, limit) ==>
              && Rest(pending, limit) == pending[|Taken(Cut(pending, limit))|..]
              && Drain(pending, limit) == Frames([Cut(pending, limit)] + Drain(Rest(pending, limit), limit).records,
                                                 Drain(Rest(pending, limit), limit).rest)
    ensures !Ready(pending, limit) ==> Drain(pending, limit) == Frames([], pending)
  {
  }
}
