/** The recorder's framing loop: bytes arrive in chunks and leave as records, cut
    at newlines or at the record limit, never inside a character. */
module Framing {
  import opened Wrappers
  import opened PrefixRange
  import opened Utf8

  const NEWLINE: Byte := 10

  /** An emitted record. The loop does not keep `ended`; it records whether a
      newline was consumed behind the record, so that the input can be rebuilt. */
  datatype Record = Record(bytes: Bytes, ended: bool)

  /** `_record_cut`: where to cut a buffer of which at most `limit` bytes may go. */
  function RecordCut(pending: Bytes, limit: nat): (length: nat)
    ensures length <= Min(limit, |pending|)
    ensures length == 0 ==> Min(limit, |pending|) == 0
  {
    var end := Min(limit, |pending|);
    match Decode(pending[..end])
    case Truncated(start) => if 0 < start <= end then start else end
    case _ => end
  }

  /** `find(b"\n")`. */
  function FindNewline(b: Bytes): (at: Option<nat>)
    ensures at.Some? ==> at.value < |b| && b[at.value] == NEWLINE && NEWLINE !in b[..at.value]
    ensures at.None? ==> NEWLINE !in b
  {
    if b == [] then None
    else if b[0] == NEWLINE then Some(0)
    else
      var later := FindNewline(b[1..]);
      assert b == [b[0]] + b[1..];
      if later.None? then None
      else
        assert b[..later.value + 1] == [b[0]] + b[1..][..later.value];
        Some(later.value + 1)
  }

  /** The loop condition. */
  predicate Ready(pending: Bytes, limit: nat) {
    FindNewline(pending).Some? || |pending| >= limit
  }

  /** The record the next iteration emits. */
  function Cut(pending: Bytes, limit: nat): (record: Record)
    requires Ready(pending, limit)
    ensures |record.bytes| + (if record.ended then 1 else 0) <= |pending|
  {
    var newline := FindNewline(pending);
    var length := RecordCut(pending, if newline.Some? && newline.value <= limit then newline.value else limit);
    Record(pending[..length], newline == Some(length))
  }

  /** What a record took from the buffer. */
  function Taken(record: Record): Bytes {
    record.bytes + if record.ended then [NEWLINE] else []
  }

  /** Each iteration shortens the buffer, for every buffer, exactly when the limit
      is positive. */
  lemma ProgressIff(limit: nat)
    ensures limit > 0 <==> forall pending | Ready(pending, limit) :: Taken(Cut(pending, limit)) != []
  {
    if limit == 0 {
      var stuck: Bytes := [0];
      assert FindNewline(stuck).None? by {
        assert stuck[1..] == [];
      }
      assert stuck[..0] == [];
      assert Ready(stuck, limit) && Taken(Cut(stuck, limit)) == [];
    }
  }

  lemma CutIsPrefix(pending: Bytes, limit: nat)
    requires Ready(pending, limit)
    ensures var r := Cut(pending, limit);
            && Taken(r) <= pending && |r.bytes| <= limit && NEWLINE !in r.bytes
            && (limit > 0 ==> Taken(r) != [])
  {
    var newline := FindNewline(pending);
    var r := Cut(pending, limit);
    if newline.Some? && newline.value <= limit {
      assert r.bytes == pending[..newline.value][..|r.bytes|];
    } else if newline.Some? {
      assert r.bytes == pending[..newline.value][..|r.bytes|];
    }
    if r.ended {
      assert pending[..|r.bytes| + 1] == r.bytes + [NEWLINE];
    }
  }

  /** The buffer after the records a non-empty cut takes out of it. */
  function Rest(pending: Bytes, limit: nat): (rest: Bytes)
    requires limit > 0 && Ready(pending, limit)
    ensures |rest| < |pending| && pending == Taken(Cut(pending, limit)) + rest
  {
    CutIsPrefix(pending, limit);
    pending[|Taken(Cut(pending, limit))|..]
  }

  datatype Frames = Frames(records: seq<Record>, rest: Bytes)

  /** The inner loop: cut until neither a newline nor a full record is left. */
  function Drain(pending: Bytes, limit: nat): Frames
    requires limit > 0
    decreases |pending|
  {
    if !Ready(pending, limit) then Frames([], pending)
    else
      var after := Drain(Rest(pending, limit), limit);
      Frames([Cut(pending, limit)] + after.records, after.rest)
  }

  /** The outer loop: append each chunk and drain. */
  function Feed(pending: Bytes, chunks: seq<Bytes>, limit: nat): Frames
    requires limit > 0
    decreases |chunks|
  {
    if chunks == [] then Frames([], pending)
    else
      var first := Drain(pending + chunks[0], limit);
      var after := Feed(first.rest, chunks[1..], limit);
      Frames(first.records + after.records, after.rest)
  }

  function Concat(chunks: seq<Bytes>): Bytes {
    if chunks == [] then [] else chunks[0] + Concat(chunks[1..])
  }

  /** The bytes a sequence of records accounts for. */
  function Rejoin(records: seq<Record>): Bytes {
    if records == [] then [] else Taken(records[0]) + Rejoin(records[1..])
  }

  ghost predicate WellCut(records: seq<Record>, limit: nat) {
    forall i | 0 <= i < |records| :: |records[i].bytes| <= limit && NEWLINE !in records[i].bytes
  }

  lemma Associate(a: Bytes, b: Bytes, c: Bytes)
    ensures (a + b) + c == a + (b + c)
  {
  }

  lemma {:induction false} RejoinConcat(a: seq<Record>, b: seq<Record>)
    ensures Rejoin(a + b) == Rejoin(a) + Rejoin(b)
  {
    if a == [] {
      assert a + b == b;
    } else {
      assert (a + b)[1..] == a[1..] + b;
      RejoinConcat(a[1..], b);
    }
  }

  lemma {:induction false} DrainAccounts(pending: Bytes, limit: nat)
    requires limit > 0
    ensures var f := Drain(pending, limit);
            Rejoin(f.records) + f.rest == pending && WellCut(f.records, limit) && !Ready(f.rest, limit)
    decreases |pending|
  {
    hide Cut, Taken, Ready, Rest;
    if Ready(pending, limit) {
      CutIsPrefix(pending, limit);
      DrainAccounts(Rest(pending, limit), limit);
      var record, after := Cut(pending, limit), Drain(Rest(pending, limit), limit);
      assert ([record] + after.records)[1..] == after.records;
      Associate(Taken(record), Rejoin(after.records), after.rest);
    }
  }

  /** For every stream and every chunking: the records with their newlines, plus
      what is still pending, are exactly the input; every record is within the
      limit and holds no newline; and neither does what is pending. */
  lemma {:induction false} FramingAccounts(pending: Bytes, chunks: seq<Bytes>, limit: nat)
    requires limit > 0 && !Ready(pending, limit)
    ensures var f := Feed(pending, chunks, limit);
            && Rejoin(f.records) + f.rest == pending + Concat(chunks)
            && WellCut(f.records, limit) && |f.rest| < limit && NEWLINE !in f.rest
    decreases |chunks|
  {
    if chunks == [] {
      assert pending + Concat(chunks) == pending;
    } else {
      hide Drain, Ready;
      var first := Drain(pending + chunks[0], limit);
      DrainAccounts(pending + chunks[0], limit);
      FramingAccounts(first.rest, chunks[1..], limit);
      var after := Feed(first.rest, chunks[1..], limit);
      RejoinConcat(first.records, after.records);
      Associate(Rejoin(first.records), Rejoin(after.records), after.rest);
      Associate(Rejoin(first.records), first.rest, Concat(chunks[1..]));
      Associate(pending, chunks[0], Concat(chunks[1..]));
    }
  }

  function WithoutNewlines(b: Bytes): Bytes {
    if b == [] then [] else (if b[0] == NEWLINE then [] else [b[0]]) + WithoutNewlines(b[1..])
  }

  function Payload(records: seq<Record>): Bytes {
    if records == [] then [] else records[0].bytes + Payload(records[1..])
  }

  lemma {:induction false} WithoutConcat(a: Bytes, b: Bytes)
    ensures WithoutNewlines(a + b) == WithoutNewlines(a) + WithoutNewlines(b)
  {
    if a == [] {
      assert a + b == b;
    } else {
      assert (a + b)[1..] == a[1..] + b;
      WithoutConcat(a[1..], b);
    }
  }

  lemma {:induction false} WithoutNothing(b: Bytes)
    requires NEWLINE !in b
    ensures WithoutNewlines(b) == b
  {
    if b != [] {
      WithoutNothing(b[1..]);
    }
  }

  lemma PayloadOfRecord(r: Record)
    requires NEWLINE !in r.bytes
    ensures WithoutNewlines(Taken(r)) == r.bytes
  {
    WithoutConcat(r.bytes, if r.ended then [NEWLINE] else []);
    WithoutNothing(r.bytes);
    assert WithoutNewlines([NEWLINE]) == [];
  }

  lemma {:induction false} PayloadOfRecords(records: seq<Record>, limit: nat)
    requires WellCut(records, limit)
    ensures WithoutNewlines(Rejoin(records)) == Payload(records)
  {
    if records != [] {
      var r := records[0];
      WithoutConcat(Taken(r), Rejoin(records[1..]));
      hide WithoutNewlines;
      PayloadOfRecord(r);
      PayloadOfRecords(records[1..], limit);
    }
  }

  /** The emitted text and the pending bytes are the input without its newlines. */
  lemma RecordsCarryInput(chunks: seq<Bytes>, limit: nat)
    requires limit > 0
    ensures var f := Feed([], chunks, limit);
            Payload(f.records) + f.rest == WithoutNewlines(Concat(chunks))
  {
    var f := Feed([], chunks, limit);
    FramingAccounts([], chunks, limit);
    assert [] + Concat(chunks) == Concat(chunks);
    PayloadOfRecords(f.records, limit);
    WithoutConcat(Rejoin(f.records), f.rest);
    WithoutNothing(f.rest);
  }
}
