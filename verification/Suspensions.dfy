/** Placement suspensions: each call reads a revision and then compares and
    swaps, so calls of any number of gateways interleave between the two. */
module Suspensions {
  import opened Wrappers
  import opened PrefixRange
  import opened EtcdStore

  /** A call between its read and its transaction. */
  datatype Call = Suspending(key: Bytes, readRev: nat) | Resuming(key: Bytes, readRev: nat)

  datatype State = State(store: Store, calls: map<nat, Call>)

  datatype Step =
    | ReadForSuspend(call: nat, key: Bytes)
    | ConfirmSuspend(call: nat)
    | ReadForResume(call: nat, key: Bytes)
    | RemoveSuspension(call: nat)
    | GiveUp(call: nat)
    | OtherPut(key: Bytes, value: Bytes, lease: nat)
    | OtherDelete(key: Bytes)

  /** Suspension keys, as opposed to the node and claim namespaces. */
  predicate IsSuspension(key: Bytes, prefix: Bytes) {
    StartsWith(key, prefix)
  }

  /** A read of one exact key through a prefix snapshot: the first record whose
      key is that key, if any. */
  function ReadRevision(s: Store, key: Bytes): nat {
    var records := Under(s, key);
    if key in records then records[key].rev else 0
  }

  predicate Enabled(s: State, step: Step, prefix: Bytes) {
    match step
    case ReadForSuspend(call, key) => call !in s.calls && IsSuspension(key, prefix)
    case ConfirmSuspend(call) => call in s.calls && s.calls[call].Suspending?
    case ReadForResume(call, key) => call !in s.calls && IsSuspension(key, prefix)
    case RemoveSuspension(call) => call in s.calls && s.calls[call].Resuming?
    case GiveUp(call) => call in s.calls
    case OtherPut(key, _, _) => !IsSuspension(key, prefix)
    case OtherDelete(key) => !IsSuspension(key, prefix)
  }

  /** The value a suspension carries, {"reason":"manual_teardown"}. Only the
      presence of the key is ever interpreted. */
  const REASON: Bytes := [
    123, 34, 114, 101, 97, 115, 111, 110, 34, 58, 34, 109, 97, 110,
    117, 97, 108, 95, 116, 101, 97, 114, 100, 111, 119, 110, 34, 125]

  function Next(s: State, step: Step, prefix: Bytes): State
    requires Enabled(s, step, prefix)
  {
    match step
    case ReadForSuspend(call, key) => s.(calls := s.calls[call := Suspending(key, ReadRevision(s.store, key))])
    case ConfirmSuspend(call) =>
      var c := s.calls[call];
      State(ReplaceIfRevision(s.store, c.key, REASON, c.readRev, 0).0, s.calls - {call})
    case ReadForResume(call, key) =>
      // Nothing to resume: the call returns at once.
      if ReadRevision(s.store, key) == 0 then s
      else s.(calls := s.calls[call := Resuming(key, ReadRevision(s.store, key))])
    case RemoveSuspension(call) =>
      var c := s.calls[call];
      State(DeleteIfRevision(s.store, c.key, c.readRev).0, s.calls - {call})
    case GiveUp(call) => s.(calls := s.calls - {call})
    case OtherPut(key, value, lease) => s.(store := Put(s.store, key, value, lease))
    case OtherDelete(key) => s.(store := Delete(s.store, key))
  }

  function Run(s: State, steps: seq<Step>, prefix: Bytes): Option<State> {
    if steps == [] then Some(s)
    else
      var before := Run(s, steps[..|steps| - 1], prefix);
      if before.Some? && Enabled(before.value, steps[|steps| - 1], prefix)
      then Some(Next(before.value, steps[|steps| - 1], prefix))
      else None
  }

  /** No call has read a revision the store has not reached. */
  ghost predicate Inv(s: State, prefix: Bytes) {
    && WellFormed(s.store)
    && (forall c | c in s.calls :: IsSuspension(s.calls[c].key, prefix) && s.calls[c].readRev <= s.store.rev)
    && (forall c | c in s.calls && s.calls[c].Resuming? :: s.calls[c].readRev > 0)
  }

  lemma StepKeeps(s: State, step: Step, prefix: Bytes)
    requires Inv(s, prefix) && Enabled(s, step, prefix)
    ensures Inv(Next(s, step, prefix), prefix) && s.store.rev <= Next(s, step, prefix).store.rev
  {
  }

  lemma {:induction false} RunKeeps(s: State, steps: seq<Step>, prefix: Bytes)
    requires Inv(s, prefix) && Run(s, steps, prefix).Some?
    ensures Inv(Run(s, steps, prefix).value, prefix)
  {
    if steps != [] {
      RunKeeps(s, steps[..|steps| - 1], prefix);
      StepKeeps(Run(s, steps[..|steps| - 1], prefix).value, steps[|steps| - 1], prefix);
    }
  }

  /** The suspension of `key` written at revision r is still in force. */
  ghost predicate Suspended(s: State, key: Bytes, r: nat) {
    key in s.store.kvs && s.store.kvs[key].rev >= r
  }

  /** Step k removed the key, for a call that itself read a revision of at least
      r, in a read made after the run began. */
  ghost predicate ResumedAt(s: State, steps: seq<Step>, k: nat, prefix: Bytes, key: Bytes, r: nat) {
    && k < |steps| && steps[k].RemoveSuspension?
    && Run(s, steps[..k], prefix).Some?
    && var before := Run(s, steps[..k], prefix).value;
       var call := steps[k].call;
       && call in before.calls && before.calls[call].Resuming?
       && before.calls[call].key == key && before.calls[call].readRev >= r
       && before.calls[call].readRev == ModRevision(before.store, key)
       && ReadForResume(call, key) in steps[..k]
  }

  /** A call in flight was in flight at the start, or made its read during the run. */
  lemma {:induction false} CallsHaveReads(s: State, steps: seq<Step>, prefix: Bytes, call: nat)
    requires Run(s, steps, prefix).Some?
    requires call in Run(s, steps, prefix).value.calls
    requires Run(s, steps, prefix).value.calls[call].Resuming?
    ensures var c := Run(s, steps, prefix).value.calls[call];
            (call in s.calls && s.calls[call] == c) || ReadForResume(call, c.key) in steps
  {
    if steps != [] {
      var n := |steps| - 1;
      var before := Run(s, steps[..n], prefix).value;
      assert steps == steps[..n] + [steps[n]];
      if call in before.calls {
        CallsHaveReads(s, steps[..n], prefix, call);
      }
    }
  }

  /** Main theorem. Let a suspend call be confirmed at revision r in state s.
      After any further steps of any number of clients, the suspension is still
      in force, or some resume that read revision r or later (and so read after
      the confirmation) removed it. */
  lemma {:induction false} SuspensionHolds(s: State, call: nat, steps: seq<Step>, prefix: Bytes)
    requires Inv(s, prefix) && Enabled(s, ConfirmSuspend(call), prefix)
    requires ModRevision(s.store, s.calls[call].key) == s.calls[call].readRev
    requires Run(Next(s, ConfirmSuspend(call), prefix), steps, prefix).Some?
    ensures var confirmed := Next(s, ConfirmSuspend(call), prefix);
            var key, r := s.calls[call].key, s.store.rev + 1;
            || Suspended(Run(confirmed, steps, prefix).value, key, r)
            || exists k: nat :: ResumedAt(confirmed, steps, k, prefix, key, r)
  {
    var confirmed := Next(s, ConfirmSuspend(call), prefix);
    StepKeeps(s, ConfirmSuspend(call), prefix);
    var key, r := s.calls[call].key, s.store.rev + 1;
    if steps != [] {
      var n := |steps| - 1;
      var before := Run(confirmed, steps[..n], prefix).value;
      SuspensionHolds(s, call, steps[..n], prefix);
      if Suspended(before, key, r) {
        LastStepHolds(confirmed, steps, prefix, key, r);
      } else {
        var k: nat :| ResumedAt(confirmed, steps[..n], k, prefix, key, r);
        assert steps[..n][..k] == steps[..k];
        assert ResumedAt(confirmed, steps, k, prefix, key, r);
      }
    }
  }

  lemma LastStepHolds(s: State, steps: seq<Step>, prefix: Bytes, key: Bytes, r: nat)
    requires Inv(s, prefix) && IsSuspension(key, prefix)
    requires steps != [] && Run(s, steps, prefix).Some?
    requires forall c | c in s.calls :: s.calls[c].readRev < r
    requires Suspended(Run(s, steps[..|steps| - 1], prefix).value, key, r)
    ensures Suspended(Run(s, steps, prefix).value, key, r) || exists k: nat :: ResumedAt(s, steps, k, prefix, key, r)
  {
    var n := |steps| - 1;
    var before := Run(s, steps[..n], prefix).value;
    RunKeeps(s, steps[..n], prefix);
    if !Suspended(Run(s, steps, prefix).value, key, r) {
      var call := steps[n].call;
      CallsHaveReads(s, steps[..n], prefix, call);
      assert ResumedAt(s, steps, n, prefix, key, r);
    }
  }

  /** And a call that nobody disturbs does what it is for: the read and the transaction
      of a suspend leave the key present, those of a resume leave it absent. */
  lemma UndisturbedCalls(s: State, call: nat, key: Bytes, prefix: Bytes)
    requires Inv(s, prefix) && call !in s.calls && IsSuspension(key, prefix)
    ensures var read := Next(s, ReadForSuspend(call, key), prefix);
            && Enabled(read, ConfirmSuspend(call), prefix)
            && var done := Next(read, ConfirmSuspend(call), prefix);
               key in done.store.kvs && done.store.kvs[key].rev == s.store.rev + 1 && done.calls == s.calls
    ensures var read := Next(s, ReadForResume(call, key), prefix);
            if key !in s.store.kvs then read == s
            else
              && Enabled(read, RemoveSuspension(call), prefix)
              && var done := Next(read, RemoveSuspension(call), prefix);
                 done.store.kvs == s.store.kvs - {key} && done.calls == s.calls
  {
  }

  /** The store calls themselves, run without interruption: a suspension becomes
      present, a resume leaves none. */
  method Suspend(client: EtcdClient, key: Bytes) returns (revision: Option<nat>)
    requires WellFormed(client.store)
    modifies client
    ensures WellFormed(client.store)
    ensures revision == Some(old(client.store).rev + 1)
    ensures client.store == Put(old(client.store), key, REASON, 0)
    ensures client.store.kvs == old(client.store).kvs[key := Kv(REASON, old(client.store).rev + 1, 0)]
  {
    var records, _ := client.GetSnapshot(key);
    revision := client.Replace(key, REASON, if key in records then records[key].rev else 0, 0);
  }

  method Resume(client: EtcdClient, key: Bytes) returns (ok: bool)
    requires WellFormed(client.store)
    modifies client
    ensures ok && WellFormed(client.store)
    ensures client.store == Delete(old(client.store), key)
    ensures client.store.kvs == old(client.store).kvs - {key}
  {
    var records, _ := client.GetSnapshot(key);
    if key !in records {
      return true;
    }
    ok := client.DeleteRevision(key, records[key].rev);
  }
}
