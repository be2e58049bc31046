/** Lease adoption: gateways that each watch the node keys compete to attach a
    lease of their own to a registration that has none, while other writers put
    and delete the same keys. */
module Leases {
  import opened Wrappers
  import opened PrefixRange
  import opened EtcdStore

  datatype Observation = Observation(value: Bytes, rev: nat, lease: nat)

  /** One gateway's lease metadata, keyed by the node's etcd key. */
  datatype Records = Records(byKey: map<Bytes, Observation>, ready: bool)

  // --------------------------------------------------- one manager's metadata

  function AfterPut(r: Records, key: Bytes, seen: Observation): Records {
    if key !in r.byKey || seen.rev >= r.byKey[key].rev then r.(byKey := r.byKey[key := seen]) else r
  }

  function AfterDelete(r: Records, key: Bytes, rev: nat): Records {
    if key !in r.byKey || rev >= r.byKey[key].rev then r.(byKey := r.byKey - {key}) else r
  }

  function AfterAdoption(r: Records, key: Bytes, seen: Observation, lease: nat): Records {
    if Get(r.byKey, key) == Some(seen) then r.(byKey := r.byKey[key := seen.(lease := lease)]) else r
  }

  function AfterExpiry(r: Records, key: Bytes, seen: Observation): Records {
    if Get(r.byKey, key) == Some(seen) then r.(byKey := r.byKey - {key}) else r
  }

  datatype Maintenance = Nothing | Refresh(seen: Observation) | Adopt(seen: Observation)

  /** `NodeLeaseManager`: metadata and the decision after a successful probe. */
  class NodeLeaseManager {
    var records: Records

    constructor ()
      ensures records == Records(map[], false)
    {
      records := Records(map[], false);
    }

    method ReconcileSnapshot(found: map<Bytes, Observation>)
      modifies this
      ensures records == Records(found, true)
    {
      records := Records(found, true);
    }

    method ObservePut(key: Bytes, seen: Observation)
      modifies this
      ensures records == AfterPut(old(records), key, seen)
      ensures records.byKey == old(records).byKey[key :=
                if key in old(records).byKey && old(records).byKey[key].rev > seen.rev then old(records).byKey[key] else seen]
    {
      if key !in records.byKey || seen.rev >= records.byKey[key].rev {
        records := records.(byKey := records.byKey[key := seen]);
      }
    }

    method ObserveDelete(key: Bytes, rev: nat)
      modifies this
      ensures records == AfterDelete(old(records), key, rev)
      ensures records.byKey ==
              if key in old(records).byKey && old(records).byKey[key].rev > rev then old(records).byKey else old(records).byKey - {key}
    {
      if key !in records.byKey || rev >= records.byKey[key].rev {
        records := records.(byKey := records.byKey - {key});
      }
    }

    /** `maintain_after_success`: adoption is considered only with a snapshot, for
        a managed and healthy node whose observed registration has no lease. */
    method MaintainAfterSuccess(key: Bytes, managed: bool, healthy: bool) returns (action: Maintenance)
      ensures action.Adopt? <==> managed && healthy && records.ready
                                 && key in records.byKey && records.byKey[key].lease == 0
      ensures action.Refresh? <==> managed && healthy && records.ready
                                   && key in records.byKey && records.byKey[key].lease != 0
      ensures !action.Nothing? ==> Get(records.byKey, key) == Some(action.seen)
    {
      if !managed || !healthy || !records.ready || key !in records.byKey {
        return Nothing;
      }
      var seen := records.byKey[key];
      action := if seen.lease != 0 then Maintenance.Refresh(seen) else Maintenance.Adopt(seen);
    }

    /** The tail of `_adopt`, after a successful transaction. */
    method PublishAdoption(key: Bytes, seen: Observation, lease: nat)
      modifies this
      ensures records == AfterAdoption(old(records), key, seen, lease)
    {
      if key in records.byKey && records.byKey[key] == seen {
        records := records.(byKey := records.byKey[key := seen.(lease := lease)]);
      }
    }

    method DiscardIfCurrent(key: Bytes, seen: Observation)
      modifies this
      ensures records == AfterExpiry(old(records), key, seen)
    {
      if key in records.byKey && records.byKey[key] == seen {
        records := records.(byKey := records.byKey - {key});
      }
    }

    /** `_adopt` with the lease just granted for it. Whoever wins the key, no value
        changes and no key is lost: on success the observed registration carries the
        lease, at the next revision; on refusal the store is as if nothing happened,
        revocation included. The metadata follows only if it is still what the
        adoption started from. */
    method Adopt(client: EtcdClient, key: Bytes, seen: Observation, lease: nat) returns (attached: bool)
      requires seen.lease == 0 && seen.rev > 0 && lease != 0
      requires forall k | k in client.store.kvs :: client.store.kvs[k].lease != lease
      requires ModRevision(client.store, key) == seen.rev ==> client.store.kvs[key].value == seen.value
      modifies this, client
      ensures attached <==> Get(old(client.store).kvs, key) == Some(Kv(seen.value, seen.rev, 0))
      ensures attached ==> Get(client.store.kvs, key) == Some(Kv(seen.value, old(client.store).rev + 1, lease))
      ensures !attached ==> client.store == old(client.store) && records == old(records)
      ensures forall k | k != key :: Get(client.store.kvs, k) == Get(old(client.store).kvs, k)
      ensures forall k | k != key :: Get(records.byKey, k) == Get(old(records).byKey, k)
      ensures attached && Get(old(records).byKey, key) == Some(seen) ==>
                Get(records.byKey, key) == Some(seen.(lease := lease))
      ensures Get(old(records).byKey, key) != Some(seen) ==> records == old(records)
    {
      attached := client.AttachLease(key, seen.value, seen.rev, 0, lease);
      if !attached {
        client.Revoke(lease);
        return;
      }
      PublishAdoption(key, seen, lease);
    }

    /** `_refresh`; None when the keep-alive call failed. Only an expired lease drops
        metadata, and only the metadata it was read from. */
    method Refresh(key: Bytes, seen: Observation, remaining: Option<int>)
      modifies this
      ensures forall k | k != key :: Get(records.byKey, k) == Get(old(records).byKey, k)
      ensures Get(records.byKey, key) ==
              if remaining == Some(-1) && Get(old(records).byKey, key) == Some(seen) then None
              else Get(old(records).byKey, key)
    {
      if remaining == Some(-1) {
        DiscardIfCurrent(key, seen);
      }
    }

    /** `maintain_after_success` as a whole, with the lease it is granted if it asks
        for one and the answer to its keep-alive if it sends one: it writes no value and
        removes no key. It adopts exactly when the registration is still the leaseless one
        it observed, and it forgets exactly an observation whose lease has expired. */
    method Maintain(client: EtcdClient, key: Bytes, managed: bool, healthy: bool, lease: nat, remaining: Option<int>)
      requires lease != 0 && forall k | k in client.store.kvs :: client.store.kvs[k].lease != lease
      requires key in records.byKey && records.byKey[key].lease == 0 ==>
                 && records.byKey[key].rev > 0
                 && (ModRevision(client.store, key) == records.byKey[key].rev ==>
                       client.store.kvs[key].value == records.byKey[key].value)
      modifies this, client
      ensures client.store.kvs.Keys == old(client.store).kvs.Keys
      ensures forall k | k in client.store.kvs :: client.store.kvs[k].value == old(client.store).kvs[k].value
      ensures var seen := Get(old(records).byKey, key);
              var adopts := managed && healthy && old(records).ready && seen.Some? && seen.value.lease == 0
                && Get(old(client.store).kvs, key) == Some(Kv(seen.value.value, seen.value.rev, 0));
              var expired := managed && healthy && old(records).ready && seen.Some? && seen.value.lease != 0 && remaining == Some(-1);
              && (!adopts ==> client.store == old(client.store))
              && (adopts ==>
                    && Get(client.store.kvs, key) == Some(Kv(seen.value.value, old(client.store).rev + 1, lease))
                    && forall k | k != key :: Get(client.store.kvs, k) == Get(old(client.store).kvs, k))
              && Get(records.byKey, key) ==
                 (if adopts then Some(seen.value.(lease := lease)) else if expired then None else seen)
    {
      var action := MaintainAfterSuccess(key, managed, healthy);
      match action {
        case Nothing =>
        case Refresh(seen) => Refresh(key, seen, remaining);
        case Adopt(seen) =>
          var attached := Adopt(client, key, seen, lease);
          assert forall k | k != key :: Get(client.store.kvs, k) == Get(old(client.store).kvs, k);
          assert forall k :: k in client.store.kvs <==> Get(client.store.kvs, k).Some?;
          assert forall k :: k in old(client.store).kvs <==> Get(old(client.store).kvs, k).Some?;
      }
    }
  }

  // ------------------------------------------------------------ state machine

  datatype Phase = Granted | Attached | Refused

  /** One `_adopt` call in flight, with the lease granted for it. */
  datatype Adoption = Adoption(manager: nat, key: Bytes, seen: Observation, lease: nat, phase: Phase)

  /** A transaction that attached `lease` to the observed revision of a key. */
  datatype Win = Win(task: nat, key: Bytes, rev: nat, lease: nat)

  datatype State = State(
    store: Store,
    managers: map<nat, Records>,
    tasks: map<nat, Adoption>,
    foreign: set<nat>,                       // leases granted to other writers
    nextLease: nat,                          // every lease granted so far is below this
    // Auxiliary: every (key, revision) ever written, and the adoptions that won.
    written: map<(Bytes, nat), Observation>,
    wins: seq<Win>)

  datatype Step =
    | WriterGrants
    | WriterPuts(key: Bytes, value: Bytes, lease: nat)
    | WriterDeletes(key: Bytes)
    | LeaseExpires(lease: nat)
    | SnapshotSeen(manager: nat, found: map<Bytes, Observation>)
    | PutSeen(manager: nat, key: Bytes, seen: Observation)
    | DeleteSeen(manager: nat, key: Bytes, rev: nat)
    | ExpirySeen(manager: nat, key: Bytes, seen: Observation)
    | GrantForAdoption(task: nat, manager: nat, key: Bytes)
    | TryAttach(task: nat)
    | Publish(task: nat)
    | RevokeUnused(task: nat)

  /** A manager may have seen any write of the past, with the value and the lease
      it really had. */
  ghost predicate Truthful(s: State, key: Bytes, seen: Observation) {
    (key, seen.rev) in s.written && s.written[(key, seen.rev)] == seen
  }

  ghost predicate Enabled(s: State, step: Step) {
    match step
    case WriterGrants => true
    case WriterPuts(_, _, lease) => lease == 0 || lease in s.foreign
    case WriterDeletes(_) => true
    case LeaseExpires(lease) => lease != 0
    case SnapshotSeen(m, found) => m in s.managers && forall key | key in found :: Truthful(s, key, found[key])
    case PutSeen(m, key, seen) => m in s.managers && Truthful(s, key, seen)
    case DeleteSeen(m, _, _) => m in s.managers
    case ExpirySeen(m, _, _) => m in s.managers
    case GrantForAdoption(task, m, key) =>
      && task !in s.tasks && m in s.managers && s.managers[m].ready
      && key in s.managers[m].byKey && s.managers[m].byKey[key].lease == 0
    case TryAttach(task) => task in s.tasks && s.tasks[task].phase.Granted?
    case Publish(task) => task in s.tasks && s.tasks[task].phase.Attached? && s.tasks[task].manager in s.managers
    case RevokeUnused(task) => task in s.tasks && s.tasks[task].phase.Refused?
  }

  function Noted(written: map<(Bytes, nat), Observation>, s: Store, key: Bytes, value: Bytes, lease: nat):
    map<(Bytes, nat), Observation>
  {
    written[(key, s.rev + 1) := Observation(value, s.rev + 1, lease)]
  }

  function Attempt(s: State, task: nat): (Store, bool)
    requires task in s.tasks
  {
    var a := s.tasks[task];
    AttachLeaseIfCurrent(s.store, a.key, a.seen.value, a.seen.rev, a.seen.lease, a.lease)
  }

  function Next(s: State, step: Step): State
    requires Enabled(s, step)
  {
    match step
    case WriterGrants => s.(foreign := s.foreign + {s.nextLease}, nextLease := s.nextLease + 1)
    case WriterPuts(key, value, lease) =>
      s.(store := Put(s.store, key, value, lease), written := Noted(s.written, s.store, key, value, lease))
    case WriterDeletes(key) => s.(store := Delete(s.store, key))
    case LeaseExpires(lease) => s.(store := RevokeLease(s.store, lease))
    case SnapshotSeen(m, found) => s.(managers := s.managers[m := Records(found, true)])
    case PutSeen(m, key, seen) => s.(managers := s.managers[m := AfterPut(s.managers[m], key, seen)])
    case DeleteSeen(m, key, rev) => s.(managers := s.managers[m := AfterDelete(s.managers[m], key, rev)])
    case ExpirySeen(m, key, seen) => s.(managers := s.managers[m := AfterExpiry(s.managers[m], key, seen)])
    case GrantForAdoption(task, m, key) =>
      s.(tasks := s.tasks[task := Adoption(m, key, s.managers[m].byKey[key], s.nextLease, Granted)],
         nextLease := s.nextLease + 1)
    case TryAttach(task) =>
      var a := s.tasks[task];
      var (after, attached) := Attempt(s, task);
      if attached then
        s.(store := after, written := Noted(s.written, s.store, a.key, a.seen.value, a.lease),
           tasks := s.tasks[task := a.(phase := Attached)],
           wins := s.wins + [Win(task, a.key, a.seen.rev, a.lease)])
      else s.(tasks := s.tasks[task := a.(phase := Refused)])
    case Publish(task) =>
      var a := s.tasks[task];
      s.(managers := s.managers[a.manager := AfterAdoption(s.managers[a.manager], a.key, a.seen, a.lease)],
         tasks := s.tasks - {task})
    case RevokeUnused(task) =>
      s.(store := RevokeLease(s.store, s.tasks[task].lease), tasks := s.tasks - {task})
  }

  ghost predicate Initial(s: State) {
    && WellFormed(s.store) && s.nextLease > 0 && s.tasks == map[] && s.wins == []
    && (forall key | key in s.store.kvs ::
          s.store.kvs[key].lease == 0 || s.store.kvs[key].lease in s.foreign)
    && (forall lease | lease in s.foreign :: 0 < lease < s.nextLease)
    && StoreInv(s)
    && (forall m | m in s.managers :: s.managers[m] == Records(map[], false))
  }

  ghost function Run(s: State, steps: seq<Step>): Option<State> {
    if steps == [] then Some(s)
    else
      var before := Run(s, steps[..|steps| - 1]);
      if before.Some? && Enabled(before.value, steps[|steps| - 1])
      then Some(Next(before.value, steps[|steps| - 1]))
      else None
  }

  // ---------------------------------------------------------------- invariant

  /** The store is what was last written, and nothing was written in the future. */
  ghost predicate StoreInv(s: State) {
    && WellFormed(s.store)
    && (forall key | key in s.store.kvs ::
          Truthful(s, key, Observation(s.store.kvs[key].value, s.store.kvs[key].rev, s.store.kvs[key].lease)))
    && (forall key, rev | (key, rev) in s.written :: 0 < rev <= s.store.rev)
  }

  /** Leaseless metadata is exact. (Metadata of an adopted key keeps the revision
      the adoption replaced, and is never used for another adoption.) */
  ghost predicate MetadataInv(s: State) {
    && (forall m, key | m in s.managers && key in s.managers[m].byKey && s.managers[m].byKey[key].lease == 0 ::
          Truthful(s, key, s.managers[m].byKey[key]))
    && (forall t | t in s.tasks :: s.tasks[t].seen.lease == 0 && Truthful(s, s.tasks[t].key, s.tasks[t].seen))
  }

  /** A granted lease belongs to one task, and sits on a key only if it was attached. */
  ghost predicate LeaseInv(s: State) {
    && s.nextLease > 0
    && (forall lease | lease in s.foreign :: 0 < lease < s.nextLease)
    && (forall key | key in s.store.kvs :: s.store.kvs[key].lease < s.nextLease)
    && (forall t | t in s.tasks :: 0 < s.tasks[t].lease < s.nextLease && s.tasks[t].lease !in s.foreign)
    && (forall t, u | t in s.tasks && u in s.tasks && t != u :: s.tasks[t].lease != s.tasks[u].lease)
    && (forall t, key | t in s.tasks && !s.tasks[t].phase.Attached? && key in s.store.kvs ::
          s.store.kvs[key].lease != s.tasks[t].lease)
  }

  /** A revision that an adoption replaced is gone for good. */
  ghost predicate WinInv(s: State) {
    && (forall i | 0 <= i < |s.wins| ::
          s.wins[i].rev <= s.store.rev && 0 < s.wins[i].rev && ModRevision(s.store, s.wins[i].key) != s.wins[i].rev)
    && (forall i, j | 0 <= i < j < |s.wins| :: (s.wins[i].key, s.wins[i].rev) != (s.wins[j].key, s.wins[j].rev))
  }

  ghost predicate Inv(s: State) {
    StoreInv(s) && MetadataInv(s) && LeaseInv(s) && WinInv(s)
  }

  lemma InitialInv(s: State)
    requires Initial(s)
    ensures Inv(s)
  {
  }

  // ------------------------------------------------------------- preservation

  /** Writing a key at the next revision forgets nothing that was true. */
  lemma PutKeepsStore(s: State, key: Bytes, value: Bytes, lease: nat)
    requires StoreInv(s)
    ensures var t := s.(store := Put(s.store, key, value, lease), written := Noted(s.written, s.store, key, value, lease));
            StoreInv(t) && forall k, seen | Truthful(s, k, seen) :: Truthful(t, k, seen)
  {
  }

  lemma StoreStep(s: State, step: Step)
    requires Inv(s) && Enabled(s, step)
    ensures StoreInv(Next(s, step)) && s.store.rev <= Next(s, step).store.rev
    ensures forall k, seen | Truthful(s, k, seen) :: Truthful(Next(s, step), k, seen)
  {
    if step.WriterPuts? {
      PutKeepsStore(s, step.key, step.value, step.lease);
    } else if step.TryAttach? {
      var a := s.tasks[step.task];
      PutKeepsStore(s, a.key, a.seen.value, a.lease);
    }
  }

  lemma MetadataStep(s: State, step: Step)
    requires Inv(s) && Enabled(s, step)
    ensures MetadataInv(Next(s, step))
  {
    StoreStep(s, step);
    var t := Next(s, step);
    forall m, key | m in t.managers && key in t.managers[m].byKey && t.managers[m].byKey[key].lease == 0
      ensures Truthful(t, key, t.managers[m].byKey[key])
    {
      var seen := t.managers[m].byKey[key];
      if step.Publish? && m == s.tasks[step.task].manager {
        assert key in s.managers[m].byKey && s.managers[m].byKey[key] == seen;
      }
      assert Truthful(s, key, seen) || Truthful(t, key, seen);
    }
  }

  lemma LeaseRefused(s: State, t: State, task: nat)
    requires LeaseInv(s) && task in s.tasks && s.tasks[task].phase.Granted?
    requires t == s.(tasks := s.tasks[task := s.tasks[task].(phase := Refused)])
    ensures LeaseInv(t)
  {
  }

  lemma LeaseWon(s: State, t: State, task: nat, rev: nat)
    requires LeaseInv(s) && task in s.tasks
    requires var a := s.tasks[task];
             && t.tasks == s.tasks[task := a.(phase := Attached)]
             && t.store.kvs == s.store.kvs[a.key := Kv(a.seen.value, rev, a.lease)]
             && t.foreign == s.foreign && t.nextLease == s.nextLease
    ensures LeaseInv(t)
  {
  }

  lemma LeaseAttach(s: State, task: nat)
    requires LeaseInv(s) && Enabled(s, TryAttach(task))
    ensures LeaseInv(Next(s, TryAttach(task)))
  {
    hide LeaseInv;
    if Attempt(s, task).1 {
      LeaseWon(s, Next(s, TryAttach(task)), task, s.store.rev + 1);
    } else {
      LeaseRefused(s, Next(s, TryAttach(task)), task);
    }
  }

  /** Writes and revocations put only leases of other writers on a key. */
  lemma LeaseWrites(s: State, step: Step)
    requires LeaseInv(s) && Enabled(s, step)
    requires step.WriterPuts? || step.WriterDeletes? || step.LeaseExpires? || step.RevokeUnused?
    ensures LeaseInv(Next(s, step))
  {
  }

  lemma LeaseGrants(s: State, step: Step)
    requires LeaseInv(s) && Enabled(s, step) && Next(s, step).store == s.store && !step.TryAttach? && !step.RevokeUnused?
    ensures LeaseInv(Next(s, step))
  {
  }

  lemma LeaseStep(s: State, step: Step)
    requires Inv(s) && Enabled(s, step)
    ensures LeaseInv(Next(s, step))
  {
    hide LeaseInv;
    if step.TryAttach? {
      LeaseAttach(s, step.task);
    } else if step.WriterPuts? || step.WriterDeletes? || step.LeaseExpires? || step.RevokeUnused? {
      LeaseWrites(s, step);
    } else {
      LeaseGrants(s, step);
    }
  }

  /** The attach transaction succeeds exactly on the registration that was observed. */
  lemma MatchedIsCurrent(s: State, task: nat)
    requires Inv(s) && Enabled(s, TryAttach(task))
    ensures var a := s.tasks[task];
            Attempt(s, task).1 <==> Get(s.store.kvs, a.key) == Some(Kv(a.seen.value, a.seen.rev, 0))
  {
    var a := s.tasks[task];
    assert (a.key, a.seen.rev) in s.written;
  }

  lemma WinStep(s: State, step: Step)
    requires Inv(s) && Enabled(s, step)
    ensures WinInv(Next(s, step))
  {
    if step.TryAttach? {
      MatchedIsCurrent(s, step.task);
    }
  }

  lemma StepKeeps(s: State, step: Step)
    requires Inv(s) && Enabled(s, step)
    ensures Inv(Next(s, step))
  {
    StoreStep(s, step);
    MetadataStep(s, step);
    LeaseStep(s, step);
    WinStep(s, step);
  }

  lemma {:induction false} RunKeeps(s: State, steps: seq<Step>)
    requires Initial(s) && Run(s, steps).Some?
    ensures Inv(Run(s, steps).value)
  {
    if steps == [] {
      InitialInv(s);
    } else {
      RunKeeps(s, steps[..|steps| - 1]);
      StepKeeps(Run(s, steps[..|steps| - 1]).value, steps[|steps| - 1]);
    }
  }

  // ----------------------------------------------------------------- theorems

  /** In every reachable state an adoption's transaction changes no key's value
      and no other key at all, and it attaches only to the very revision and the
      absence of a lease that its manager observed. */
  lemma AdoptionIsExact(s: State, steps: seq<Step>, task: nat)
    requires Initial(s) && Run(s, steps).Some? && Enabled(Run(s, steps).value, TryAttach(task))
    ensures var before := Run(s, steps).value;
            var after := Next(before, TryAttach(task));
            var a := before.tasks[task];
            && after.store.kvs.Keys == before.store.kvs.Keys
            && (forall key | key in before.store.kvs :: after.store.kvs[key].value == before.store.kvs[key].value)
            && (forall key | key in before.store.kvs && key != a.key :: after.store.kvs[key] == before.store.kvs[key])
            && (after.tasks[task].phase.Attached? <==>
                Get(before.store.kvs, a.key) == Some(Kv(a.seen.value, a.seen.rev, 0)))
            && (after.tasks[task].phase.Attached? ==>
                after.store.kvs[a.key] == Kv(a.seen.value, before.store.rev + 1, a.lease))
            && (after.tasks[task].phase.Refused? ==> after.store == before.store)
  {
    RunKeeps(s, steps);
    MatchedIsCurrent(Run(s, steps).value, task);
  }

  /** Over a whole run, no two adoptions win the same revision of a key. */
  lemma OneWinnerPerRevision(s: State, steps: seq<Step>, i: nat, j: nat)
    requires Initial(s) && Run(s, steps).Some?
    requires i < j < |Run(s, steps).value.wins|
    ensures var wins := Run(s, steps).value.wins;
            wins[i].key != wins[j].key || wins[i].rev != wins[j].rev
  {
    RunKeeps(s, steps);
  }

  /** A lease revoked as unused is attached to nothing: the revocation deletes no
      key and leaves the whole store as it was. */
  lemma UnusedLeaseRevokesNothing(s: State, steps: seq<Step>, task: nat)
    requires Initial(s) && Run(s, steps).Some? && Enabled(Run(s, steps).value, RevokeUnused(task))
    ensures Next(Run(s, steps).value, RevokeUnused(task)).store == Run(s, steps).value.store
  {
    RunKeeps(s, steps);
  }

  /** A won adoption is recorded by its manager, unless something newer was observed in
      the meantime; no other metadata changes. */
  lemma WonAdoptionIsRecorded(s: State, steps: seq<Step>, task: nat)
    requires Initial(s) && Run(s, steps).Some? && Enabled(Run(s, steps).value, Publish(task))
    ensures var before := Run(s, steps).value;
            var a, after := before.tasks[task], Next(before, Publish(task));
            && task !in after.tasks && after.store == before.store
            && (Get(before.managers[a.manager].byKey, a.key) == Some(a.seen) ==>
                  Get(after.managers[a.manager].byKey, a.key) == Some(a.seen.(lease := a.lease)))
            && (Get(before.managers[a.manager].byKey, a.key) != Some(a.seen) ==> after.managers == before.managers)
            && (forall m, key | m in before.managers && (m != a.manager || key != a.key) ::
                  m in after.managers && Get(after.managers[m].byKey, key) == Get(before.managers[m].byKey, key))
  {
    hide Initial;
    var before := Run(s, steps).value;
    assert before.managers[before.tasks[task].manager := before.managers[before.tasks[task].manager]] == before.managers;
  }

  /** Why the report matters: had the refused transaction in fact committed, the
      same revocation would delete the registration it was meant to protect. */
  lemma AttachedLeaseRevokesKey(s: Store, key: Bytes, value: Bytes, rev: nat, lease: nat)
    requires Get(s.kvs, key) == Some(Kv(value, rev, 0)) && lease != 0
    ensures key !in RevokeLease(AttachLeaseIfCurrent(s, key, value, rev, 0, lease).0, lease).kvs
  {
    var after := AttachLeaseIfCurrent(s, key, value, rev, 0, lease).0;
    assert key in (set k | k in after.kvs && after.kvs[k].lease == lease);
  }
}
