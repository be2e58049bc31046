/** Every step keeps the registry a faithful picture of etcd, and the theorems
    about whole runs that follow. */
module DiscoveryTheorems {
  import opened Wrappers
  import opened Registry
  import opened EtcdHistory
  import opened Discovery

  // ------------------------------------------------------------ cluster steps

  lemma CommitKeepsOrder(h: History, now: nat, changes: seq<Event>)
    requires WellFormed(h, now)
    requires forall i | 0 <= i < |changes| :: changes[i].rev == now + 1
    requires forall i, j | 0 <= i < j < |changes| :: changes[i].key != changes[j].key
    ensures WellFormed(h + changes, now + 1)
  {
    assert forall i | |h| <= i < |h + changes| :: (h + changes)[i] == changes[i - |h|];
  }

  lemma CommitKeepsSnapshot(h: History, changes: seq<Event>, snapshot: Snapshot)
    requires FaithfulSnapshot(h, snapshot)
    requires forall e | e in changes :: snapshot.revision < e.rev
    ensures FaithfulSnapshot(h + changes, snapshot)
  {
    forall key ensures Newest(h + changes, key, snapshot.revision) == Newest(h, key, snapshot.revision) {
      NewestIgnoresLater(h, changes, key, snapshot.revision);
    }
  }

  lemma CommitKeeps(s: State, changes: seq<Event>, prefix: string)
    requires Inv(s, prefix) && Enabled(s, Commit(changes))
    ensures Inv(Next(s, Commit(changes), prefix), prefix)
  {
    var t := Next(s, Commit(changes), prefix);
    CommitKeepsOrder(s.history, s.now, changes);
    if s.fetched.Some? {
      CommitKeepsSnapshot(s.history, changes, s.fetched.value);
    }
    if s.synced {
      forall id: string | id != ""
        ensures Shows(Newest(t.history, KeyOf(prefix, id), Frontier(t, id)), Get(t.nodes, id))
      {
        NewestIgnoresLater(s.history, changes, KeyOf(prefix, id), Frontier(s, id));
      }
    }
  }

  // ---------------------------------------------------------------- snapshots

  /** What the records say about one id, whichever way it is looked up. */
  lemma {:induction false} SeedLookup(records: seq<Record>, prefix: string, id: string)
    requires id != ""
    requires forall i, j | 0 <= i < j < |records| :: records[i].key != records[j].key
    ensures id in SeededGates(records, prefix) <==> exists r | r in records :: r.key == KeyOf(prefix, id)
    ensures forall r | r in records && r.key == KeyOf(prefix, id) ::
              && SeededGates(records, prefix)[id] == r.rev
              && Get(FoundNodes(records, prefix), id) ==
                 if r.payload.Malformed? then None else Some(ParsedNode(id, r.payload))
    ensures id !in SeededGates(records, prefix) ==> id !in FoundNodes(records, prefix)
  {
    if records != [] {
      var n := |records| - 1;
      var last := records[n];
      SeedLookup(records[..n], prefix, id);
      assert records == records[..n] + [last];
      NodeIdInverse(last.key, prefix, id);
      if last.key == KeyOf(prefix, id) {
        forall r | r in records[..n] ensures r.key != last.key {
          var i :| 0 <= i < n && records[i] == r;
        }
      }
    }
  }

  lemma ReconcileEntry(s: State, prefix: string, id: string)
    requires Inv(s, prefix) && s.fetched.Some? && id != ""
    ensures var t := Next(s, ReconcileSnapshot, prefix);
            && Gate(t.marks, id) <= t.floor
            && Shows(Newest(t.history, KeyOf(prefix, id), t.floor), Get(t.nodes, id))
  {
    var snapshot := s.fetched.value;
    var records := snapshot.records;
    SeedLookup(records, prefix, id);
    var newest := Newest(s.history, KeyOf(prefix, id), snapshot.revision);
    NewestIsMember(s.history, KeyOf(prefix, id), snapshot.revision);
    if id in SeededGates(records, prefix) {
      var r :| r in records && r.key == KeyOf(prefix, id);
      assert newest == Some(Event(r.key, r.rev, Put(r.payload)));
    } else {
      assert newest.None? || newest.value.change.Delete?;
    }
  }

  lemma ReconcileKeeps(s: State, prefix: string)
    requires Inv(s, prefix) && Enabled(s, ReconcileSnapshot)
    ensures Inv(Next(s, ReconcileSnapshot, prefix), prefix)
    ensures forall id: string | id != "" ::
              Frontier(s, id) <= Frontier(Next(s, ReconcileSnapshot, prefix), id) == s.fetched.value.revision
  {
    var t := Next(s, ReconcileSnapshot, prefix);
    forall id: string | id != ""
      ensures Frontier(s, id) <= Frontier(t, id) == t.floor
      ensures Shows(Newest(t.history, KeyOf(prefix, id), Frontier(t, id)), Get(t.nodes, id))
    {
      ReconcileEntry(s, prefix, id);
    }
    SeedBound(s, prefix);
  }

  /** The registry agrees with the snapshot although the watcher never learns of it,
      and will ask for another one. */
  lemma ReconcileRaisesKeeps(s: State, prefix: string)
    requires Inv(s, prefix) && Enabled(s, ReconcileRaises)
    ensures Inv(Next(s, ReconcileRaises, prefix), prefix)
    ensures forall id: string | id != "" ::
              Frontier(s, id) <= Frontier(Next(s, ReconcileRaises, prefix), id) == s.fetched.value.revision
  {
    ReconcileKeeps(s, prefix);
    var t := Next(s, ReconcileSnapshot, prefix);
    assert Next(s, ReconcileRaises, prefix) == t.(resume := None, gates := s.gates);
    hide FaithfulSnapshot, Shows, RegistryAfterSnapshot, GatesAfterSnapshot, WellFormed;
    assert forall id :: Frontier(t.(resume := None, gates := s.gates), id) == Frontier(t, id);
  }

  /** What the seeded gates and the tombstones are for: of a node the registry knows, no
      event at or below the snapshot gets through any more, a late delete included. */
  lemma KnownNodesAreGated(s: State, prefix: string, event: Event, id: string)
    requires Inv(s, prefix) && Enabled(s, ReconcileSnapshot) && id != ""
    requires event in s.history && event.key == KeyOf(prefix, id) && event.rev <= s.fetched.value.revision
    requires id in Next(s, ReconcileSnapshot, prefix).nodes
    ensures Stale(event, Next(s, ReconcileSnapshot, prefix).gates, prefix)
  {
    var snapshot := s.fetched.value;
    var key := KeyOf(prefix, id);
    SeedLookup(snapshot.records, prefix, id);
    NodeIdInverse(key, prefix, id);
    NewestIsMaximal(s.history, key, snapshot.revision, s.now);
    assert Concerns(event, key, snapshot.revision);
    if id in SeededGates(snapshot.records, prefix) {
      var r :| r in snapshot.records && r.key == key;
      var i :| 0 <= i < |snapshot.records| && snapshot.records[i] == r;
      assert Newest(s.history, key, snapshot.revision) == Some(Event(r.key, r.rev, Put(r.payload)));
    }
  }

  /** No gate a snapshot seeds lies above the snapshot revision. */
  lemma SeedBound(s: State, prefix: string)
    requires Inv(s, prefix) && s.fetched.Some?
    ensures var t := Next(s, ReconcileSnapshot, prefix);
            forall id | id in t.marks :: t.marks[id] <= t.floor
  {
    var snapshot := s.fetched.value;
    forall r | r in snapshot.records ensures r.rev <= snapshot.revision {
      var i :| 0 <= i < |snapshot.records| && snapshot.records[i] == r;
      NewestIsMember(s.history, r.key, snapshot.revision);
    }
    SeedValues(snapshot.records, prefix, snapshot.revision);
  }

  lemma {:induction false} SeedValues(records: seq<Record>, prefix: string, bound: nat)
    requires forall r | r in records :: r.rev <= bound
    ensures forall id | id in SeededGates(records, prefix) :: SeededGates(records, prefix)[id] <= bound
  {
    if records != [] {
      SeedValues(records[..|records| - 1], prefix, bound);
    }
  }

  // ------------------------------------------------------------------- events

  /** The gates let through only events above the resume point. */
  lemma AppliedIsNew(s: State, prefix: string)
    requires Inv(s, prefix) && Enabled(s, ApplyEvent)
    requires !Stale(s.batch.value.events[0], s.gates, prefix)
    ensures var event := s.batch.value.events[0];
            event in s.history && Frontier(s, NodeId(event.key, prefix).value) < event.rev <= s.now
  {
    var event := s.batch.value.events[0];
    assert event in s.batch.value.events;
  }

  /** An event that passes its gate becomes what the entry shows. */
  lemma AppliedIsShown(s: State, prefix: string)
    requires Inv(s, prefix) && Enabled(s, ApplyEvent)
    requires !Stale(s.batch.value.events[0], s.gates, prefix)
    ensures var event := s.batch.value.events[0];
            var id := NodeId(event.key, prefix).value;
            var t := Next(s, ApplyEvent, prefix);
            && Frontier(t, id) == event.rev
            && Shows(Newest(s.history, KeyOf(prefix, id), event.rev), Get(t.nodes, id))
  {
    var event := s.batch.value.events[0];
    AppliedIsNew(s, prefix);
    NodeIdInverse(event.key, prefix, NodeId(event.key, prefix).value);
    NewestUnique(s.history, s.now, event, event.rev);
  }

  lemma ApplyKeepsReflects(s: State, prefix: string)
    requires Inv(s, prefix) && Enabled(s, ApplyEvent)
    ensures Reflects(Next(s, ApplyEvent, prefix), prefix)
    ensures forall id :: Frontier(s, id) <= Frontier(Next(s, ApplyEvent, prefix), id)
  {
    var t := Next(s, ApplyEvent, prefix);
    var event := s.batch.value.events[0];
    if !Stale(event, s.gates, prefix) {
      AppliedIsNew(s, prefix);
      AppliedIsShown(s, prefix);
      var changed := NodeId(event.key, prefix).value;
      forall id: string | id != "" && id != changed
        ensures Get(t.nodes, id) == Get(s.nodes, id) && Frontier(t, id) == Frontier(s, id)
      {
      }
    }
  }

  lemma ApplyKeepsDelivered(s: State, prefix: string)
    requires Inv(s, prefix) && Enabled(s, ApplyEvent)
    ensures Delivered(Next(s, ApplyEvent, prefix), prefix)
  {
    hide WellFormed, Reflects;
    var t := Next(s, ApplyEvent, prefix);
    var events := s.batch.value.events;
    var event := events[0];
    assert events == [event] + events[1..];
    if !Stale(event, s.gates, prefix) {
      AppliedIsNew(s, prefix);
    }
    assert forall id :: Gate(s.gates, id) <= Gate(t.gates, id);
  }

  lemma ApplyEventKeeps(s: State, prefix: string)
    requires Inv(s, prefix) && Enabled(s, ApplyEvent)
    ensures Inv(Next(s, ApplyEvent, prefix), prefix)
    ensures forall id :: Frontier(s, id) <= Frontier(Next(s, ApplyEvent, prefix), id)
  {
    if !Stale(s.batch.value.events[0], s.gates, prefix) {
      AppliedIsNew(s, prefix);
    }
    ApplyKeepsReflects(s, prefix);
    ApplyKeepsDelivered(s, prefix);
  }

  /** When the queue is empty, nothing of any key lies between its frontier and the
      header revision. */
  lemma NothingQueued(s: State, prefix: string, id: string, e: Event)
    requires Inv(s, prefix) && Enabled(s, FinishBatch) && id != ""
    requires e in s.history && e.key == KeyOf(prefix, id) && Frontier(s, id) < e.rev
    ensures Frontier(Next(s, FinishBatch, prefix), id) < e.rev
  {
    hide Reflects, FaithfulSnapshot, WellFormed;
    NodeIdInverse(e.key, prefix, id);
  }

  lemma FinishBatchReflects(s: State, prefix: string)
    requires Inv(s, prefix) && Enabled(s, FinishBatch)
    ensures Reflects(Next(s, FinishBatch, prefix), prefix)
  {
    hide Delivered, FaithfulSnapshot, Shows, WellFormed;
    var t := Next(s, FinishBatch, prefix);
    forall id: string | id != ""
      ensures Shows(Newest(t.history, KeyOf(prefix, id), Frontier(t, id)), Get(t.nodes, id))
    {
      var key := KeyOf(prefix, id);
      forall e | e in s.history && e.key == key && Frontier(s, id) < e.rev ensures Frontier(t, id) < e.rev {
        NothingQueued(s, prefix, id, e);
      }
      NewestStable(s.history, s.now, key, Frontier(s, id), Frontier(t, id));
    }
  }

  lemma FinishBatchKeeps(s: State, prefix: string)
    requires Inv(s, prefix) && Enabled(s, FinishBatch)
    ensures Inv(Next(s, FinishBatch, prefix), prefix)
    ensures forall id :: Frontier(s, id) <= Frontier(Next(s, FinishBatch, prefix), id)
  {
    FinishBatchReflects(s, prefix);
    hide Reflects, FaithfulSnapshot, WellFormed;
  }

  // -------------------------------------------------------------- local steps

  lemma LocalKeeps(s: State, step: Step, prefix: string)
    requires Inv(s, prefix) && Enabled(s, step) && (step.LocalLiveness? || step.Sweep?)
    ensures Inv(Next(s, step, prefix), prefix)
  {
    var t := Next(s, step, prefix);
    if s.synced {
      forall id: string | id != ""
        ensures Shows(Newest(t.history, KeyOf(prefix, id), Frontier(t, id)), Get(t.nodes, id))
      {
        assert Shows(Newest(s.history, KeyOf(prefix, id), Frontier(s, id)), Get(s.nodes, id));
        if id in t.nodes {
          assert id in s.nodes && t.nodes[id].details == s.nodes[id].details;
        }
      }
    }
  }

  /** One step keeps the invariant and never moves a frontier back. */
  lemma StepKeeps(s: State, step: Step, prefix: string)
    requires Inv(s, prefix) && Enabled(s, step)
    ensures Inv(Next(s, step, prefix), prefix)
    ensures forall id: string | id != "" :: Frontier(s, id) <= Frontier(Next(s, step, prefix), id)
    ensures s.history <= Next(s, step, prefix).history
    ensures s.synced ==> Next(s, step, prefix).synced
  {
    match step
    case Commit(changes) => CommitKeeps(s, changes, prefix);
    case FetchSnapshot(_) =>
    case SnapshotFails =>
    case ReconcileSnapshot => ReconcileKeeps(s, prefix);
    case ReconcileRaises => ReconcileRaisesKeeps(s, prefix);
    case OpenStream =>
    case Receive(_) =>
    case ApplyEvent => ApplyEventKeeps(s, prefix);
    case FinishBatch => FinishBatchKeeps(s, prefix);
    case CloseStream =>
    case Compacted =>
    case LocalLiveness(_, _, _) => LocalKeeps(s, step, prefix);
    case Sweep(_) => LocalKeeps(s, step, prefix);
  }

  // --------------------------------------------------------------- whole runs

  lemma {:induction false} RunKeeps(s: State, steps: seq<Step>, prefix: string)
    requires Inv(s, prefix) && Run(s, steps, prefix).Some?
    ensures var t := Run(s, steps, prefix).value;
            && Inv(t, prefix)
            && s.history <= t.history
            && (s.synced ==> t.synced)
            && forall id: string | id != "" :: Frontier(s, id) <= Frontier(t, id)
  {
    if steps != [] {
      var n := |steps| - 1;
      RunKeeps(s, steps[..n], prefix);
      StepKeeps(Run(s, steps[..n], prefix).value, steps[n], prefix);
    }
  }

  /** No replayed event revives a deleted node. Once the registry shows a delete
      at revision r, the entry can leave the DRAINING-or-absent state only for a
      put above r that the history contains. */
  lemma DeletedStaysDown(s: State, earlier: seq<Step>, later: seq<Step>, prefix: string, id: string) returns (put: Event)
    requires Initial(s) && id != ""
    requires Run(s, earlier, prefix).Some? && Run(Run(s, earlier, prefix).value, later, prefix).Some?
    requires var t := Run(s, earlier, prefix).value;
             var newest := Newest(t.history, KeyOf(prefix, id), Frontier(t, id));
             t.synced && newest.Some? && newest.value.change.Delete?
    requires var u := Run(Run(s, earlier, prefix).value, later, prefix).value;
             id in u.nodes && !u.nodes[id].status.Draining?
    ensures var t := Run(s, earlier, prefix).value;
            var u := Run(t, later, prefix).value;
            && put in u.history && put.key == KeyOf(prefix, id) && put.change.Put?
            && Newest(t.history, KeyOf(prefix, id), Frontier(t, id)).value.rev < put.rev <= Frontier(u, id)
  {
    var t := Run(s, earlier, prefix).value;
    var u := Run(t, later, prefix).value;
    var key := KeyOf(prefix, id);
    RunKeeps(s, earlier, prefix);
    RunKeeps(t, later, prefix);
    var deleted := Newest(t.history, key, Frontier(t, id)).value;
    NewestIsMember(t.history, key, Frontier(t, id));
    assert deleted in u.history;
    NewestIsMember(u.history, key, Frontier(u, id));
    NewestIsMaximal(u.history, key, Frontier(u, id), u.now);
    assert Concerns(deleted, key, Frontier(u, id));
    put := Newest(u.history, key, Frontier(u, id)).value;
    if put.rev == deleted.rev {
      SameRevision(u.history, u.now, put, deleted);
    }
  }

  /** A malformed newest value is the one case in which an entry may lag: the
      reconciled snapshot leaves it untouched, even when the delete below that
      value was never seen. */
  lemma MalformedValueHidesDelete(prefix: string, id: string, stored: Details) returns (s: State, steps: seq<Step>)
    requires id != ""
    ensures Initial(s) && Run(s, steps, prefix).Some?
    ensures var t := Run(s, steps, prefix).value;
            && t.resume == Some(3) && t.now == 3
            && Newest(t.history, KeyOf(prefix, id), 2) == Some(Event(KeyOf(prefix, id), 2, Delete))
            && Newest(t.history, KeyOf(prefix, id), 3) == Some(Event(KeyOf(prefix, id), 3, Put(Malformed)))
            && Get(t.nodes, id) == Some(Node(id, Healthy, stored))
  {
    var key := KeyOf(prefix, id);
    var h := [Event(key, 1, Put(Registration(Healthy, stored))), Event(key, 2, Delete), Event(key, 3, Put(Malformed))];
    var snapshot := Snapshot([Record(key, 3, Malformed)], 3);
    s := State(h, 3, map[id := Node(id, Healthy, stored)], None, map[], None, None, None, false, 0, map[]);
    steps := [FetchSnapshot(snapshot), ReconcileSnapshot];
    forall other: RawKey | other != key ensures Newest(h, other, 3).None? {
      NewestIsMember(h, other, 3);
    }
    assert FaithfulSnapshot(h, snapshot);
    assert steps[..1] == [FetchSnapshot(snapshot)] && steps[..1][..0] == [];
    assert Run(s, steps[..1][..0], prefix) == Some(s);
    assert Run(s, steps[..1], prefix) == Some(s.(fetched := Some(snapshot)));
    SeedLookup(snapshot.records, prefix, id);
    NodeIdInverse(key, prefix, id);
    assert Record(key, 3, Malformed) in snapshot.records;
    assert h[..2] == [h[0], h[1]];
  }
}
