/** Who decides a node's status: the health checker's word stands against etcd's
    probed statuses until something with authority over it comes along. */
module LocalStatus {
  import opened Wrappers
  import opened Registry
  import opened EtcdHistory
  import opened Discovery
  import opened DiscoveryTheorems
  import opened DiscoveryRuns

  /** The step brings a value of the node's key that can be read. */
  ghost predicate Brings(s: State, step: Step, prefix: string, id: string, status: Status, details: Details)
    requires Enabled(s, step)
  {
    match step
    case ReconcileSnapshot => Lists(s.fetched.value, prefix, id, status, details)
    case ReconcileRaises => Lists(s.fetched.value, prefix, id, status, details)
    case ApplyEvent =>
      var event := s.batch.value.events[0];
      && event.key == KeyOf(prefix, id) && event.change == Put(Registration(status, details))
      && Gate(s.gates, id) < event.rev
    case _ => false
  }

  ghost predicate Lists(snapshot: Snapshot, prefix: string, id: string, status: Status, details: Details) {
    exists r :: r in snapshot.records && r.key == KeyOf(prefix, id) && r.payload == Registration(status, details)
  }

  /** The step takes the node's key away. */
  ghost predicate Withdraws(s: State, step: Step, prefix: string, id: string)
    requires Enabled(s, step)
  {
    match step
    case ReconcileSnapshot => forall r | r in s.fetched.value.records :: r.key != KeyOf(prefix, id)
    case ReconcileRaises => forall r | r in s.fetched.value.records :: r.key != KeyOf(prefix, id)
    case ApplyEvent =>
      var event := s.batch.value.events[0];
      event.key == KeyOf(prefix, id) && event.change.Delete? && Gate(s.gates, id) < event.rev
    case _ => false
  }

  /** The step has authority over a probed status: another local decision, a stored
      lifecycle status, or the end of the key. */
  ghost predicate Decides(s: State, step: Step, prefix: string, id: string)
    requires Enabled(s, step)
  {
    || (step.LocalLiveness? && step.id == id)
    || (exists status, details :: Brings(s, step, prefix, id, status, details) && !Liveness(status))
    || Withdraws(s, step, prefix, id)
  }

  lemma SnapshotTaken(s: State, prefix: string, id: string, status: Status, details: Details)
    requires Inv(s, prefix) && s.fetched.Some? && id != "" && Lists(s.fetched.value, prefix, id, status, details)
    ensures var t := RegistryAfterSnapshot(s.nodes, s.fetched.value, prefix);
            Get(t, id) == Some(Node(id, if Probed(s.nodes, id) && Liveness(status) then s.nodes[id].status else status, details))
  {
    var records := s.fetched.value.records;
    var r :| r in records && r.key == KeyOf(prefix, id) && r.payload == Registration(status, details);
    SeedLookup(records, prefix, id);
  }

  /** What a readable value does: its fields become the entry's, and its status too,
      unless both it and the entry's are probed. A new entry takes it exactly. */
  lemma ValueTaken(s: State, step: Step, prefix: string, id: string, status: Status, details: Details)
    requires Inv(s, prefix) && Enabled(s, step) && id != "" && Brings(s, step, prefix, id, status, details)
    ensures Get(Next(s, step, prefix).nodes, id) ==
            Some(Node(id, if Probed(s.nodes, id) && Liveness(status) then s.nodes[id].status else status, details))
  {
    if step.ApplyEvent? {
      NodeIdInverse(s.batch.value.events[0].key, prefix, id);
    } else {
      SnapshotTaken(s, prefix, id, status, details);
    }
  }

  /** A key that is neither brought nor withdrawn keeps its entry. */
  lemma NothingTaken(s: State, step: Step, prefix: string, id: string)
    requires Inv(s, prefix) && Enabled(s, step) && id != "" && (Reconciles(step) || step.ApplyEvent?)
    requires !Withdraws(s, step, prefix, id)
    requires forall status, details :: !Brings(s, step, prefix, id, status, details)
    ensures Get(Next(s, step, prefix).nodes, id) == Get(s.nodes, id)
  {
    if step.ApplyEvent? {
      var event := s.batch.value.events[0];
      NodeIdInverse(event.key, prefix, id);
      if event.change.Put? && event.change.payload.Registration? {
        var brings := Brings(s, step, prefix, id, event.change.payload.status, event.change.payload.details);
      }
    } else {
      var records := s.fetched.value.records;
      SeedLookup(records, prefix, id);
      var r :| r in records && r.key == KeyOf(prefix, id);
      if r.payload.Registration? {
        var lists := Lists(s.fetched.value, prefix, id, r.payload.status, r.payload.details);
        assert Brings(s, step, prefix, id, r.payload.status, r.payload.details);
      }
    }
  }

  lemma StatusStays(s: State, step: Step, prefix: string, id: string)
    requires Inv(s, prefix) && Enabled(s, step) && id != "" && Probed(s.nodes, id) && !Decides(s, step, prefix, id)
    ensures var t := Next(s, step, prefix); id in t.nodes && t.nodes[id].status == s.nodes[id].status
  {
    if Reconciles(step) || step.ApplyEvent? {
      hide Inv, Enabled, Withdraws, Next, Brings;
      if status, details :| Brings(s, step, prefix, id, status, details) {
        ValueTaken(s, step, prefix, id, status, details);
      } else {
        NothingTaken(s, step, prefix, id);
      }
    } else {
      hide Inv, FaithfulSnapshot, FaithfulBatch, Brings, Withdraws;
    }
  }

  lemma {:induction false} StatusStaysThroughout(s: State, steps: seq<Step>, prefix: string, id: string)
    requires Inv(s, prefix) && Run(s, steps, prefix).Some? && id != "" && Probed(s.nodes, id)
    requires forall k | 0 <= k < |steps| ::
               Run(s, steps[..k], prefix).Some? && Enabled(Run(s, steps[..k], prefix).value, steps[k]) ==>
                 !Decides(Run(s, steps[..k], prefix).value, steps[k], prefix, id)
    ensures var t := Run(s, steps, prefix).value; id in t.nodes && t.nodes[id].status == s.nodes[id].status
  {
    hide Inv, Decides, Next, Enabled;
    if steps != [] {
      var n := |steps| - 1;
      assert forall k | 0 <= k < n :: steps[..n][..k] == steps[..k] && steps[..n][k] == steps[k];
      StatusStaysThroughout(s, steps[..n], prefix, id);
      RunKeeps(s, steps[..n], prefix);
      StatusStays(Run(s, steps[..n], prefix).value, steps[n], prefix, id);
    }
  }

  /** Main theorem. Once the health checker has set a node's status, every later state
      shows exactly that status, through any number of snapshots, puts of probed
      statuses, sweeps and everything else, until a step with authority over it: another
      local decision on the node, a stored lifecycle status, or the end of its key. */
  lemma LocalDecisionHolds(
    s: State, earlier: seq<Step>, id: string, status: Status, allowedFrom: set<Status>, later: seq<Step>, prefix: string)
    requires Initial(s) && id != "" && Run(s, earlier, prefix).Some?
    requires var before := Run(s, earlier, prefix).value;
             && Enabled(before, LocalLiveness(id, status, allowedFrom))
             && id in before.nodes && before.nodes[id].status in allowedFrom
    requires var decided := Next(Run(s, earlier, prefix).value, LocalLiveness(id, status, allowedFrom), prefix);
             && Run(decided, later, prefix).Some?
             && forall k | 0 <= k < |later| ::
                  Run(decided, later[..k], prefix).Some? && Enabled(Run(decided, later[..k], prefix).value, later[k]) ==>
                    !Decides(Run(decided, later[..k], prefix).value, later[k], prefix, id)
    ensures var decided := Next(Run(s, earlier, prefix).value, LocalLiveness(id, status, allowedFrom), prefix);
            var t := Run(decided, later, prefix).value;
            id in t.nodes && t.nodes[id].status == status
  {
    var before := Run(s, earlier, prefix).value;
    RunKeeps(s, earlier, prefix) by { InitialInv(s, prefix); }
    StepKeeps(before, LocalLiveness(id, status, allowedFrom), prefix);
    hide Inv, Decides;
    StatusStaysThroughout(Next(before, LocalLiveness(id, status, allowedFrom), prefix), later, prefix, id);
  }
}
