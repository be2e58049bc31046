/** The etcd watcher, its per-key gates and the registry as one state machine.
    Every step is atomic in the source (it holds the registry lock, or it only
    touches the watcher's own variables); steps of the cluster, of the watcher,
    of the health checker and of the drain sweep interleave freely. */
module Discovery {
  import opened Wrappers
  import opened Registry
  import opened EtcdHistory

  datatype Record = Record(key: RawKey, rev: nat, payload: Payload)

  datatype Snapshot = Snapshot(records: seq<Record>, revision: nat)

  datatype Batch = Batch(events: seq<Event>, revision: nat)

  type Gates = map<string, nat>

  function Gate(gates: Gates, id: string): nat {
    if id in gates then gates[id] else 0
  }

  // ---------------------------------------------------------------- snapshots

  function ParsedNode(id: string, payload: Payload): Node
    requires payload.Registration?
  {
    Node(id, payload.status, payload.details)
  }

  /** The gates a snapshot's records seed, later records winning. */
  function SeededGates(records: seq<Record>, prefix: string): Gates {
    if records == [] then map[]
    else
      var last := records[|records| - 1];
      var before := SeededGates(records[..|records| - 1], prefix);
      match NodeId(last.key, prefix)
      case None => before
      case Some(id) => before[id := last.rev]
  }

  function FoundNodes(records: seq<Record>, prefix: string): Nodes {
    if records == [] then map[]
    else
      var last := records[|records| - 1];
      var before := FoundNodes(records[..|records| - 1], prefix);
      match NodeId(last.key, prefix)
      case None => before
      case Some(id) => if last.payload.Malformed? then before else before[id := ParsedNode(id, last.payload)]
  }

  function RegistryAfterSnapshot(nodes: Nodes, snapshot: Snapshot, prefix: string): Nodes {
    Reconciled(nodes, FoundNodes(snapshot.records, prefix), SeededGates(snapshot.records, prefix).Keys)
  }

  /** Record revisions for present keys, a tombstone at the snapshot revision
      for registry entries that the snapshot does not contain. */
  function GatesAfterSnapshot(nodes: Nodes, snapshot: Snapshot, prefix: string): Gates {
    var seeded := SeededGates(snapshot.records, prefix);
    var missing := Missing(nodes, FoundNodes(snapshot.records, prefix), seeded.Keys);
    seeded + map id | id in missing :: snapshot.revision
  }

  // ------------------------------------------------------------------- events

  predicate Stale(event: Event, gates: Gates, prefix: string) {
    var id := NodeId(event.key, prefix);
    id.None? || event.rev <= Gate(gates, id.value)
  }

  function RegistryAfterEvent(nodes: Nodes, gates: Gates, event: Event, prefix: string): Nodes {
    if Stale(event, gates, prefix) then nodes
    else
      var id := NodeId(event.key, prefix).value;
      match event.change
      case Delete => WithDrained(nodes, id)
      case Put(Malformed) => nodes
      case Put(Registration(status, details)) => WithDiscovered(nodes, Node(id, status, details))
  }

  function GatesAfterEvent(gates: Gates, event: Event, prefix: string): Gates {
    if Stale(event, gates, prefix) then gates
    else gates[NodeId(event.key, prefix).value := event.rev]
  }

  // -------------------------------------------------- the cluster's guarantees

  /** A linearizable range read at the snapshot revision: exactly the keys whose
      newest event is a put, each with that event's value and revision. */
  ghost predicate FaithfulSnapshot(h: History, snapshot: Snapshot) {
    && (forall i | 0 <= i < |snapshot.records| ::
          var r := snapshot.records[i];
          Newest(h, r.key, snapshot.revision) == Some(Event(r.key, r.rev, Put(r.payload))))
    && (forall i, j | 0 <= i < j < |snapshot.records| :: snapshot.records[i].key != snapshot.records[j].key)
    && (forall key ::
          var newest := Newest(h, key, snapshot.revision);
          newest.Some? && newest.value.change.Put? ==>
            Record(key, newest.value.rev, newest.value.change.payload) in snapshot.records)
  }

  /** A watch response on a stream opened at `start + 1`, after the responses
      that advanced the resume point to `resume`. Its header revision is a
      progress guarantee: every event at or below it has been delivered. */
  ghost predicate FaithfulBatch(h: History, start: nat, resume: nat, batch: Batch) {
    && (forall e | e in batch.events :: e in h && start < e.rev <= batch.revision)
    && (forall e | e in h && resume < e.rev <= batch.revision :: e in batch.events)
  }

  // ------------------------------------------------------------ state machine

  datatype State = State(
    history: History,           // the cluster
    now: nat,
    nodes: Nodes,               // the registry
    resume: Option<nat>,        // the watcher
    gates: Gates,
    fetched: Option<Snapshot>,  // a range response not yet reconciled
    stream: Option<nat>,        // the resume point the open stream was started from
    batch: Option<Batch>,       // a watch response with its unapplied events
    // Auxiliary: the resume point and gates the registry last agreed with. They
    // survive a compaction, which clears the watcher's own copies.
    synced: bool,
    floor: nat,
    marks: Gates)

  datatype Step =
    | Commit(changes: seq<Event>)
    | FetchSnapshot(snapshot: Snapshot)
    | SnapshotFails
    | ReconcileSnapshot
    | ReconcileRaises
    | OpenStream
    | Receive(received: Batch)
    | ApplyEvent
    | FinishBatch
    | CloseStream
    | Compacted
    | LocalLiveness(id: string, status: Status, allowedFrom: set<Status>)
    | Sweep(busy: set<string>)

  ghost predicate Enabled(s: State, step: Step) {
    match step
    case Commit(changes) =>
      && (forall i | 0 <= i < |changes| :: changes[i].rev == s.now + 1)
      && (forall i, j | 0 <= i < j < |changes| :: changes[i].key != changes[j].key)
    case FetchSnapshot(snapshot) =>
      s.resume.None? && s.fetched.None? && snapshot.revision == s.now && FaithfulSnapshot(s.history, snapshot)
    case SnapshotFails => s.fetched.Some?
    case ReconcileSnapshot => s.fetched.Some?
    // The registry took the snapshot, but the call did not return its gates.
    case ReconcileRaises => s.fetched.Some?
    case OpenStream => s.resume.Some? && s.stream.None?
    case Receive(received) =>
      && s.stream.Some? && s.batch.None? && s.resume.Some? && received.revision <= s.now
      && FaithfulBatch(s.history, s.stream.value, s.resume.value, received)
    case ApplyEvent => s.batch.Some? && s.batch.value.events != []
    case FinishBatch => s.batch.Some? && s.batch.value.events == [] && s.resume.Some?
    // The stream ended, timed out, was cancelled, or failed between two events.
    case CloseStream => s.stream.Some?
    case Compacted => s.stream.Some?
    case LocalLiveness(_, status, allowedFrom) => Liveness(status) && forall a | a in allowedFrom :: Liveness(a)
    case Sweep(_) => true
  }

  function Next(s: State, step: Step, prefix: string): State
    requires Enabled(s, step)
  {
    match step
    case Commit(changes) => s.(history := s.history + changes, now := s.now + 1)
    case FetchSnapshot(snapshot) => s.(fetched := Some(snapshot))
    case SnapshotFails => s.(fetched := None)
    case ReconcileSnapshot =>
      var snapshot := s.fetched.value;
      var gates := GatesAfterSnapshot(s.nodes, snapshot, prefix);
      s.(nodes := RegistryAfterSnapshot(s.nodes, snapshot, prefix), gates := gates,
         resume := Some(snapshot.revision), fetched := None,
         synced := true, floor := snapshot.revision, marks := gates)
    case ReconcileRaises =>
      var snapshot := s.fetched.value;
      s.(nodes := RegistryAfterSnapshot(s.nodes, snapshot, prefix), fetched := None,
         synced := true, floor := snapshot.revision, marks := GatesAfterSnapshot(s.nodes, snapshot, prefix))
    case OpenStream => s.(stream := s.resume)
    case Receive(received) => s.(batch := Some(received))
    case ApplyEvent =>
      var event := s.batch.value.events[0];
      var gates := GatesAfterEvent(s.gates, event, prefix);
      s.(nodes := RegistryAfterEvent(s.nodes, s.gates, event, prefix), gates := gates, marks := gates,
         batch := Some(s.batch.value.(events := s.batch.value.events[1..])))
    case FinishBatch =>
      var resume := Max(s.resume.value, s.batch.value.revision);
      s.(resume := Some(resume), floor := resume, batch := None)
    case CloseStream => s.(stream := None, batch := None)
    case Compacted => s.(stream := None, batch := None, resume := None, gates := map[])
    case LocalLiveness(id, status, allowedFrom) => s.(nodes := WithStatus(s.nodes, id, status, allowedFrom))
    case Sweep(busy) => s.(nodes := Swept(s.nodes, busy))
  }

  /** Whatever the startup load put in the registry, before the first snapshot. */
  ghost predicate Initial(s: State) {
    && WellFormed(s.history, s.now)
    && s.resume.None? && s.fetched.None? && s.stream.None? && s.batch.None? && !s.synced
    && s.gates == map[] && s.floor == 0 && s.marks == map[]
  }

  /** The state after each of `steps`, or None once a step was not enabled. */
  ghost function Run(s: State, steps: seq<Step>, prefix: string): Option<State> {
    if steps == [] then Some(s)
    else
      var before := Run(s, steps[..|steps| - 1], prefix);
      if before.Some? && Enabled(before.value, steps[|steps| - 1])
      then Some(Next(before.value, steps[|steps| - 1], prefix))
      else None
  }

  // ---------------------------------------------------------------- invariant

  /** How far the registry has followed the history of one node's key. */
  function Frontier(s: State, id: string): nat {
    Max(s.floor, Gate(s.marks, id))
  }

  ghost predicate Reflects(s: State, prefix: string) {
    forall id: string | id != "" ::
      Shows(Newest(s.history, KeyOf(prefix, id), Frontier(s, id)), Get(s.nodes, id))
  }

  ghost predicate Bounded(s: State) {
    && s.floor <= s.now
    && (forall id | id in s.marks :: s.marks[id] <= s.now)
    && (s.resume.Some? ==> s.synced && s.floor == s.resume.value && s.marks == s.gates)
    && (s.fetched.Some? ==>
          && s.resume.None?
          && s.floor <= s.fetched.value.revision <= s.now
          && (forall id | id in s.marks :: s.marks[id] <= s.fetched.value.revision)
          && FaithfulSnapshot(s.history, s.fetched.value))
  }

  /** Everything delivered on the open stream is behind the gates or still queued. */
  ghost predicate Delivered(s: State, prefix: string) {
    && (s.stream.Some? ==>
          && s.resume.Some? && s.stream.value <= s.resume.value
          && (forall e, id | e in s.history && NodeId(e.key, prefix) == Some(id) ::
                s.stream.value < e.rev <= s.resume.value ==> e.rev <= Gate(s.gates, id)))
    && (s.batch.Some? ==>
          && s.stream.Some? && s.resume.Some? && s.batch.value.revision <= s.now
          && (forall e | e in s.batch.value.events :: e in s.history && s.stream.value < e.rev <= s.now)
          && (forall e, id | e in s.history && NodeId(e.key, prefix) == Some(id) ::
                s.resume.value < e.rev <= s.batch.value.revision ==>
                  e in s.batch.value.events || e.rev <= Gate(s.gates, id)))
  }

  ghost predicate Inv(s: State, prefix: string) {
    && WellFormed(s.history, s.now)
    && Bounded(s)
    && Delivered(s, prefix)
    && (s.synced ==> Reflects(s, prefix))
  }
}
