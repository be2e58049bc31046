/** Whole runs of discovery: what every entry shows in every state, down to the
    entries whose newest value cannot be read. */
module DiscoveryRuns {
  import opened Wrappers
  import opened Registry
  import opened EtcdHistory
  import opened Discovery
  import opened DiscoveryTheorems

  /** An event with something to say: a delete, or a value that can be read. */
  predicate Effective(e: Event) {
    e.change.Delete? || e.change.payload.Registration?
  }

  /** The newest value of the key at that revision is one that cannot be read. */
  ghost predicate MalformedAt(h: History, key: RawKey, rev: nat) {
    var newest := Newest(h, key, rev);
    newest.Some? && !Effective(newest.value)
  }

  /** etcd lists the events of a watch response in revision order. */
  ghost predicate InOrder(events: seq<Event>) {
    forall i, j | 0 <= i < j < |events| :: events[i].rev <= events[j].rev
  }

  ghost predicate OrderedRun(steps: seq<Step>) {
    forall k | 0 <= k < |steps| && steps[k].Receive? :: InOrder(steps[k].received.events)
  }

  // ------------------------------------------------------ what was applied last

  /** What a snapshot at that revision says about the key. */
  ghost function SnapshotWord(h: History, key: RawKey, rev: nat): Event {
    var newest := Newest(h, key, rev);
    if newest.None? || newest.value.change.Delete? then Event(key, rev, Delete) else newest.value
  }

  /** The event that was last applied to the node's entry. A snapshot without the key
      counts as a delete at its revision; a value that cannot be read is not applied. */
  ghost function Applied(s: State, steps: seq<Step>, prefix: string, id: string): Option<Event>
    requires Run(s, steps, prefix).Some?
  {
    if steps == [] then None
    else
      var n := |steps| - 1;
      AppliedBy(Run(s, steps[..n], prefix).value, steps[n], prefix, id, Applied(s, steps[..n], prefix, id))
  }

  ghost function AppliedBySnapshot(s: State, prefix: string, id: string, earlier: Option<Event>): Option<Event>
    requires s.fetched.Some?
  {
    var key, rev := KeyOf(prefix, id), s.fetched.value.revision;
    if MalformedAt(s.history, key, rev) then earlier else Some(SnapshotWord(s.history, key, rev))
  }

  ghost function AppliedBy(s: State, step: Step, prefix: string, id: string, earlier: Option<Event>): Option<Event>
    requires Enabled(s, step)
  {
    match step
    case ReconcileSnapshot => AppliedBySnapshot(s, prefix, id, earlier)
    case ReconcileRaises => AppliedBySnapshot(s, prefix, id, earlier)
    case ApplyEvent =>
      var event := s.batch.value.events[0];
      if NodeId(event.key, prefix) == Some(id) && !Stale(event, s.gates, prefix) && Effective(event)
      then Some(event) else earlier
    case _ => earlier
  }

  /** The revision of the snapshot reconciled last. */
  ghost function LastSnapshot(s: State, steps: seq<Step>, prefix: string): nat
    requires Run(s, steps, prefix).Some?
  {
    if steps == [] then 0
    else
      var n := |steps| - 1;
      SnapshotBy(Run(s, steps[..n], prefix).value, steps[n], LastSnapshot(s, steps[..n], prefix))
  }

  /** The registry takes a snapshot, whether or not the watcher learns of it. */
  predicate Reconciles(step: Step) {
    step.ReconcileSnapshot? || step.ReconcileRaises?
  }

  ghost function SnapshotBy(s: State, step: Step, earlier: nat): nat
    requires Enabled(s, step)
  {
    if Reconciles(step) then s.fetched.value.revision else earlier
  }

  /** An entry that nothing but local decisions has touched. */
  ghost predicate Untouched(before: Option<Node>, after: Option<Node>) {
    if before.None? then after.None?
    else Shows(Some(Event(Text(""), 0, Put(Registration(before.value.status, before.value.details)))), after)
  }

  /** What the entry shows: the event applied last, or what the startup load left. */
  ghost predicate ShowsApplied(startup: Option<Node>, applied: Option<Event>, entry: Option<Node>) {
    if applied.Some? then Shows(applied, entry) else Untouched(startup, entry)
  }

  /** The event says something newer than what was applied last. */
  ghost predicate Newer(e: Event, key: RawKey, applied: Option<Event>) {
    e.key == key && Effective(e) && (applied.None? || applied.value.rev < e.rev)
  }

  /** No event but those a snapshot jumped over is missing from the entry. */
  ghost predicate OnlyJumped(h: History, key: RawKey, applied: Option<Event>, upTo: nat, snapshot: nat) {
    forall e | e in h && Newer(e, key, applied) && e.rev <= upTo :: e.rev <= snapshot && MalformedAt(h, key, snapshot)
  }

  ghost predicate AppliedInv(s: State, prefix: string, id: string, startup: Option<Node>, applied: Option<Event>, snapshot: nat) {
    var key := KeyOf(prefix, id);
    && snapshot <= s.floor
    && ShowsApplied(startup, applied, Get(s.nodes, id))
    && (applied.Some? ==>
          && applied.value.key == key && Effective(applied.value) && applied.value.rev <= Frontier(s, id)
          && (applied.value in s.history || (applied.value.change.Delete? && applied.value.rev <= snapshot)))
    && (s.synced ==> OnlyJumped(s.history, key, applied, Frontier(s, id), snapshot))
  }

  /** The queue of a watch response: in order, and within the header revision. */
  ghost predicate QueueInv(s: State) {
    s.batch.Some? ==>
      InOrder(s.batch.value.events) && forall e | e in s.batch.value.events :: e.rev <= s.batch.value.revision
  }

  // ------------------------------------------------------------------ preservation

  lemma QueueStep(s: State, step: Step, prefix: string)
    requires QueueInv(s) && Enabled(s, step) && (step.Receive? ==> InOrder(step.received.events))
    ensures QueueInv(Next(s, step, prefix))
  {
    if step.ApplyEvent? {
      var events := s.batch.value.events;
      assert forall i | 0 <= i < |events[1..]| :: events[1..][i] == events[i + 1];
    }
  }

  lemma CommitApplied(s: State, changes: seq<Event>, prefix: string, id: string, startup: Option<Node>, applied: Option<Event>, snapshot: nat)
    requires Inv(s, prefix) && Enabled(s, Commit(changes)) && AppliedInv(s, prefix, id, startup, applied, snapshot)
    ensures AppliedInv(Next(s, Commit(changes), prefix), prefix, id, startup, applied, snapshot)
  {
    hide Shows, Delivered, Reflects, FaithfulSnapshot;
    NewestIgnoresLater(s.history, changes, KeyOf(prefix, id), snapshot);
  }

  /** A present key whose value cannot be read keeps its entry through a snapshot. */
  lemma MalformedIsSkipped(s: State, prefix: string, id: string)
    requires Inv(s, prefix) && s.fetched.Some? && id != ""
    requires MalformedAt(s.history, KeyOf(prefix, id), s.fetched.value.revision)
    ensures Get(Next(s, ReconcileSnapshot, prefix).nodes, id) == Get(s.nodes, id)
  {
    var snapshot := s.fetched.value;
    var key := KeyOf(prefix, id);
    NewestIsMember(s.history, key, snapshot.revision);
    SeedLookup(snapshot.records, prefix, id);
    var newest := Newest(s.history, key, snapshot.revision).value;
    assert Record(key, newest.rev, newest.change.payload) in snapshot.records;
  }

  /** A key that is gone, or whose value can be read, gets its entry from the snapshot. */
  lemma SnapshotApplied(s: State, prefix: string, id: string, startup: Option<Node>)
    requires Inv(s, prefix) && s.fetched.Some? && id != ""
    requires !MalformedAt(s.history, KeyOf(prefix, id), s.fetched.value.revision)
    ensures AppliedInv(Next(s, ReconcileSnapshot, prefix), prefix, id, startup,
                       AppliedBy(s, ReconcileSnapshot, prefix, id, None), s.fetched.value.revision)
  {
    var key, rev := KeyOf(prefix, id), s.fetched.value.revision;
    ReconcileEntry(s, prefix, id);
    WordIsLast(s.history, s.now, key, rev);
    WordShows(s.history, key, rev, Get(Next(s, ReconcileSnapshot, prefix).nodes, id));
    hide Inv, Shows, MalformedAt, OnlyJumped, SnapshotWord, RegistryAfterSnapshot, GatesAfterSnapshot;
  }

  lemma WordShows(h: History, key: RawKey, rev: nat, entry: Option<Node>)
    requires !MalformedAt(h, key, rev) && Shows(Newest(h, key, rev), entry)
    ensures Shows(Some(SnapshotWord(h, key, rev)), entry)
  {
  }

  lemma WordIsLast(h: History, now: nat, key: RawKey, rev: nat)
    requires WellFormed(h, now) && !MalformedAt(h, key, rev)
    ensures var word := SnapshotWord(h, key, rev);
            && OnlyJumped(h, key, Some(word), rev, rev) && word.key == key && Effective(word) && word.rev <= rev
            && (word in h || word.change.Delete?)
  {
    NewestIsMember(h, key, rev);
    NewestIsMaximal(h, key, rev, now);
    var word := SnapshotWord(h, key, rev);
    forall e | e in h && Newer(e, key, Some(word)) ensures rev < e.rev {
      assert Concerns(e, key, rev) <==> e.rev <= rev;
    }
  }

  lemma ReconcileApplied(s: State, prefix: string, id: string, startup: Option<Node>, applied: Option<Event>, snapshot: nat)
    requires Inv(s, prefix) && Enabled(s, ReconcileSnapshot) && id != ""
    requires AppliedInv(s, prefix, id, startup, applied, snapshot)
    ensures AppliedInv(Next(s, ReconcileSnapshot, prefix), prefix, id, startup,
                       AppliedBy(s, ReconcileSnapshot, prefix, id, applied), s.fetched.value.revision)
  {
    if MalformedAt(s.history, KeyOf(prefix, id), s.fetched.value.revision) {
      ReconcileKeeps(s, prefix);
      MalformedIsSkipped(s, prefix, id);
      hide Inv, Shows, FaithfulSnapshot, RegistryAfterSnapshot, GatesAfterSnapshot, Newest;
    } else {
      hide Inv, AppliedInv;
      SnapshotApplied(s, prefix, id, startup);
    }
  }

  /** Nothing of the key lies between its frontier and the next event let through. */
  lemma NextIsNext(s: State, prefix: string, id: string, e: Event)
    requires Inv(s, prefix) && Enabled(s, ApplyEvent) && QueueInv(s)
    requires var event := s.batch.value.events[0];
             NodeId(event.key, prefix) == Some(id) && !Stale(event, s.gates, prefix)
             && e in s.history && e.key == event.key && Frontier(s, id) < e.rev <= event.rev
    ensures e == s.batch.value.events[0]
  {
    hide Reflects, FaithfulSnapshot;
    var event := s.batch.value.events[0];
    AppliedIsNew(s, prefix);
    assert NodeId(e.key, prefix) == Some(id);
    assert event in s.batch.value.events;
    assert e in s.batch.value.events;
    SameRevision(s.history, s.now, e, event);
  }

  lemma EventApplied(s: State, prefix: string, id: string, startup: Option<Node>, applied: Option<Event>, snapshot: nat)
    requires Inv(s, prefix) && Enabled(s, ApplyEvent) && QueueInv(s) && id != ""
    requires AppliedInv(s, prefix, id, startup, applied, snapshot)
    ensures AppliedInv(Next(s, ApplyEvent, prefix), prefix, id, startup,
                       AppliedBy(s, ApplyEvent, prefix, id, applied), snapshot)
  {
    var t := Next(s, ApplyEvent, prefix);
    var event := s.batch.value.events[0];
    if NodeId(event.key, prefix) == Some(id) && !Stale(event, s.gates, prefix) {
      FreshApplied(s, prefix, id, startup, applied, snapshot);
    } else {
      hide Delivered, Reflects, FaithfulSnapshot, WellFormed, MalformedAt, Shows;
      assert Get(t.nodes, id) == Get(s.nodes, id) && Frontier(t, id) == Frontier(s, id);
    }
  }

  lemma FreshApplied(s: State, prefix: string, id: string, startup: Option<Node>, applied: Option<Event>, snapshot: nat)
    requires Inv(s, prefix) && Enabled(s, ApplyEvent) && QueueInv(s) && id != ""
    requires AppliedInv(s, prefix, id, startup, applied, snapshot)
    requires NodeId(s.batch.value.events[0].key, prefix) == Some(id) && !Stale(s.batch.value.events[0], s.gates, prefix)
    ensures AppliedInv(Next(s, ApplyEvent, prefix), prefix, id, startup,
                       AppliedBy(s, ApplyEvent, prefix, id, applied), snapshot)
  {
    var t := Next(s, ApplyEvent, prefix);
    var event := s.batch.value.events[0];
    var key := KeyOf(prefix, id);
    NodeIdInverse(event.key, prefix, id);
    AppliedIsNew(s, prefix);
    AppliedIsShown(s, prefix);
    NewestUnique(s.history, s.now, event, event.rev);
    hide Delivered, Reflects, FaithfulSnapshot, WellFormed, MalformedAt, Shows;
    forall e | e in s.history && e.key == key && Frontier(s, id) < e.rev <= event.rev ensures e == event {
      NextIsNext(s, prefix, id, e);
    }
  }

  lemma BatchApplied(s: State, prefix: string, id: string, startup: Option<Node>, applied: Option<Event>, snapshot: nat)
    requires Inv(s, prefix) && Enabled(s, FinishBatch) && id != ""
    requires AppliedInv(s, prefix, id, startup, applied, snapshot)
    ensures AppliedInv(Next(s, FinishBatch, prefix), prefix, id, startup, applied, snapshot)
  {
    hide Reflects, FaithfulSnapshot, MalformedAt, Shows, WellFormed;
    var t := Next(s, FinishBatch, prefix);
    forall e | e in s.history && e.key == KeyOf(prefix, id) && Frontier(s, id) < e.rev ensures Frontier(t, id) < e.rev {
      NothingQueued(s, prefix, id, e);
    }
  }

  /** Local liveness decisions and sweeps leave what an effective event shows. */
  lemma LocalShows(s: State, step: Step, prefix: string, id: string, event: Event)
    requires Enabled(s, step) && (step.LocalLiveness? || step.Sweep?)
    requires Effective(event) && Shows(Some(event), Get(s.nodes, id))
    ensures Shows(Some(event), Get(Next(s, step, prefix).nodes, id))
  {
    var t := Next(s, step, prefix);
    if id in t.nodes {
      assert id in s.nodes && t.nodes[id].details == s.nodes[id].details;
    }
  }

  lemma LocalApplied(s: State, step: Step, prefix: string, id: string, startup: Option<Node>, applied: Option<Event>, snapshot: nat)
    requires Enabled(s, step) && (step.LocalLiveness? || step.Sweep?)
    requires AppliedInv(s, prefix, id, startup, applied, snapshot)
    ensures AppliedInv(Next(s, step, prefix), prefix, id, startup, applied, snapshot)
  {
    hide Shows, MalformedAt;
    if applied.Some? {
      LocalShows(s, step, prefix, id, applied.value);
    } else if startup.Some? {
      LocalShows(s, step, prefix, id, Event(Text(""), 0, Put(Registration(startup.value.status, startup.value.details))));
    }
  }

  lemma NotResumed(s: State, prefix: string)
    requires Inv(s, prefix) && s.fetched.Some?
    ensures Next(s, ReconcileRaises, prefix) == Next(s, ReconcileSnapshot, prefix).(resume := None, gates := s.gates)
  {
    hide FaithfulSnapshot, Delivered, Reflects, WellFormed;
  }

  lemma StepApplied(s: State, step: Step, prefix: string, id: string, startup: Option<Node>, applied: Option<Event>, snapshot: nat)
    requires Inv(s, prefix) && Enabled(s, step) && QueueInv(s) && id != ""
    requires AppliedInv(s, prefix, id, startup, applied, snapshot)
    ensures AppliedInv(Next(s, step, prefix), prefix, id, startup,
                       AppliedBy(s, step, prefix, id, applied), SnapshotBy(s, step, snapshot))
  {
    hide Inv, QueueInv, ShowsApplied, OnlyJumped, FaithfulSnapshot, FaithfulBatch;
    match step
    case Commit(changes) => CommitApplied(s, changes, prefix, id, startup, applied, snapshot);
    case ReconcileSnapshot => ReconcileApplied(s, prefix, id, startup, applied, snapshot);
    case ReconcileRaises =>
      ReconcileApplied(s, prefix, id, startup, applied, snapshot);
      assert Next(s, ReconcileRaises, prefix) == Next(s, ReconcileSnapshot, prefix).(resume := None, gates := s.gates) by {
        NotResumed(s, prefix);
      }
    case ApplyEvent => EventApplied(s, prefix, id, startup, applied, snapshot);
    case FinishBatch => BatchApplied(s, prefix, id, startup, applied, snapshot);
    case LocalLiveness(_, _, _) => LocalApplied(s, step, prefix, id, startup, applied, snapshot);
    case Sweep(_) => LocalApplied(s, step, prefix, id, startup, applied, snapshot);
    case _ =>
  }

  lemma {:induction false} RunApplied(s: State, steps: seq<Step>, prefix: string, id: string)
    requires Initial(s) && Run(s, steps, prefix).Some? && OrderedRun(steps) && id != ""
    ensures QueueInv(Run(s, steps, prefix).value)
    ensures AppliedInv(Run(s, steps, prefix).value, prefix, id, Get(s.nodes, id),
                       Applied(s, steps, prefix, id), LastSnapshot(s, steps, prefix))
  {
    if steps != [] {
      hide AppliedInv, QueueInv, Inv, AppliedBy, SnapshotBy, Enabled;
      var n := |steps| - 1;
      RunApplied(s, steps[..n], prefix, id);
      RunKeeps(s, steps[..n], prefix) by { InitialInv(s, prefix); }
      var before := Run(s, steps[..n], prefix).value;
      QueueStep(before, steps[n], prefix);
      StepApplied(before, steps[n], prefix, id, Get(s.nodes, id), Applied(s, steps[..n], prefix, id), LastSnapshot(s, steps[..n], prefix));
    }
  }

  lemma InitialInv(s: State, prefix: string)
    requires Initial(s)
    ensures Inv(s, prefix)
  {
  }

  // ---------------------------------------------------------------------- theorems

  /** Main theorem. In every state of every run that has reconciled a snapshot, every
      node's entry shows the newest event of its key at or below the point the watcher
      has followed that key to. While the watcher holds a resume point, that is the
      larger of the resume point and the key's gate. Where the newest value cannot be
      read, the entry shows the event that was applied last, untouched since, and the
      only events missing from it are ones that a snapshot with an unreadable value
      jumped over. */
  lemma RegistryReflectsEtcd(s: State, steps: seq<Step>, prefix: string, id: string)
    requires Initial(s) && Run(s, steps, prefix).Some? && id != ""
    ensures var t, key := Run(s, steps, prefix).value, KeyOf(prefix, id);
            && (t.resume.Some? ==> t.synced && Frontier(t, id) == Max(t.resume.value, Gate(t.gates, id)))
            && (t.synced ==> Shows(Newest(t.history, key, Frontier(t, id)), Get(t.nodes, id)))
            && (t.synced && OrderedRun(steps) ==>
                  && ShowsApplied(Get(s.nodes, id), Applied(s, steps, prefix, id), Get(t.nodes, id))
                  && OnlyJumped(t.history, key, Applied(s, steps, prefix, id), Frontier(t, id), LastSnapshot(s, steps, prefix)))
  {
    RunKeeps(s, steps, prefix);
    if OrderedRun(steps) {
      RunApplied(s, steps, prefix, id);
    }
  }

  /** The event is the last effective word of the history on its key, up to a point. */
  ghost predicate LastWord(h: History, e: Event, upTo: nat) {
    && e in h && Effective(e) && e.rev <= upTo
    && forall f | f in h && f.key == e.key && Effective(f) && f.rev <= upTo :: f.rev <= e.rev
  }

  /** A watcher that has followed the key to the present mirrors the cluster: live keys
      are routable entries with etcd's fields, dead keys are leaving. Where the newest
      value cannot be read, the entry shows the last effective event of the key, if
      that lies above the last snapshot. */
  lemma CaughtUpMirrorsEtcd(s: State, steps: seq<Step>, prefix: string, id: string, e: Event)
    requires Initial(s) && Run(s, steps, prefix).Some? && id != ""
    requires var t := Run(s, steps, prefix).value; t.resume == Some(t.now)
    ensures var t := Run(s, steps, prefix).value;
            && Shows(Newest(t.history, KeyOf(prefix, id), t.now), Get(t.nodes, id))
            && (OrderedRun(steps) && e.key == KeyOf(prefix, id) && LastWord(t.history, e, t.now)
                && LastSnapshot(s, steps, prefix) < e.rev ==>
                  Shows(Some(e), Get(t.nodes, id)))
  {
    RunKeeps(s, steps, prefix);
    var t := Run(s, steps, prefix).value;
    if OrderedRun(steps) && e.key == KeyOf(prefix, id) && LastWord(t.history, e, t.now) && LastSnapshot(s, steps, prefix) < e.rev {
      RunApplied(s, steps, prefix, id);
      var applied := Applied(s, steps, prefix, id);
      assert !Newer(e, KeyOf(prefix, id), applied);
      SameRevision(t.history, t.now, applied.value, e);
    }
  }
}
