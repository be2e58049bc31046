/** Exactly when a delete stays hidden behind a value that cannot be read. */
module HiddenDeletes {
  import opened Wrappers
  import opened Registry
  import opened EtcdHistory
  import opened Discovery
  import opened DiscoveryTheorems
  import opened DiscoveryRuns

  /** The registry takes a snapshot that lies beyond the event while the watcher has not
      followed the key that far, and whose value for the key cannot be read. */
  ghost predicate JumpsOver(before: State, step: Step, prefix: string, id: string, rev: nat) {
    && Reconciles(step) && before.fetched.Some?
    && Frontier(before, id) < rev <= before.fetched.value.revision
    && MalformedAt(before.history, KeyOf(prefix, id), before.fetched.value.revision)
  }

  ghost predicate JumpedAt(s: State, steps: seq<Step>, k: nat, prefix: string, id: string, rev: nat) {
    && k < |steps| && Run(s, steps[..k], prefix).Some?
    && JumpsOver(Run(s, steps[..k], prefix).value, steps[k], prefix, id, rev)
  }

  // ------------------------------------------------- what is missing was jumped over

  /** Nothing has been followed before the first snapshot. */
  ghost predicate Pristine(s: State) {
    !s.synced ==> s.floor == 0 && s.marks == map[]
  }

  lemma PristineStep(s: State, step: Step, prefix: string)
    requires Inv(s, prefix) && Enabled(s, step) && Pristine(s)
    ensures Pristine(Next(s, step, prefix))
  {
    hide FaithfulSnapshot, FaithfulBatch, Reflects, WellFormed;
  }

  lemma {:induction false} RunPristine(s: State, steps: seq<Step>, prefix: string)
    requires Initial(s) && Run(s, steps, prefix).Some?
    ensures Pristine(Run(s, steps, prefix).value)
  {
    if steps != [] {
      var n := |steps| - 1;
      RunPristine(s, steps[..n], prefix);
      RunKeeps(s, steps[..n], prefix);
      hide Inv;
      PristineStep(Run(s, steps[..n], prefix).value, steps[n], prefix);
    }
  }

  /** The event is behind the frontier of its key and yet newer than what was applied. */
  ghost predicate Missing(s: State, id: string, applied: Option<Event>, e: Event) {
    s.synced && e in s.history && e.rev <= Frontier(s, id) && Newer(e, e.key, applied)
  }

  /** An event that a snapshot makes missing was jumped over by it. */
  lemma SnapshotMisses(s: State, step: Step, prefix: string, id: string, applied: Option<Event>, e: Event)
    requires Inv(s, prefix) && Pristine(s) && Enabled(s, step) && Reconciles(step) && id != "" && e.key == KeyOf(prefix, id)
    requires Missing(Next(s, step, prefix), id, AppliedBy(s, step, prefix, id, applied), e) && !Missing(s, id, applied, e)
    ensures JumpsOver(s, step, prefix, id, e.rev)
  {
    var rev := s.fetched.value.revision;
    ReconcileKeeps(s, prefix);
    ReconcileRaisesKeeps(s, prefix);
    assert WellFormed(s.history, s.now) && 0 < e.rev;
    hide Inv, FaithfulSnapshot, RegistryAfterSnapshot, GatesAfterSnapshot, WellFormed;
    assert Frontier(Next(s, step, prefix), id) == rev;
    if !MalformedAt(s.history, e.key, rev) {
      WordIsLast(s.history, s.now, e.key, rev) by { Ordered(s, prefix); }
    }
  }

  lemma Ordered(s: State, prefix: string)
    requires Inv(s, prefix)
    ensures WellFormed(s.history, s.now)
  {
  }

  /** Events of the stream are applied when the frontier passes them. */
  lemma StreamMisses(s: State, step: Step, prefix: string, id: string, applied: Option<Event>, e: Event)
    requires Inv(s, prefix) && QueueInv(s) && Enabled(s, step) && !Reconciles(step) && id != "" && e.key == KeyOf(prefix, id)
    requires Missing(Next(s, step, prefix), id, AppliedBy(s, step, prefix, id, applied), e)
    ensures Missing(s, id, applied, e)
  {
    var t := Next(s, step, prefix);
    match step
    case Commit(changes) => assert Frontier(t, id) == Frontier(s, id) <= s.now;
    case ApplyEvent =>
      ApplyMisses(s, prefix, id, applied, e);
    case FinishBatch =>
      if Frontier(s, id) < e.rev {
        NothingQueued(s, prefix, id, e);
      }
    case _ =>
  }

  lemma ApplyMisses(s: State, prefix: string, id: string, applied: Option<Event>, e: Event)
    requires Inv(s, prefix) && QueueInv(s) && Enabled(s, ApplyEvent) && id != "" && e.key == KeyOf(prefix, id)
    requires Missing(Next(s, ApplyEvent, prefix), id, AppliedBy(s, ApplyEvent, prefix, id, applied), e)
    ensures Missing(s, id, applied, e)
  {
    var event := s.batch.value.events[0];
    if NodeId(event.key, prefix) == Some(id) && !Stale(event, s.gates, prefix) {
      NodeIdInverse(event.key, prefix, id);
      AppliedIsNew(s, prefix);
      if Frontier(s, id) < e.rev {
        NextIsNext(s, prefix, id, e);
      }
    }
  }

  lemma {:induction false} MissingWasJumped(s: State, steps: seq<Step>, prefix: string, id: string, e: Event) returns (k: nat)
    requires Initial(s) && Run(s, steps, prefix).Some? && OrderedRun(steps) && id != "" && e.key == KeyOf(prefix, id)
    requires Missing(Run(s, steps, prefix).value, id, Applied(s, steps, prefix, id), e)
    ensures JumpedAt(s, steps, k, prefix, id, e.rev)
  {
    hide Inv, QueueInv, Pristine, Missing, AppliedBy, JumpsOver, AppliedInv;
    k := 0;
    if steps == [] {
      NeverSynced(s, id, e);
    } else {
      var n := |steps| - 1;
      var before, applied := Run(s, steps[..n], prefix).value, Applied(s, steps[..n], prefix, id);
      RunKeeps(s, steps[..n], prefix) by { InitialInv(s, prefix); }
      RunApplied(s, steps[..n], prefix, id);
      RunPristine(s, steps[..n], prefix);
      if Missing(before, id, applied, e) {
        k := MissingWasJumped(s, steps[..n], prefix, id, e);
        assert steps[..n][..k] == steps[..k];
      } else {
        k := n;
        if Reconciles(steps[n]) {
          SnapshotMisses(before, steps[n], prefix, id, applied, e);
        } else {
          StreamMisses(before, steps[n], prefix, id, applied, e);
        }
      }
    }
  }

  lemma NeverSynced(s: State, id: string, e: Event)
    requires Initial(s)
    ensures !Missing(s, id, None, e)
  {
  }

  // ------------------------------------------------- what was jumped over stays missing

  /** The key has a later effective event, up to the frontier. */
  ghost predicate Superseded(s: State, id: string, e: Event) {
    exists f :: f in s.history && f.key == e.key && Effective(f) && e.rev < f.rev <= Frontier(s, id)
  }

  /** The event is missing, or no longer the last word; `m` is a later value of the key. */
  ghost predicate Hidden(s: State, id: string, applied: Option<Event>, e: Event, m: Event) {
    && s.synced && m in s.history && m.key == e.key && e.rev < m.rev <= Frontier(s, id)
    && (Newer(e, e.key, applied) || Superseded(s, id, e))
  }

  lemma JumpHides(s: State, step: Step, prefix: string, id: string, startup: Option<Node>, applied: Option<Event>, snapshot: nat, e: Event)
    returns (m: Event)
    requires Inv(s, prefix) && Enabled(s, step) && id != "" && e.key == KeyOf(prefix, id) && Effective(e) && e in s.history
    requires AppliedInv(s, prefix, id, startup, applied, snapshot) && JumpsOver(s, step, prefix, id, e.rev)
    ensures Hidden(Next(s, step, prefix), id, AppliedBy(s, step, prefix, id, applied), e, m)
  {
    var rev := s.fetched.value.revision;
    ReconcileKeeps(s, prefix);
    ReconcileRaisesKeeps(s, prefix);
    m := Newest(s.history, e.key, rev).value;
    NewestIsMember(s.history, e.key, rev);
    NewestIsMaximal(s.history, e.key, rev, s.now);
    assert Concerns(e, e.key, rev);
    if m.rev == e.rev {
      SameRevision(s.history, s.now, m, e);
    }
    hide Inv, FaithfulSnapshot, RegistryAfterSnapshot, GatesAfterSnapshot, WellFormed, Superseded;
  }

  lemma SupersededStays(s: State, step: Step, prefix: string, id: string, e: Event)
    requires Inv(s, prefix) && Enabled(s, step) && id != "" && Superseded(s, id, e)
    ensures Superseded(Next(s, step, prefix), id, e)
  {
    StepKeeps(s, step, prefix);
    var f :| f in s.history && f.key == e.key && Effective(f) && e.rev < f.rev <= Frontier(s, id);
    assert f in Next(s, step, prefix).history;
  }

  /** A later snapshot either cannot read the key's value again, or supersedes the event. */
  lemma SnapshotSupersedes(s: State, step: Step, prefix: string, id: string, applied: Option<Event>, e: Event, m: Event)
    requires Inv(s, prefix) && Enabled(s, step) && Reconciles(step) && id != "" && e.key == KeyOf(prefix, id)
    requires Hidden(s, id, applied, e, m) && !MalformedAt(s.history, e.key, s.fetched.value.revision)
    ensures Superseded(Next(s, step, prefix), id, e)
  {
    var rev := s.fetched.value.revision;
    ReconcileKeeps(s, prefix);
    ReconcileRaisesKeeps(s, prefix);
    NewestIsMember(s.history, e.key, rev);
    NewestIsMaximal(s.history, e.key, rev, s.now);
    assert Concerns(m, e.key, rev);
    hide Inv, FaithfulSnapshot, RegistryAfterSnapshot, GatesAfterSnapshot, WellFormed;
    var f := Newest(s.history, e.key, rev).value;
    assert f in Next(s, step, prefix).history && e.rev < f.rev;
  }

  /** A fresh event of the key supersedes it as well. */
  lemma EventSupersedes(s: State, prefix: string, id: string, applied: Option<Event>, e: Event, m: Event)
    requires Inv(s, prefix) && Enabled(s, ApplyEvent) && id != "" && e.key == KeyOf(prefix, id) && Hidden(s, id, applied, e, m)
    requires AppliedBy(s, ApplyEvent, prefix, id, applied) != applied
    ensures Superseded(Next(s, ApplyEvent, prefix), id, e)
  {
    var event := s.batch.value.events[0];
    NodeIdInverse(event.key, prefix, id);
    AppliedIsNew(s, prefix);
    assert event in Next(s, ApplyEvent, prefix).history;
  }

  lemma HiddenStays(s: State, step: Step, prefix: string, id: string, applied: Option<Event>, e: Event, m: Event)
    requires Inv(s, prefix) && Enabled(s, step) && id != "" && e.key == KeyOf(prefix, id) && Hidden(s, id, applied, e, m)
    ensures Hidden(Next(s, step, prefix), id, AppliedBy(s, step, prefix, id, applied), e, m)
  {
    StepKeeps(s, step, prefix);
    hide Inv, Enabled, Superseded;
    var t := Next(s, step, prefix);
    assert m in t.history;
    if Superseded(s, id, e) {
      SupersededStays(s, step, prefix, id, e);
    } else if AppliedBy(s, step, prefix, id, applied) != applied {
      if step.ApplyEvent? {
        EventSupersedes(s, prefix, id, applied, e, m);
      } else {
        SnapshotSupersedes(s, step, prefix, id, applied, e, m);
      }
    }
  }

  /** The cluster only commits, above the revision it has reached. */
  lemma StepGrows(s: State, step: Step, prefix: string)
    requires Enabled(s, step)
    ensures var t := Next(s, step, prefix);
            && s.now <= t.now && s.history <= t.history
            && forall e | e in t.history && e !in s.history :: s.now < e.rev
  {
    hide FaithfulSnapshot, FaithfulBatch;
  }

  /** So an event at or below the revision reached is in the history by then. */
  lemma {:induction false} RunGrows(s: State, steps: seq<Step>, prefix: string, k: nat)
    requires Run(s, steps, prefix).Some? && k <= |steps|
    ensures Run(s, steps[..k], prefix).Some?
    ensures var a, b := Run(s, steps[..k], prefix).value, Run(s, steps, prefix).value;
            && a.now <= b.now && a.history <= b.history
            && forall e | e in b.history && e !in a.history :: a.now < e.rev
  {
    hide Next, Enabled;
    if k == |steps| {
      assert steps[..k] == steps;
    } else {
      var n := |steps| - 1;
      assert steps[..n][..k] == steps[..k];
      RunGrows(s, steps[..n], prefix, k);
      StepGrows(Run(s, steps[..n], prefix).value, steps[n], prefix);
    }
  }

  lemma {:induction false} JumpedIsHidden(s: State, steps: seq<Step>, prefix: string, id: string, e: Event, k: nat) returns (m: Event)
    requires Initial(s) && Run(s, steps, prefix).Some? && OrderedRun(steps) && id != ""
    requires e.key == KeyOf(prefix, id) && Effective(e) && e in Run(s, steps, prefix).value.history
    requires JumpedAt(s, steps, k, prefix, id, e.rev)
    ensures Hidden(Run(s, steps, prefix).value, id, Applied(s, steps, prefix, id), e, m)
  {
    hide Inv, QueueInv, AppliedBy, Hidden, AppliedInv, MalformedAt, Next, Enabled;
    var n := |steps| - 1;
    var before, applied := Run(s, steps[..n], prefix).value, Applied(s, steps[..n], prefix, id);
    InitialInv(s, prefix);
    RunKeeps(s, steps[..n], prefix);
    if k == n {
      RunApplied(s, steps[..n], prefix, id);
      SnapshotBound(before, prefix);
      RunGrows(s, steps, prefix, n);
      m := JumpHides(before, steps[n], prefix, id, Get(s.nodes, id), applied, LastSnapshot(s, steps[..n], prefix), e);
    } else {
      assert steps[..n][..k] == steps[..k];
      RunKeeps(s, steps[..k], prefix);
      SnapshotBound(Run(s, steps[..k], prefix).value, prefix);
      RunGrows(s, steps, prefix, k);
      RunGrows(s, steps[..n], prefix, k);
      m := JumpedIsHidden(s, steps[..n], prefix, id, e, k);
      HiddenStays(before, steps[n], prefix, id, applied, e, m);
    }
  }

  lemma SnapshotBound(s: State, prefix: string)
    requires Inv(s, prefix)
    ensures s.fetched.Some? ==> s.fetched.value.revision <= s.now
  {
  }

  // ---------------------------------------------------------------------- theorem

  /** What was applied last, or failing that the startup load, leaves the node up. */
  ghost predicate LeavesUp(startup: Option<Node>, applied: Option<Event>) {
    if applied.Some? then
      match applied.value.change
      case Put(Registration(status, _)) => !status.Draining?
      case _ => false
    else startup.Some? && !startup.value.status.Draining?
  }

  /** Let a delete be the last effective word on its key. It is missing from the entry if
      and only if a snapshot jumped over it, onto a value that cannot be read; and the
      entry is up, present and not DRAINING, if and only if moreover the entry was up
      before. */
  lemma DeleteHiddenIff(s: State, steps: seq<Step>, prefix: string, id: string, deleted: Event)
    requires Initial(s) && Run(s, steps, prefix).Some? && OrderedRun(steps) && id != ""
    requires var t := Run(s, steps, prefix).value;
             t.synced && deleted.key == KeyOf(prefix, id) && deleted.change.Delete?
             && LastWord(t.history, deleted, Frontier(t, id))
    ensures var t, applied := Run(s, steps, prefix).value, Applied(s, steps, prefix, id);
            var jumped := exists k: nat :: JumpedAt(s, steps, k, prefix, id, deleted.rev);
            && (Newer(deleted, deleted.key, applied) <==> jumped)
            && (id in t.nodes && !t.nodes[id].status.Draining? <==> jumped && LeavesUp(Get(s.nodes, id), applied))
  {
    var t, applied := Run(s, steps, prefix).value, Applied(s, steps, prefix, id);
    if Newer(deleted, deleted.key, applied) {
      var k := MissingWasJumped(s, steps, prefix, id, deleted);
    }
    if k: nat :| JumpedAt(s, steps, k, prefix, id, deleted.rev) {
      var m := JumpedIsHidden(s, steps, prefix, id, deleted, k);
    }
    hide JumpedAt;
    ShownIsDown(s, steps, prefix, id, deleted);
  }

  /** A delete that is not missing shows, and one that is leaves what was applied. */
  lemma ShownIsDown(s: State, steps: seq<Step>, prefix: string, id: string, deleted: Event)
    requires Initial(s) && Run(s, steps, prefix).Some? && OrderedRun(steps) && id != ""
    requires var t := Run(s, steps, prefix).value;
             t.synced && deleted.key == KeyOf(prefix, id) && deleted.change.Delete?
             && LastWord(t.history, deleted, Frontier(t, id))
    ensures var t, applied := Run(s, steps, prefix).value, Applied(s, steps, prefix, id);
            id in t.nodes && !t.nodes[id].status.Draining? <==>
            Newer(deleted, deleted.key, applied) && LeavesUp(Get(s.nodes, id), applied)
  {
    RunKeeps(s, steps, prefix);
    RunApplied(s, steps, prefix, id);
    var t, applied := Run(s, steps, prefix).value, Applied(s, steps, prefix, id);
    if !Newer(deleted, deleted.key, applied) && applied.value in t.history && applied.value.rev == deleted.rev {
      SameRevision(t.history, t.now, applied.value, deleted);
    }
  }
}
