/** The watcher's own code: reconciling a snapshot, applying a batch behind the
    per-key gates, and one turn of the run loop, over a live registry. */
module Watcher {
  import opened Wrappers
  import opened Registry
  import opened EtcdHistory
  import opened Discovery
  import opened DiscoveryTheorems

  /** What the etcd client yields during one turn of the run loop: a snapshot if
      the watcher asks for one, then watch responses until the stream ends. When
      `failAt` is given, applying that event of the last response raises. */
  datatype Turn = Turn(snapshot: Option<Snapshot>, batches: seq<Batch>, failAt: Option<nat>, compacted: bool)

  /** The cluster at one moment. */
  datatype World = World(history: History, now: nat)

  /** Later commits only append, above the revision reached before. */
  ghost predicate Grows(w: World, later: World) {
    && w.history <= later.history && w.now <= later.now && WellFormed(later.history, later.now)
    && forall e | e in later.history[|w.history|..] :: w.now < e.rev
  }

  /** The responses a stream opened at `start + 1` may deliver while the cluster goes
      on committing: the i-th one arrives in worlds[i + 1]. */
  ghost predicate Offered(worlds: seq<World>, start: nat, resume: nat, batches: seq<Batch>)
    requires |worlds| == |batches| + 1
    decreases |batches|
  {
    batches == []
    || (&& Grows(worlds[0], worlds[1]) && batches[0].revision <= worlds[1].now
        && FaithfulBatch(worlds[1].history, start, resume, batches[0])
        && Offered(worlds[1..], start, Max(resume, batches[0].revision), batches[1..]))
  }

  /** What a turn may find on a cluster that starts in worlds[0]. */
  ghost predicate TurnOffered(worlds: seq<World>, resume: Option<nat>, turn: Turn) {
    && |worlds| == |turn.batches| + 1
    && match resume
       case Some(r) => Offered(worlds, r, r, turn.batches)
       case None =>
         if turn.snapshot.None? then turn.batches == []
         else
           && turn.snapshot.value.revision <= worlds[0].now
           && FaithfulSnapshot(worlds[0].history, turn.snapshot.value)
           && Offered(worlds, turn.snapshot.value.revision, turn.snapshot.value.revision, turn.batches)
  }

  /** Commits of the cluster do not disturb a watcher between two batches. */
  lemma WorldGrows(s: State, later: World, prefix: string)
    requires Inv(s, prefix) && s.fetched.None? && s.batch.None? && Grows(World(s.history, s.now), later)
    ensures Inv(s.(history := later.history, now := later.now), prefix)
  {
    var more := later.history[|s.history|..];
    assert later.history == s.history + more;
    forall id: string | id != ""
      ensures Newest(later.history, KeyOf(prefix, id), Frontier(s, id)) == Newest(s.history, KeyOf(prefix, id), Frontier(s, id))
    {
      NewestIgnoresLater(s.history, more, KeyOf(prefix, id), Frontier(s, id));
    }
  }

  lemma StreamOpens(s: State, prefix: string)
    requires Inv(s, prefix) && s.resume.Some? && s.stream.None?
    ensures Inv(s.(stream := s.resume), prefix)
  {
    StepKeeps(s, OpenStream, prefix);
  }

  lemma StreamCloses(s: State, prefix: string)
    requires Inv(s, prefix) && s.batch.None?
    ensures Inv(s.(stream := None), prefix)
  {
  }

  lemma BatchDrops(s: State, prefix: string)
    requires Inv(s, prefix)
    ensures Inv(s.(batch := None), prefix)
  {
  }

  lemma BatchFinishes(s: State, revision: nat, prefix: string)
    requires s.resume.Some? && s.batch.None? && Inv(s.(batch := Some(Batch([], revision))), prefix)
    ensures var resume := Max(s.resume.value, revision);
            Inv(s.(resume := Some(resume), floor := resume), prefix)
  {
    StepKeeps(s.(batch := Some(Batch([], revision))), Step.FinishBatch, prefix);
  }

  /** The first n events of the batch that concern nodes are behind the gates. */
  ghost predicate Passed(batch: Batch, n: nat, gates: Gates, prefix: string) {
    forall i, id | 0 <= i < |batch.events| && i < n && NodeId(batch.events[i].key, prefix) == Some(id) ::
      batch.events[i].rev <= Gate(gates, id)
  }

  /** How many events of batch i are applied when the last batch fails at `failAt`. */
  function Reached(batches: seq<Batch>, failAt: Option<nat>, i: nat): nat
    requires i < |batches|
  {
    if i == |batches| - 1 && failAt.Some? then failAt.value else |batches[i].events|
  }

  /** No gate is lower than before. */
  ghost predicate Raised(before: Gates, after: Gates) {
    forall id :: Gate(before, id) <= Gate(after, id)
  }

  lemma RaisedOn(a: Gates, b: Gates, c: Gates)
    ensures Raised(a, b) && Raised(b, c) ==> Raised(a, c)
    ensures Raised(a, a)
  {
  }

  /** The first n batches were applied whole and are behind the resume point. */
  ghost predicate Progress(batches: seq<Batch>, n: nat, resume: nat, gates: Gates, prefix: string)
    requires n <= |batches|
  {
    forall i | 0 <= i < n ::
      Passed(batches[i], |batches[i].events|, gates, prefix) && batches[i].revision <= resume
  }

  /** How far a stream was followed: every event before one that raised is behind its
      gate, and every batch that was applied whole is behind the resume point. */
  ghost predicate Followed(batches: seq<Batch>, failAt: Option<nat>, resume: nat, gates: Gates, prefix: string) {
    forall i | 0 <= i < |batches| ::
      && Passed(batches[i], Reached(batches, failAt, i), gates, prefix)
      && (Reached(batches, failAt, i) >= |batches[i].events| ==> batches[i].revision <= resume)
  }

  lemma ProgressStays(batches: seq<Batch>, n: nat, r: nat, g: Gates, later: nat, gates: Gates, prefix: string)
    requires n <= |batches| && Progress(batches, n, r, g, prefix) && r <= later && Raised(g, gates)
    ensures Progress(batches, n, later, gates, prefix)
  {
  }

  lemma ProgressStep(batches: seq<Batch>, n: nat, r: nat, later: nat, gates: Gates, prefix: string)
    requires n < |batches| && Progress(batches, n, r, gates, prefix) && r <= later
    requires Passed(batches[n], |batches[n].events|, gates, prefix) && batches[n].revision <= later
    ensures Progress(batches, n + 1, later, gates, prefix)
  {
  }

  lemma NoProgress(batches: seq<Batch>, r: nat, gates: Gates, prefix: string)
    ensures Progress(batches, 0, r, gates, prefix)
  {
  }

  lemma PassedWhole(batch: Batch, failAt: Option<nat>, gates: Gates, prefix: string)
    requires failAt.None? || |batch.events| <= failAt.value
    requires Passed(batch, if failAt.Some? then failAt.value else |batch.events|, gates, prefix)
    ensures Passed(batch, |batch.events|, gates, prefix)
  {
  }

  lemma FollowedWhole(batches: seq<Batch>, failAt: Option<nat>, r: nat, gates: Gates, prefix: string)
    requires Progress(batches, |batches|, r, gates, prefix)
    ensures Followed(batches, failAt, r, gates, prefix)
  {
  }

  lemma FollowedInPart(batches: seq<Batch>, failAt: nat, r: nat, gates: Gates, prefix: string)
    requires batches != [] && Progress(batches, |batches| - 1, r, gates, prefix)
    requires failAt < |batches[|batches| - 1].events| && Passed(batches[|batches| - 1], failAt, gates, prefix)
    ensures Followed(batches, Some(failAt), r, gates, prefix)
  {
  }

  class EtcdWatcher {
    const registry: NodeRegistry
    const prefix: string
    var resume: Option<nat>
    var gates: Gates

    constructor (registry: NodeRegistry, prefix: string)
      ensures this.registry == registry && this.prefix == prefix && resume.None? && gates == map[]
    {
      this.registry := registry;
      this.prefix := prefix;
      resume := None;
      gates := map[];
    }

    /** This watcher over the cluster (h, now), with `stream` open. */
    ghost function AsState(h: History, now: nat, stream: Option<nat>): State
      reads this, registry
    {
      State(h, now, registry.nodes, resume, gates, None, stream, None,
            resume.Some?, if resume.Some? then resume.value else 0, gates)
    }

    /** `_reconcile_snapshot`. */
    method ReconcileSnapshot(snapshot: Snapshot)
      modifies this`gates, registry
      ensures registry.nodes == RegistryAfterSnapshot(old(registry.nodes), snapshot, prefix)
      ensures gates == GatesAfterSnapshot(old(registry.nodes), snapshot, prefix)
    {
      var found: Nodes := map[];
      var present: set<string> := {};
      var seeded: Gates := map[];
      var records := snapshot.records;
      for i := 0 to |records|
        invariant found == FoundNodes(records[..i], prefix) && Filed(found)
        invariant seeded == SeededGates(records[..i], prefix) && present == seeded.Keys
      {
        assert records[..i + 1][..i] == records[..i];
        var id := NodeId(records[i].key, prefix);
        if id.Some? {
          present := present + {id.value};
          seeded := seeded[id.value := records[i].rev];
          if records[i].payload.Registration? {
            found := found[id.value := ParsedNode(id.value, records[i].payload)];
          }
        }
      }
      assert records[..|records|] == records;
      var missing := registry.ReconcileDiscovered(found, present);
      gates := seeded + map id | id in missing :: snapshot.revision;
    }

    /** `_apply_event` and the gate that follows it, for one fresh event. */
    method ApplyOne(event: Event)
      modifies this`gates, registry
      ensures registry.nodes == RegistryAfterEvent(old(registry.nodes), old(gates), event, prefix)
      ensures gates == GatesAfterEvent(old(gates), event, prefix)
      ensures Raised(old(gates), gates)
      ensures forall id | NodeId(event.key, prefix) == Some(id) :: event.rev <= Gate(gates, id)
    {
      var id := NodeId(event.key, prefix);
      if id.None? || event.rev <= Gate(gates, id.value) {
        return;
      }
      match event.change {
        case Delete =>
          var _ := registry.Drain(id.value);
        case Put(Malformed) =>
        case Put(Registration(status, details)) =>
          registry.AddDiscovered(Node(id.value, status, details));
      }
      gates := gates[id.value := event.rev];
    }

    /** `_apply_batch`, stopping short when applying event `failAt` raises. On
        success every event of the response is behind the gates; either way the
        registry still reflects the cluster. */
    method ApplyBatch(batch: Batch, failAt: Option<nat>, ghost h: History, ghost now: nat, ghost start: nat)
      returns (ok: bool)
      requires Inv(AsState(h, now, Some(start)), prefix)
      requires resume.Some? && batch.revision <= now && FaithfulBatch(h, start, resume.value, batch)
      modifies this`gates, registry
      ensures ok <==> failAt.None? || |batch.events| <= failAt.value
      ensures Raised(old(gates), gates)
      ensures Passed(batch, if failAt.Some? then failAt.value else |batch.events|, gates, prefix)
      ensures Inv(AsState(h, now, Some(start)), prefix)
      ensures ok ==> Inv(AsState(h, now, Some(start)).(batch := Some(Batch([], batch.revision))), prefix)
    {
      hide Inv;
      ghost var s := Next(AsState(h, now, Some(start)), Receive(batch), prefix);
      StepKeeps(AsState(h, now, Some(start)), Receive(batch), prefix);
      for i := 0 to |batch.events|
        invariant resume == old(resume)
        invariant s == AsState(h, now, Some(start)).(batch := Some(Batch(batch.events[i..], batch.revision)))
        invariant Inv(s, prefix)
        invariant failAt.Some? ==> i <= failAt.value
        invariant Raised(old(gates), gates) && Passed(batch, i, gates, prefix)
      {
        BatchDrops(s, prefix);
        if failAt == Some(i) {
          return false;
        }
        StepKeeps(s, Step.ApplyEvent, prefix);
        s := Next(s, Step.ApplyEvent, prefix);
        assert batch.events[i..][1..] == batch.events[i + 1..];
        ApplyOne(batch.events[i]);
      }
      BatchDrops(s, prefix);
      return true;
    }

    /** The body of the stream: the resume point advances only after a whole
        batch. Whatever ends the stream, and whatever the cluster commits in the
        meantime, watcher and registry still agree with it. */
    method FollowStream(batches: seq<Batch>, failAt: Option<nat>, ghost worlds: seq<World>)
      requires |worlds| == |batches| + 1
      requires resume.Some? && Inv(AsState(worlds[0].history, worlds[0].now, None), prefix)
      requires Offered(worlds, resume.value, resume.value, batches)
      modifies this, registry
      ensures resume.Some? && Inv(AsState(worlds[|batches|].history, worlds[|batches|].now, None), prefix)
      ensures old(resume).value <= resume.value && Raised(old(gates), gates)
      ensures Followed(batches, failAt, resume.value, gates, prefix)
    {
      hide Inv, FaithfulBatch, Grows, Raised, Passed, Progress, Followed;
      ghost var start := resume.value;
      RaisedOn(gates, gates, gates);
      NoProgress(batches, resume.value, gates, prefix);
      StreamOpens(AsState(worlds[0].history, worlds[0].now, None), prefix);
      for i := 0 to |batches|
        invariant resume.Some? && start <= resume.value
        invariant Inv(AsState(worlds[i].history, worlds[i].now, Some(start)), prefix)
        invariant Offered(worlds[i..], start, resume.value, batches[i..])
        invariant Raised(old(gates), gates) && Progress(batches, i, resume.value, gates, prefix)
      {
        var batch := batches[i];
        ghost var before, h, now := gates, worlds[i + 1].history, worlds[i + 1].now;
        assert batches[i..][0] == batch && batches[i..][1..] == batches[i + 1..];
        assert worlds[i..][0] == worlds[i] && worlds[i..][1] == worlds[i + 1] && worlds[i..][1..] == worlds[i + 1..];
        WorldGrows(AsState(worlds[i].history, worlds[i].now, Some(start)), worlds[i + 1], prefix);
        var ok := ApplyBatch(batch, if i == |batches| - 1 then failAt else None, h, now, start);
        RaisedOn(old(gates), before, gates);
        ProgressStays(batches, i, resume.value, before, resume.value, gates, prefix);
        if !ok {
          FollowedInPart(batches, failAt.value, resume.value, gates, prefix);
          StreamCloses(AsState(h, now, Some(start)), prefix);
          return;
        }
        BatchFinishes(AsState(h, now, Some(start)), batch.revision, prefix);
        PassedWhole(batch, if i == |batches| - 1 then failAt else None, gates, prefix);
        ProgressStep(batches, i, resume.value, Max(resume.value, batch.revision), gates, prefix);
        resume := Some(Max(resume.value, batch.revision));
      }
      FollowedWhole(batches, failAt, resume.value, gates, prefix);
      StreamCloses(AsState(worlds[|batches|].history, worlds[|batches|].now, Some(start)), prefix);
    }

    /** One turn of `run`: snapshot if there is no resume point, then follow the
        stream; a compaction clears the resume point and the gates. The entries
        reflect the cluster as it is when the turn ends, and the turn gets as far as the
        stream did: past every batch that was applied whole, and past every event before
        one that raised. When the last header is the present revision the registry
        mirrors the cluster. */
    method RunTurn(turn: Turn, ghost worlds: seq<World>) returns (ghost point: nat, ghost marks: Gates)
      requires TurnOffered(worlds, resume, turn) && Inv(AsState(worlds[0].history, worlds[0].now, None), prefix)
      modifies this, registry
      ensures Inv(AsState(worlds[|turn.batches|].history, worlds[|turn.batches|].now, None), prefix)
      ensures old(resume).None? && turn.snapshot.None? ==>
                resume.None? && gates == old(gates) && registry.nodes == old(registry.nodes)
      ensures old(resume).Some? || turn.snapshot.Some? ==>
                && (if turn.compacted then resume.None? && gates == map[] else resume == Some(point) && gates == marks)
                && Followed(turn.batches, turn.failAt, point, marks, prefix)
                && var w := worlds[|turn.batches|];
                   forall id: string | id != "" ::
                     Shows(Newest(w.history, KeyOf(prefix, id), Max(point, Gate(marks, id))), Get(registry.nodes, id))
      ensures old(resume).Some? ==> old(resume).value <= point && Raised(old(gates), marks)
      ensures old(resume).None? && turn.snapshot.Some? ==> turn.snapshot.value.revision <= point
      ensures var n, w := |turn.batches|, worlds[|turn.batches|];
              (old(resume).Some? || turn.snapshot.Some?) && n > 0 && turn.failAt.None? && turn.batches[n - 1].revision == w.now ==>
                && point == w.now
                && forall id: string | id != "" :: Shows(Newest(w.history, KeyOf(prefix, id), w.now), Get(registry.nodes, id))
    {
      hide Offered, Passed, Raised;
      hide FaithfulSnapshot, RegistryAfterSnapshot, GatesAfterSnapshot, WellFormed;
      ghost var h, now := worlds[0].history, worlds[0].now;
      point, marks := 0, gates;
      if resume.None? {
        if turn.snapshot.None? {
          return;
        }
        ghost var s := AsState(h, now, None).(fetched := turn.snapshot, gates := map[], marks := map[]);
        StepKeeps(s, Step.ReconcileSnapshot, prefix);
        ReconcileSnapshot(turn.snapshot.value);
        resume := Some(turn.snapshot.value.revision);
        assert AsState(h, now, None) == Next(s, Step.ReconcileSnapshot, prefix);
      }
      FollowStream(turn.batches, turn.failAt, worlds);
      point, marks := resume.value, gates;
      if turn.compacted {
        resume, gates := None, map[];
      }
    }
  }
}
