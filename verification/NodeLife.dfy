/** One node's life, end to end: what the protocol does when nothing goes wrong. */
module NodeLife {
  import opened Wrappers
  import opened Registry
  import opened EtcdHistory
  import opened Discovery
  import opened DiscoveryTheorems

  /** Run one more step from a known state. */
  lemma OneMore(s: State, steps: seq<Step>, prefix: string, t: State, step: Step)
    requires Run(s, steps, prefix) == Some(t) && Enabled(t, step)
    ensures Run(s, steps + [step], prefix) == Some(Next(t, step, prefix))
  {
    hide Enabled, Next;
    assert (steps + [step])[..|steps|] == steps;
  }

  /** A cluster without keys, and a watcher that has just started. */
  function Empty(): State {
    State([], 0, map[], None, map[], None, None, None, false, 0, map[])
  }

  /** A watcher follows its cluster to `now`, with the stream open since `start`. */
  predicate Following(t: State, h: History, now: nat, start: nat, nodes: Nodes) {
    && t.history == h && t.now == now && t.nodes == nodes
    && t.resume == Some(now) && t.stream == Some(start) && t.batch.None? && t.fetched.None?
  }

  /** A run from the empty cluster that ends with the watcher caught up. */
  ghost predicate Leads(steps: seq<Step>, prefix: string, h: History, now: nat, nodes: Nodes, gates: Gates) {
    var end := Run(Empty(), steps, prefix);
    end.Some? && Following(end.value, h, now, 0, nodes) && end.value.gates == gates
  }

  /** A snapshot, and the stream behind it. */
  function Start(): seq<Step> {
    [] + [FetchSnapshot(Snapshot([], 0))] + [ReconcileSnapshot] + [OpenStream]
  }

  /** A commit of the cluster that the stream delivers. */
  function Hear(steps: seq<Step>, event: Event): seq<Step> {
    steps + [Commit([event])] + [Receive(Batch([event], event.rev))] + [ApplyEvent] + [FinishBatch]
  }

  lemma Starts(prefix: string)
    ensures Leads(Start(), prefix, [], 0, map[], map[])
  {
    var s, snapshot := Empty(), Snapshot([], 0);
    assert Run(s, [], prefix) == Some(s);
    OneMore(s, [], prefix, s, FetchSnapshot(snapshot));
    var fetched := s.(fetched := Some(snapshot));
    OneMore(s, [] + [FetchSnapshot(snapshot)], prefix, fetched, ReconcileSnapshot);
    var reconciled := Next(fetched, ReconcileSnapshot, prefix);
    assert FoundNodes([], prefix) == map[] && SeededGates([], prefix) == map[];
    assert reconciled.nodes == map[] && reconciled.gates == map[];
    OneMore(s, [] + [FetchSnapshot(snapshot)] + [ReconcileSnapshot], prefix, reconciled, OpenStream);
  }

  /** One commit of the cluster reaches the registry through the stream. */
  lemma Hears(steps: seq<Step>, prefix: string, h: History, now: nat, nodes: Nodes, gates: Gates, event: Event)
    requires Leads(steps, prefix, h, now, nodes, gates)
    requires event.rev == now + 1 && forall e | e in h :: e.rev <= now
    ensures Leads(Hear(steps, event), prefix, h + [event], now + 1,
                  RegistryAfterEvent(nodes, gates, event, prefix), GatesAfterEvent(gates, event, prefix))
  {
    var s, t0 := Empty(), Run(Empty(), steps, prefix).value;
    OneMore(s, steps, prefix, t0, Commit([event]));
    var t1 := Next(t0, Commit([event]), prefix);
    var batch := Batch([event], now + 1);
    assert FaithfulBatch(t1.history, 0, now, batch);
    OneMore(s, steps + [Commit([event])], prefix, t1, Receive(batch));
    var t2 := Next(t1, Receive(batch), prefix);
    OneMore(s, steps + [Commit([event])] + [Receive(batch)], prefix, t2, ApplyEvent);
    var t3 := Next(t2, ApplyEvent, prefix);
    OneMore(s, steps + [Commit([event])] + [Receive(batch)] + [ApplyEvent], prefix, t3, FinishBatch);
  }

  lemma RegistersAndLeaves(prefix: string, id: string, status: Status, details: Details)
    requires id != ""
    ensures var put := Event(KeyOf(prefix, id), 1, Put(Registration(status, details)));
            && RegistryAfterEvent(map[], map[], put, prefix) == map[id := Node(id, status, details)]
            && GatesAfterEvent(map[], put, prefix) == map[id := 1]
    ensures var delete := Event(KeyOf(prefix, id), 2, Delete);
            && RegistryAfterEvent(map[id := Node(id, status, details)], map[id := 1], delete, prefix) ==
               map[id := Node(id, Draining, details)]
            && GatesAfterEvent(map[id := 1], delete, prefix) == map[id := 2]
  {
    NodeIdInverse(KeyOf(prefix, id), prefix, id);
    assert map[id := 1][id := 2] == map[id := 2];
  }

  /** The health checker finds the node unhealthy. */
  lemma FallsSick(steps: seq<Step>, prefix: string, h: History, id: string, details: Details, gates: Gates)
    requires Leads(steps, prefix, h, 1, map[id := Node(id, Healthy, details)], gates)
    ensures Leads(steps + [LocalLiveness(id, Unhealthy, {Healthy})], prefix, h, 1, map[id := Node(id, Unhealthy, details)], gates)
  {
    hide Run;
    OneMore(Empty(), steps, prefix, Run(Empty(), steps, prefix).value, LocalLiveness(id, Unhealthy, {Healthy}));
  }

  /** The sweep removes a node that is leaving and that nothing is connected to. */
  lemma IsSweptAway(steps: seq<Step>, prefix: string, h: History, now: nat, id: string, details: Details, gates: Gates)
    requires Leads(steps, prefix, h, now, map[id := Node(id, Draining, details)], gates)
    ensures Leads(steps + [Sweep({})], prefix, h, now, map[], gates)
  {
    hide Run;
    OneMore(Empty(), steps, prefix, Run(Empty(), steps, prefix).value, Sweep({}));
    assert Drained(map[id := Node(id, Draining, details)], {}) == {id};
  }

  /** A compaction makes the watcher ask again, with the registry as it is. */
  lemma LosesPlace(steps: seq<Step>, prefix: string, h: History, now: nat, nodes: Nodes, gates: Gates)
    requires Leads(steps, prefix, h, now, nodes, gates)
    ensures var end := Run(Empty(), steps + [Compacted], prefix);
            end.Some? && end.value.resume.None? && end.value.gates == map[] && end.value.nodes == nodes
  {
    hide Run;
    OneMore(Empty(), steps, prefix, Run(Empty(), steps, prefix).value, Compacted);
  }

  /** A node registers, is found unhealthy, unregisters and is swept away: the runs that
      lead there show exactly that in the registry, with the watcher caught up. */
  lemma ANodeComesAndGoes(prefix: string, id: string, details: Details)
    requires id != ""
    ensures Initial(Empty())
    ensures var key := KeyOf(prefix, id);
            var put, delete := Event(key, 1, Put(Registration(Healthy, details))), Event(key, 2, Delete);
            var up := Hear(Start(), put);
            var sick := up + [LocalLiveness(id, Unhealthy, {Healthy})];
            var leaving := Hear(sick, delete);
            && Leads(up, prefix, [] + [put], 1, map[id := Node(id, Healthy, details)], map[id := 1])
            && Leads(sick, prefix, [] + [put], 1, map[id := Node(id, Unhealthy, details)], map[id := 1])
            && Leads(leaving, prefix, [] + [put] + [delete], 2, map[id := Node(id, Draining, details)], map[id := 2])
            && Leads(leaving + [Sweep({})], prefix, [] + [put] + [delete], 2, map[], map[id := 2])
  {
    hide Leads, RegistryAfterEvent, GatesAfterEvent, Hear, Start;
    var key := KeyOf(prefix, id);
    var put, delete := Event(key, 1, Put(Registration(Healthy, details))), Event(key, 2, Delete);
    RegistersAndLeaves(prefix, id, Healthy, details);
    RegistersAndLeaves(prefix, id, Unhealthy, details);
    Starts(prefix);
    var up := Hear(Start(), put);
    Hears(Start(), prefix, [], 0, map[], map[], put);
    FallsSick(up, prefix, [] + [put], id, details, map[id := 1]);
    var sick := up + [LocalLiveness(id, Unhealthy, {Healthy})];
    Hears(sick, prefix, [] + [put], 1, map[id := Node(id, Unhealthy, details)], map[id := 1], delete);
    IsSweptAway(Hear(sick, delete), prefix, [] + [put] + [delete], 2, id, details, map[id := 2]);
  }
}
