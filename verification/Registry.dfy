/** The in-memory node registry and the drain sweep. Every operation holds the
    registry lock for its whole body, so each method below is one atomic step. */
module Registry {
  import opened Wrappers

  datatype Status =
    | Available | Healthy | Unhealthy | Draining | Relaunching
    | RelaunchFailed | Provisioning | Failed | Unknown

  /** The fields of a registration that etcd owns: all of them but the status. */
  datatype Details = Details(name: string, endpoint: string, model: string, managed: bool, owner: string)

  datatype Node = Node(id: string, status: Status, details: Details)

  type Nodes = map<string, Node>

  /** The locally probed states. */
  predicate Liveness(status: Status) {
    status.Healthy? || status.Unhealthy? || status.Unknown?
  }

  /** The node has an entry with a locally probed state. */
  predicate Probed(nodes: Nodes, id: string) {
    id in nodes && Liveness(nodes[id].status)
  }

  /** An etcd value merged over the entry held for its id. */
  function Merged(current: Option<Node>, node: Node): Node {
    if current.Some? && Liveness(current.value.status) && Liveness(node.status)
    then node.(status := current.value.status)
    else node
  }

  function WithDiscovered(nodes: Nodes, node: Node): Nodes {
    nodes[node.id := Merged(Get(nodes, node.id), node)]
  }

  function WithDrained(nodes: Nodes, id: string): Nodes {
    if id in nodes then nodes[id := nodes[id].(status := Draining)] else nodes
  }

  function WithStatus(nodes: Nodes, id: string, status: Status, allowedFrom: set<Status>): Nodes {
    if id in nodes && nodes[id].status in allowedFrom
    then nodes[id := nodes[id].(status := status)]
    else nodes
  }

  function Missing(nodes: Nodes, found: Nodes, present: set<string>): set<string> {
    nodes.Keys + found.Keys - present
  }

  /** The entries after merging the found values whose ids are in `done`. */
  function MergedOver(nodes: Nodes, found: Nodes, done: set<string>): Nodes
    requires done <= found.Keys
  {
    map id | id in nodes.Keys + done :: if id in done then Merged(Get(nodes, id), found[id]) else nodes[id]
  }

  function DrainedOver(nodes: Nodes, ids: set<string>): Nodes {
    map id | id in nodes :: if id in ids then nodes[id].(status := Draining) else nodes[id]
  }

  function Reconciled(nodes: Nodes, found: Nodes, present: set<string>): Nodes {
    DrainedOver(MergedOver(nodes, found, found.Keys), Missing(nodes, found, present))
  }

  /** The entries a sweep removes when exactly the ids in `busy` hold connections. */
  function Drained(nodes: Nodes, busy: set<string>): set<string> {
    set id | id in nodes && nodes[id].status.Draining? && id !in busy
  }

  function Swept(nodes: Nodes, busy: set<string>): Nodes {
    nodes - Drained(nodes, busy)
  }

  /** Entries are filed under their own id. */
  predicate Filed(nodes: Nodes) {
    forall id | id in nodes :: nodes[id].id == id
  }

  lemma MergeStep(nodes: Nodes, found: Nodes, done: set<string>, id: string)
    requires done <= found.Keys && id in found.Keys - done && found[id].id == id
    ensures WithDiscovered(MergedOver(nodes, found, done), found[id]) == MergedOver(nodes, found, done + {id})
  {
    assert Get(MergedOver(nodes, found, done), id) == Get(nodes, id);
  }

  lemma DrainStep(nodes: Nodes, done: set<string>, id: string)
    requires id in nodes
    ensures WithDrained(DrainedOver(nodes, done), id) == DrainedOver(nodes, done + {id})
  {
  }

  class NodeRegistry {
    var nodes: Nodes

    constructor ()
      ensures nodes == map[]
    {
      nodes := map[];
    }

    /** A probed status survives a stored status that is probed too; in every other
        case the entry is the stored value. No other entry changes. */
    method AddDiscovered(node: Node)
      modifies this
      ensures nodes == WithDiscovered(old(nodes), node)
      ensures nodes == old(nodes)[node.id := nodes[node.id]] && nodes[node.id].(status := node.status) == node
      ensures nodes[node.id].status ==
              if && node.id in old(nodes) && old(nodes)[node.id].status in {Healthy, Unhealthy, Unknown}
                 && node.status in {Healthy, Unhealthy, Unknown}
              then old(nodes)[node.id].status else node.status
      ensures old(Filed(nodes)) ==> Filed(nodes)
    {
      var merged := node;
      if node.id in nodes {
        var current := nodes[node.id];
        if Liveness(current.status) && Liveness(node.status) {
          merged := node.(status := current.status);
        }
      }
      nodes := nodes[node.id := merged];
    }

    method Drain(id: string) returns (found: bool)
      modifies this
      ensures found == (id in old(nodes))
      ensures nodes == WithDrained(old(nodes), id)
      ensures nodes == if id in old(nodes) then old(nodes)[id := old(nodes)[id].(status := Draining)] else old(nodes)
    {
      found := id in nodes;
      if found {
        nodes := nodes[id := nodes[id].(status := Draining)];
      }
    }

    method UpdateStatus(id: string, status: Status, allowedFrom: set<Status>) returns (changed: bool)
      modifies this
      ensures nodes == WithStatus(old(nodes), id, status, allowedFrom)
      ensures changed == (id in old(nodes) && old(nodes)[id].status in allowedFrom)
      ensures nodes == if changed then old(nodes)[id := old(nodes)[id].(status := status)] else old(nodes)
    {
      changed := id in nodes && nodes[id].status in allowedFrom;
      if changed {
        nodes := nodes[id := nodes[id].(status := status)];
      }
    }

    method MergeFound(found: Nodes)
      requires Filed(found)
      modifies this
      ensures nodes == MergedOver(old(nodes), found, found.Keys)
    {
      ghost var before := nodes;
      var rest := found.Keys;
      assert MergedOver(before, found, {}) == before;
      while rest != {}
        invariant rest <= found.Keys
        invariant nodes == MergedOver(before, found, found.Keys - rest)
        decreases rest
      {
        var id :| id in rest;
        MergeStep(before, found, found.Keys - rest, id);
        AddDiscovered(found[id]);
        assert found.Keys - rest + {id} == found.Keys - (rest - {id});
        rest := rest - {id};
      }
    }

    method DrainMissing(missing: set<string>)
      requires missing <= nodes.Keys
      modifies this
      ensures nodes == DrainedOver(old(nodes), missing)
    {
      ghost var merged := nodes;
      var todo := missing;
      assert DrainedOver(merged, {}) == merged;
      while todo != {}
        invariant todo <= missing
        invariant nodes == DrainedOver(merged, missing - todo)
        decreases todo
      {
        var id :| id in todo;
        DrainStep(merged, missing - todo, id);
        var _ := Drain(id);
        assert missing - todo + {id} == missing - (todo - {id});
        todo := todo - {id};
      }
    }

    /** `reconcile_discovered`: merge what was found, then drain what is absent. */
    method ReconcileDiscovered(found: Nodes, present: set<string>) returns (missing: set<string>)
      requires Filed(found)
      modifies this
      ensures nodes == Reconciled(old(nodes), found, present)
      ensures missing == old(nodes).Keys + found.Keys - present && nodes.Keys == old(nodes).Keys + found.Keys
      ensures forall id | id in missing :: nodes[id].status.Draining?
      ensures forall id | id in found && id !in missing ::
                && nodes[id].(status := found[id].status) == found[id]
                && nodes[id].status == if Probed(old(nodes), id) && Liveness(found[id].status) then old(nodes)[id].status else found[id].status
      ensures forall id | id in old(nodes) && id !in found && id !in missing :: nodes[id] == old(nodes)[id]
    {
      MergeFound(found);
      missing := nodes.Keys - present;
      DrainMissing(missing);
    }

    method Remove(id: string)
      modifies this
      ensures nodes == old(nodes) - {id}
    {
      nodes := nodes - {id};
    }
  }

  /** `sweep_drained_nodes` over the registry and the connection counts: it
      removes exactly the DRAINING entries that nothing is connected to. */
  method SweepDrainedNodes(registry: NodeRegistry, counts: map<string, nat>)
    returns (removed: set<string>, left: map<string, nat>)
    modifies registry
    ensures registry.nodes == Swept(old(registry.nodes), set id | id in counts && counts[id] > 0)
    ensures forall id :: id in removed <==>
              && id in old(registry.nodes) && old(registry.nodes)[id].status.Draining?
              && (id in counts ==> counts[id] == 0)
    ensures registry.nodes == old(registry.nodes) - removed && left == counts - removed
  {
    ghost var before := registry.nodes;
    ghost var gone := Drained(before, set id | id in counts && counts[id] > 0);
    var listed := registry.nodes;
    var rest := listed.Keys;
    removed, left := {}, counts;
    while rest != {}
      invariant rest <= before.Keys
      invariant removed == gone - rest
      invariant registry.nodes == before - removed && left == counts - removed
      decreases rest
    {
      var id :| id in rest;
      var node := listed[id];
      if node.status.Draining? && (id !in left || left[id] == 0) {
        registry.Remove(id);
        left := left - {id};
        removed := removed + {id};
      }
      rest := rest - {id};
    }
  }
}
