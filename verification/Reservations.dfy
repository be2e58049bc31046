/** Connection reservations of any number of concurrent requests, the drain sweep
    that trusts their counts, and the two-step release of a reservation. */
module Reservations {
  import opened Wrappers
  import opened Registry

  /** A reservation object: held, flagged as released but not yet counted down, or
      counted down. Any finalizer may call `release` at any time. */
  datatype Phase = Held | Flagged | Done

  datatype Reservation = Reservation(node: string, phase: Phase)

  datatype State = State(nodes: Nodes, counts: map<string, nat>, reservations: seq<Reservation>)

  datatype Step =
    | SelectAndReserve(node: string, excluded: set<string>)
    | CallRelease(id: nat)
    | CountDown(id: nat)
    | DrainNode(node: string)
    | Discover(entry: Node)
    | Probe(node: string, status: Status)
    | Sweep
    | Forget(node: string)

  function Count(counts: map<string, nat>, node: string): nat {
    if node in counts then counts[node] else 0
  }

  function Busy(counts: map<string, nat>): set<string> {
    set node | node in counts && counts[node] > 0
  }

  function SweepAll(s: State): State {
    State(Swept(s.nodes, Busy(s.counts)), s.counts - Drained(s.nodes, Busy(s.counts)), s.reservations)
  }

  predicate Enabled(s: State, step: Step) {
    match step
    case SelectAndReserve(node, excluded) => node in s.nodes && s.nodes[node].status.Healthy? && node !in excluded
    case CallRelease(id) => id < |s.reservations|
    case CountDown(id) => id < |s.reservations| && s.reservations[id].phase.Flagged?
    case Probe(_, status) => Liveness(status)
    case _ => true
  }

  function Increment(counts: map<string, nat>, node: string): map<string, nat> {
    counts[node := Count(counts, node) + 1]
  }

  /** Floored at zero. */
  function Decrement(counts: map<string, nat>, node: string): map<string, nat> {
    if Count(counts, node) > 0 then counts[node := Count(counts, node) - 1] else counts
  }

  function Next(s: State, step: Step): State
    requires Enabled(s, step)
  {
    match step
    case SelectAndReserve(node, _) =>
      s.(counts := Increment(s.counts, node), reservations := s.reservations + [Reservation(node, Held)])
    case CallRelease(id) =>
      // The flag is tested and set under the reservation's own lock; a second
      // caller returns at once.
      if s.reservations[id].phase.Held?
      then s.(reservations := s.reservations[id := s.reservations[id].(phase := Flagged)])
      else s
    case CountDown(id) =>
      var r := s.reservations[id];
      SweepAll(s.(counts := Decrement(s.counts, r.node), reservations := s.reservations[id := r.(phase := Done)]))
    case DrainNode(node) => s.(nodes := WithDrained(s.nodes, node))
    case Discover(entry) => s.(nodes := WithDiscovered(s.nodes, entry))
    case Probe(node, status) => s.(nodes := WithStatus(s.nodes, node, status, {Healthy, Unhealthy, Unknown}))
    case Sweep => SweepAll(s)
    // The provisioner drops a node and its count whatever is in flight.
    case Forget(node) => s.(nodes := s.nodes - {node}, counts := s.counts - {node})
  }

  /** The states that the steps pass through. */
  ghost predicate Trace(states: seq<State>, steps: seq<Step>) {
    && |states| == |steps| + 1
    && forall k | 0 <= k < |steps| :: Enabled(states[k], steps[k]) && states[k + 1] == Next(states[k], steps[k])
  }

  /** The reservations on the node that have not been counted down. */
  function Outstanding(reservations: seq<Reservation>, node: string): nat {
    if reservations == [] then 0
    else
      var n := |reservations| - 1;
      Outstanding(reservations[..n], node) + (if Open(reservations[n], node) then 1 else 0)
  }

  predicate Open(r: Reservation, node: string) {
    r.node == node && !r.phase.Done?
  }

  /** Changing one reservation changes the number outstanding by that one alone. */
  lemma {:induction false} OutstandingUpdate(rs: seq<Reservation>, id: nat, r: Reservation, node: string)
    requires id < |rs|
    ensures Outstanding(rs[id := r], node) ==
            Outstanding(rs, node) - (if Open(rs[id], node) then 1 else 0) + (if Open(r, node) then 1 else 0)
  {
    var n := |rs| - 1;
    if id < n {
      assert rs[id := r][..n] == rs[..n][id := r];
      OutstandingUpdate(rs[..n], id, r, node);
    } else {
      assert rs[id := r][..n] == rs[..n];
    }
  }

  lemma {:induction false} OpenIsCounted(rs: seq<Reservation>, id: nat)
    requires id < |rs| && !rs[id].phase.Done?
    ensures Outstanding(rs, rs[id].node) > 0
  {
    if id < |rs| - 1 {
      OpenIsCounted(rs[..|rs| - 1], id);
    }
  }

  ghost predicate Exact(s: State) {
    forall node :: Count(s.counts, node) == Outstanding(s.reservations, node)
  }

  /** Dropping a node's count is safe when none of its reservations is open. */
  predicate Idle(s: State, step: Step) {
    step.Forget? ==> Outstanding(s.reservations, step.node) == 0
  }

  /** Each step moves a node's count and its open reservations alike, unless it
      forgets a node that is in use. */
  lemma StepExact(s: State, step: Step)
    requires Exact(s) && Enabled(s, step)
    ensures Exact(Next(s, step)) <==> Idle(s, step)
  {
    var t := Next(s, step);
    if Idle(s, step) {
      forall node ensures Count(t.counts, node) == Outstanding(t.reservations, node) {
        StepOutstanding(s, step, node);
      }
    } else {
      assert Count(t.counts, step.node) == 0 < Outstanding(t.reservations, step.node);
    }
  }

  /** The change one step makes to the open reservations of a node. */
  lemma StepOutstanding(s: State, step: Step, node: string)
    requires Enabled(s, step)
    ensures Outstanding(Next(s, step).reservations, node) - Outstanding(s.reservations, node) ==
            match step
            case SelectAndReserve(picked, _) => if picked == node then 1 else 0
            case CountDown(id) => if s.reservations[id].node == node then -1 else 0
            case _ => 0
    ensures Exact(s) && step.CountDown? ==> Count(s.counts, s.reservations[step.id].node) > 0
    ensures step.CountDown? ==>
      Count(Next(s, step).counts, node) == Count(Decrement(s.counts, s.reservations[step.id].node), node)
    ensures step.Sweep? ==> Count(Next(s, step).counts, node) == Count(s.counts, node)
  {
    match step
    case SelectAndReserve(_, _) =>
      assert Next(s, step).reservations[..|s.reservations|] == s.reservations;
    case CallRelease(id) =>
      if s.reservations[id].phase.Held? {
        OutstandingUpdate(s.reservations, id, s.reservations[id].(phase := Flagged), node);
      }
    case CountDown(id) =>
      OutstandingUpdate(s.reservations, id, s.reservations[id].(phase := Done), node);
      OpenIsCounted(s.reservations, id);
    case _ =>
  }

  /** In every interleaving of requests, releases, drains, sweeps, discovery and
      probes, the counts are exact in every state if and only if no step forgets a
      node that still has open reservations. */
  lemma {:induction false} CountsExactIff(states: seq<State>, steps: seq<Step>)
    requires Trace(states, steps) && Exact(states[0])
    ensures (forall k | 0 <= k < |states| :: Exact(states[k])) <==>
            (forall k | 0 <= k < |steps| :: Idle(states[k], steps[k]))
  {
    if forall k | 0 <= k < |steps| :: Idle(states[k], steps[k]) {
      ExactAt(states, steps, |steps|);
    } else {
      var k :| 0 <= k < |steps| && !Idle(states[k], steps[k]);
      if Exact(states[k]) {
        StepExact(states[k], steps[k]);
        assert !Exact(states[k + 1]);
      }
    }
  }

  lemma {:induction false} ExactAt(states: seq<State>, steps: seq<Step>, k: nat)
    requires Trace(states, steps) && Exact(states[0]) && k <= |steps|
    requires forall i | 0 <= i < k :: Idle(states[i], steps[i])
    ensures forall i | 0 <= i <= k :: Exact(states[i])
  {
    if k > 0 {
      ExactAt(states, steps, k - 1);
      StepExact(states[k - 1], steps[k - 1]);
    }
  }

  /** So a node with an open reservation is never swept away: only a release that
      closes its last one, or an explicit removal, takes it out. */
  lemma {:induction false} NodesInUseStay(states: seq<State>, steps: seq<Step>, k: nat, node: string)
    requires Trace(states, steps) && Exact(states[0]) && k < |steps|
    requires forall i | 0 <= i < |steps| :: Idle(states[i], steps[i])
    requires node in states[k].nodes && Outstanding(states[k + 1].reservations, node) > 0
    ensures node in states[k + 1].nodes
  {
    ExactAt(states, steps, |steps|);
    StepOutstanding(states[k], steps[k], node);
    var s := states[k];
    assert Exact(states[k]) && Exact(states[k + 1]);
    match steps[k]
    case Sweep =>
      assert Count(s.counts, node) > 0;
    case CountDown(id) =>
      assert Count(Decrement(s.counts, s.reservations[id].node), node) > 0;
    case _ =>
  }

  /** And a sweep is complete: behind it, and behind every release, a DRAINING node is
      left only while a reservation on it is open. */
  lemma {:induction false} DrainedNodesGo(states: seq<State>, steps: seq<Step>, k: nat, node: string)
    requires Trace(states, steps) && Exact(states[0]) && k < |steps| && (steps[k].Sweep? || steps[k].CountDown?)
    requires forall i | 0 <= i < |steps| :: Idle(states[i], steps[i])
    requires node in states[k + 1].nodes && states[k + 1].nodes[node].status.Draining?
    ensures Outstanding(states[k + 1].reservations, node) > 0
  {
    ExactAt(states, steps, |steps|);
    assert Exact(states[k + 1]);
    var s := states[k];
    var swept := if steps[k].Sweep? then s
      else
        var r := s.reservations[steps[k].id];
        s.(counts := Decrement(s.counts, r.node), reservations := s.reservations[steps[k].id := r.(phase := Done)]);
    assert states[k + 1] == SweepAll(swept);
    assert node in Busy(swept.counts);
  }

  lemma PhaseAdvances(s: State, step: Step, id: nat)
    requires Enabled(s, step) && id < |s.reservations|
    ensures var before, after := s.reservations, Next(s, step).reservations;
            && id < |after| && after[id].node == before[id].node
            && (before[id].phase.Done? ==> after[id].phase.Done?)
            && (!before[id].phase.Held? || step == CallRelease(id) ==> !after[id].phase.Held?)
  {
  }

  /** A call to `release` leaves the reservation flagged at least, and phases only
      move forward. */
  lemma {:induction false} PhasesAdvance(states: seq<State>, steps: seq<Step>, i: nat, j: nat, id: nat)
    requires Trace(states, steps) && i <= j < |states| && id < |states[i].reservations|
    ensures id < |states[j].reservations| && states[j].reservations[id].node == states[i].reservations[id].node
    ensures states[i].reservations[id].phase.Done? ==> states[j].reservations[id].phase.Done?
    ensures !states[i].reservations[id].phase.Held? ==> !states[j].reservations[id].phase.Held?
    ensures i < j && steps[i] == CallRelease(id) ==> !states[j].reservations[id].phase.Held?
    decreases j - i
  {
    hide Next, Enabled;
    if i < j {
      PhaseAdvances(states[i], steps[i], id);
      PhasesAdvance(states, steps, i + 1, j, id);
    }
  }

  /** The counted-down steps of one reservation over a whole run. */
  function CountDowns(steps: seq<Step>, id: nat): nat {
    if steps == [] then 0 else CountDowns(steps[1..], id) + (if steps[0] == CountDown(id) then 1 else 0)
  }

  /** However many finalizers compete, a reservation is counted down exactly once
      when it ends the run as done, and never otherwise. */
  lemma {:induction false} CountedDownOnce(states: seq<State>, steps: seq<Step>, id: nat)
    requires Trace(states, steps)
    requires id < |states[0].reservations| ==> !states[0].reservations[id].phase.Done?
    ensures var last := states[|steps|].reservations;
            CountDowns(steps, id) == if id < |last| && last[id].phase.Done? then 1 else 0
  {
    if steps != [] {
      var rest := states[1..];
      assert states[1] == Next(states[0], steps[0]);
      assert Trace(rest, steps[1..]);
      assert rest[|steps| - 1] == states[|steps|];
      if id < |rest[0].reservations| && rest[0].reservations[id].phase.Done? {
        assert steps[0] == CountDown(id);
        NoMoreCountDowns(rest, steps[1..], id);
      } else {
        CountedDownOnce(rest, steps[1..], id);
      }
    }
  }

  lemma {:induction false} NoMoreCountDowns(states: seq<State>, steps: seq<Step>, id: nat)
    requires Trace(states, steps)
    requires id < |states[0].reservations| && states[0].reservations[id].phase.Done?
    ensures CountDowns(steps, id) == 0
    ensures id < |states[|steps|].reservations| && states[|steps|].reservations[id].phase.Done?
  {
    if steps != [] {
      var rest := states[1..];
      assert states[1] == Next(states[0], steps[0]);
      assert Trace(rest, steps[1..]);
      NoMoreCountDowns(rest, steps[1..], id);
    }
  }

  /** A node forgotten and rediscovered while a request is on it: the request is no
      longer counted, and a drain sweeps the node away under it. */
  lemma ForgettingLosesCount(entry: Node) returns (states: seq<State>, steps: seq<Step>)
    requires entry.status.Healthy?
    ensures Trace(states, steps) && Exact(states[0]) && |steps| > 0
    ensures Outstanding(states[|steps|].reservations, entry.id) == 1
    ensures entry.id in states[|steps| - 1].nodes && entry.id !in states[|steps|].nodes
  {
    var id := entry.id;
    var up, down := map[id := entry], map[id := entry.(status := Draining)];
    var held := [Reservation(id, Held)];
    assert held[..0] == [];
    steps := [Forget(id), Discover(entry), DrainNode(id), Sweep];
    states := [
      State(up, map[id := 1], held), State(map[], map[], held), State(up, map[], held),
      State(down, map[], held), State(map[], map[], held)];
    assert Drained(down, {}) == {id} && Busy(map[]) == {};
    assert Next(states[0], steps[0]) == states[1];
    assert Next(states[3], steps[3]) == states[4];
  }
}
