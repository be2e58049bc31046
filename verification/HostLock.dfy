/** The host mutation fence: an flock that lives with an open file description,
    so that it outlasts the supervisor for as long as any process that inherited
    a copy of the descriptor keeps it open. */
module HostLock {
  import opened Wrappers

  type Pid = nat

  /** One open file description of host.lock, opened by one worker. */
  type Description = nat

  datatype Role =
    | Supervisor           // the recorder process of a worker
    | Mutating             // part of the worker's command, before any handoff
    | Serving              // a long-lived engine past the handoff

  datatype Process = Process(worker: nat, role: Role, copies: set<Description>)

  datatype State = State(
    processes: map<Pid, Process>,
    openedBy: map<Description, nat>,     // which worker opened each description
    holder: Option<Description>)       // which description the kernel has locked

  datatype Step =
    | StartWorker(pid: Pid, worker: nat)
    | AcquireHostLock(pid: Pid, description: Description)
    | Launch(pid: Pid, child: Pid)     // Popen with the lock descriptor passed on
    | Fork(pid: Pid, child: Pid)
    | HandOff(pid: Pid)                // the start script closes QIIP_LOCK_FD
    | ReleaseHostLock(pid: Pid)        // the supervisor closes its copy
    | Exit(pid: Pid)                   // completion, SIGKILL, timeout or crash

  predicate Enabled(s: State, step: Step) {
    match step
    case StartWorker(pid, worker) =>
      && pid !in s.processes
      && (forall p | p in s.processes :: s.processes[p].worker != worker)
      && (forall d | d in s.openedBy :: s.openedBy[d] != worker)
    case AcquireHostLock(pid, description) =>
      pid in s.processes && s.processes[pid].role.Supervisor? && s.processes[pid].copies == {} && description !in s.openedBy
    case Launch(pid, child) =>
      // `(fd, True)`: the worker goes on only with the lock in hand.
      && pid in s.processes && s.processes[pid].role.Supervisor? && child !in s.processes
      && s.holder.Some? && s.holder.value in s.processes[pid].copies
    case Fork(pid, child) => pid in s.processes && !s.processes[pid].role.Supervisor? && child !in s.processes
    case HandOff(pid) => pid in s.processes && !s.processes[pid].role.Supervisor?
    case ReleaseHostLock(pid) => pid in s.processes && s.processes[pid].role.Supervisor?
    case Exit(pid) => pid in s.processes
  }

  /** The kernel drops the lock when the last copy of its description is closed. */
  function Settled(processes: map<Pid, Process>, holder: Option<Description>): Option<Description> {
    if holder.Some? && exists p | p in processes :: holder.value in processes[p].copies then holder else None
  }

  function Next(s: State, step: Step): State
    requires Enabled(s, step)
  {
    match step
    case StartWorker(pid, worker) => s.(processes := s.processes[pid := Process(worker, Supervisor, {})])
    case AcquireHostLock(pid, d) =>
      // LOCK_NB: a held lock closes the new descriptor again and the worker gives up.
      if s.holder.Some? then s
      else
        var p := s.processes[pid];
        State(s.processes[pid := p.(copies := {d})], s.openedBy[d := p.worker], Some(d))
    case Launch(pid, child) =>
      var p := s.processes[pid];
      s.(processes := s.processes[child := Process(p.worker, Mutating, p.copies)])
    case Fork(pid, child) => s.(processes := s.processes[child := s.processes[pid]])
    case HandOff(pid) =>
      var processes := s.processes[pid := s.processes[pid].(role := Serving, copies := {})];
      s.(processes := processes, holder := Settled(processes, s.holder))
    case ReleaseHostLock(pid) =>
      var processes := s.processes[pid := s.processes[pid].(copies := {})];
      s.(processes := processes, holder := Settled(processes, s.holder))
    case Exit(pid) =>
      var processes := s.processes - {pid};
      s.(processes := processes, holder := Settled(processes, s.holder))
  }

  function Run(s: State, steps: seq<Step>): Option<State> {
    if steps == [] then Some(s)
    else
      var before := Run(s, steps[..|steps| - 1]);
      if before.Some? && Enabled(before.value, steps[|steps| - 1])
      then Some(Next(before.value, steps[|steps| - 1]))
      else None
  }

  const BOOTED := State(map[], map[], None)

  ghost predicate Inv(s: State) {
    // A copy belongs to the worker that opened the description, which is the locked one.
    && (forall p, d | p in s.processes && d in s.processes[p].copies ::
          d in s.openedBy && s.openedBy[d] == s.processes[p].worker && s.holder == Some(d))
    // Whatever still mutates the host holds a copy.
    && (forall p | p in s.processes && s.processes[p].role.Mutating? :: s.processes[p].copies != {})
    // Past the handoff nothing holds the fence.
    && (forall p | p in s.processes && s.processes[p].role.Serving? :: s.processes[p].copies == {})
    // A held lock is held by somebody.
    && (s.holder.Some? ==> exists p | p in s.processes :: s.holder.value in s.processes[p].copies)
  }

  lemma StepKeeps(s: State, step: Step)
    requires Inv(s) && Enabled(s, step)
    ensures Inv(Next(s, step))
  {
    var t := Next(s, step);
    match step
    case Launch(pid, child) =>
      assert t.holder.value in t.processes[pid].copies;
    case AcquireHostLock(pid, d) =>
      assert s.holder.None? ==> d in t.processes[pid].copies;
      HolderStays(s, t);
    case Fork(_, _) => HolderStays(s, t);
    case StartWorker(_, _) => HolderStays(s, t);
    case _ =>
      forall p, d | p in t.processes && d in t.processes[p].copies ensures t.holder == Some(d) {
        assert d in s.processes[p].copies;
      }
  }

  /** A process that keeps its copy keeps the lock held. */
  lemma HolderStays(s: State, t: State)
    requires Inv(s)
    requires s.holder.Some? ==> t.holder == s.holder
    requires forall p | p in s.processes && s.processes[p].copies != {} :: p in t.processes && t.processes[p] == s.processes[p]
    ensures s.holder.Some? ==> exists p | p in t.processes :: t.holder.value in t.processes[p].copies
  {
    if s.holder.Some? {
      var p :| p in s.processes && s.holder.value in s.processes[p].copies;
      assert t.holder.value in t.processes[p].copies;
    }
  }

  lemma CopyHoldsLock(s: State, p: Pid)
    requires Inv(s) && p in s.processes && s.processes[p].copies != {}
    ensures s.holder.Some? && s.holder.value in s.openedBy && s.openedBy[s.holder.value] == s.processes[p].worker
  {
    var d :| d in s.processes[p].copies;
    assert s.holder == Some(d);
  }

  lemma {:induction false} RunKeeps(steps: seq<Step>)
    requires Run(BOOTED, steps).Some?
    ensures Inv(Run(BOOTED, steps).value)
  {
    if steps != [] {
      RunKeeps(steps[..|steps| - 1]);
      StepKeeps(Run(BOOTED, steps[..|steps| - 1]).value, steps[|steps| - 1]);
    }
  }

  /** No two workers' commands run on the host at once, through any exits, kills,
      releases, forks and handoffs: two processes that still mutate the host were
      launched by the same worker. */
  lemma OneWorkerMutates(steps: seq<Step>, p: Pid, q: Pid)
    requires Run(BOOTED, steps).Some?
    requires var s := Run(BOOTED, steps).value;
             p in s.processes && q in s.processes && s.processes[p].role.Mutating? && s.processes[q].role.Mutating?
    ensures var s := Run(BOOTED, steps).value;
            s.processes[p].worker == s.processes[q].worker
  {
    RunKeeps(steps);
    var s := Run(BOOTED, steps).value;
    CopyHoldsLock(s, p);
    CopyHoldsLock(s, q);
  }

  /** The case the fence is for: a worker launches its command, the command forks, and the
      supervisor and the command are gone; the survivor still mutates the host, and a second
      worker that asks for the lock does not get it. */
  lemma SurvivorKeepsFence() returns (steps: seq<Step>)
    ensures Run(BOOTED, steps).Some?
    ensures var s := Run(BOOTED, steps).value;
            && 3 in s.processes && s.processes[3] == Process(1, Mutating, {0}) && s.holder == Some(0)
            && 1 !in s.processes && 2 !in s.processes
            && 4 in s.processes && s.processes[4] == Process(2, Supervisor, {})
            && Enabled(s, AcquireHostLock(4, 1)) && Next(s, AcquireHostLock(4, 1)) == s
  {
    hide Enabled, Next;
    LaunchAndFork();
    SupervisorAndCommandExit();
    var first, command := Process(1, Supervisor, {0}), Process(1, Mutating, {0});
    steps := OneMore([], BOOTED, StartWorker(1, 1));
    steps := OneMore(steps, State(map[1 := Process(1, Supervisor, {})], map[], None), AcquireHostLock(1, 0));
    steps := OneMore(steps, State(map[1 := first], map[0 := 1], Some(0)), Launch(1, 2));
    steps := OneMore(steps, State(map[1 := first, 2 := command], map[0 := 1], Some(0)), Fork(2, 3));
    steps := OneMore(steps, State(map[1 := first, 2 := command, 3 := command], map[0 := 1], Some(0)), Exit(1));
    steps := OneMore(steps, State(map[2 := command, 3 := command], map[0 := 1], Some(0)), Exit(2));
    steps := OneMore(steps, State(map[3 := command], map[0 := 1], Some(0)), StartWorker(4, 2));
  }

  lemma LaunchAndFork()
    ensures var first, command := Process(1, Supervisor, {0}), Process(1, Mutating, {0});
            var a, b := State(map[1 := Process(1, Supervisor, {})], map[], None), State(map[1 := first], map[0 := 1], Some(0));
            var c := State(map[1 := first, 2 := command], map[0 := 1], Some(0));
            && Enabled(BOOTED, StartWorker(1, 1)) && Next(BOOTED, StartWorker(1, 1)) == a
            && Enabled(a, AcquireHostLock(1, 0)) && Next(a, AcquireHostLock(1, 0)) == b
            && Enabled(b, Launch(1, 2)) && Next(b, Launch(1, 2)) == c
            && Enabled(c, Fork(2, 3))
            && Next(c, Fork(2, 3)) == State(map[1 := first, 2 := command, 3 := command], map[0 := 1], Some(0))
  {
  }

  lemma SupervisorAndCommandExit()
    ensures var first, command := Process(1, Supervisor, {0}), Process(1, Mutating, {0});
            var d := State(map[1 := first, 2 := command, 3 := command], map[0 := 1], Some(0));
            var e, f := State(map[2 := command, 3 := command], map[0 := 1], Some(0)), State(map[3 := command], map[0 := 1], Some(0));
            var g := State(map[3 := command, 4 := Process(2, Supervisor, {})], map[0 := 1], Some(0));
            && Enabled(d, Exit(1)) && Next(d, Exit(1)) == e
            && Enabled(e, Exit(2)) && Next(e, Exit(2)) == f
            && Enabled(f, StartWorker(4, 2)) && Next(f, StartWorker(4, 2)) == g
            && Enabled(g, AcquireHostLock(4, 1)) && Next(g, AcquireHostLock(4, 1)) == g
  {
    var first, command := Process(1, Supervisor, {0}), Process(1, Mutating, {0});
    var d := map[1 := first, 2 := command, 3 := command];
    assert d - {1} == map[2 := command, 3 := command] && (d - {1}) - {2} == map[3 := command];
    assert 0 in (d - {1})[3].copies && 0 in map[3 := command][3].copies;
  }

  lemma OneMore(steps: seq<Step>, s: State, step: Step) returns (longer: seq<Step>)
    requires Run(BOOTED, steps) == Some(s) && Enabled(s, step)
    ensures longer == steps + [step] && Run(BOOTED, longer) == Some(Next(s, step))
  {
    hide Enabled, Next;
    longer := steps + [step];
    assert longer[..|steps|] == steps;
  }

  /** A process that exits, hands off or releases lets go of its own copy and nobody
      else's, and the lock is free exactly when no copy is left. */
  lemma LettingGo(steps: seq<Step>, step: Step)
    requires Run(BOOTED, steps).Some? && Enabled(Run(BOOTED, steps).value, step)
    requires step.ReleaseHostLock? || step.HandOff? || step.Exit?
    ensures var s := Run(BOOTED, steps).value;
            var t := Next(s, step);
            && (step.pid in t.processes ==> t.processes[step.pid].copies == {})
            && (step.pid in t.processes <==> !step.Exit?)
            && t.processes - {step.pid} == s.processes - {step.pid}
            && (t.holder.Some? <==> exists p | p in s.processes && p != step.pid :: s.processes[p].copies != {})
  {
    RunKeeps(steps);
    var s := Run(BOOTED, steps).value;
    var t := Next(s, step);
    StepKeeps(s, step);
    forall p | p in s.processes && p != step.pid && s.processes[p].copies != {} ensures t.holder.Some? {
      assert p in t.processes && t.processes[p] == s.processes[p];
      CopyHoldsLock(t, p);
    }
  }

  /** A survivor blocks every other worker: while it mutates the host, nobody else
      can take the lock. A free lock is granted to whoever asks, no engine holds it past
      the handoff, and it is never wedged: once no supervisor, command
      or survivor of the last holder keeps a copy, it is free. */
  lemma LockHeldWhileUsed(steps: seq<Step>)
    requires Run(BOOTED, steps).Some?
    ensures var s := Run(BOOTED, steps).value;
            && ((exists p | p in s.processes :: s.processes[p].role.Mutating?) ==> s.holder.Some?)
            && (s.holder.Some? <==> exists p | p in s.processes :: s.processes[p].copies != {})
            && (s.holder.Some? ==> exists p | p in s.processes :: !s.processes[p].role.Serving? && s.processes[p].copies != {})
            && (forall pid, d | Enabled(s, AcquireHostLock(pid, d)) && s.holder.Some? :: Next(s, AcquireHostLock(pid, d)) == s)
            && (forall pid: Pid, d: Description | Enabled(s, AcquireHostLock(pid, d)) && s.holder.None? ::
                  var t := Next(s, AcquireHostLock(pid, d));
                  && t.holder == Some(d) && pid in t.processes && t.processes[pid].copies == {d}
                  && t.processes - {pid} == s.processes - {pid})
  {
    RunKeeps(steps);
    var s := Run(BOOTED, steps).value;
    forall p | p in s.processes && s.processes[p].copies != {} ensures s.holder.Some? {
      CopyHoldsLock(s, p);
    }
  }
}
