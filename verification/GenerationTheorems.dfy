/** Crash safety of activation and rollback. Each program is first reduced to
    what its every prefix makes visible; the theorems quantify over the budgets,
    and so over every point at which a call can be stopped. */
module GenerationTheorems {
  import opened Wrappers
  import opened Generations

  /** The part of the files that later calls read. */
  datatype View = View(
    current: Option<Digest>, previous: Option<Digest>, journal: Option<Journal>,
    published: map<Digest, Directory>, passed: set<Digest>, failing: set<Digest>)

  function Seen(f: Files): View {
    View(f.current, f.previous, f.journal, f.published, f.passed, f.failing)
  }

  function Linked(v: View, link: Link, target: Digest): View {
    if link.Current? then v.(current := Some(target)) else v.(previous := Some(target))
  }

  // ------------------------------------------------- what prefixes make visible

  lemma {:induction false} ExecConcat(f: Files, p: seq<Op>, q: seq<Op>, budget: nat)
    ensures Exec(f, p + q, budget) ==
            match Exec(f, p, budget)
            case Stopped(g) => Stopped(g)
            case Done(g, left) => Exec(g, q, left)
    decreases |p|
  {
    if p == [] {
      assert p + q == q;
    } else {
      assert (p + q)[0] == p[0] && (p + q)[1..] == p[1..] + q;
      if budget > 0 && Succeeds(f, p[0]) {
        ExecConcat(Apply(f, p[0]), p[1..], q, budget - 1);
      }
    }
  }

  /** A program that completes does the same with more budget. */
  lemma {:induction false} MoreBudget(f: Files, p: seq<Op>, budget: nat, extra: nat)
    requires Exec(f, p, budget).Done?
    ensures Exec(f, p, budget + extra) == Done(Exec(f, p, budget).files, Exec(f, p, budget).left + extra)
    decreases |p|
  {
    if p != [] {
      MoreBudget(Apply(f, p[0]), p[1..], budget - 1, extra);
    }
  }

  lemma ExecOne(f: Files, op: Op, budget: nat)
    ensures Exec(f, [op], budget) ==
            if budget == 0 || !Succeeds(f, op) then Stopped(f) else Done(Apply(f, op), budget - 1)
  {
    assert [op][1..] == [];
  }

  lemma ExecNone(f: Files, budget: nat)
    ensures Exec(f, [], budget) == Done(f, budget)
  {
  }

  function Stage(budget: nat, cost: nat, before: View, after: View): View {
    if budget < cost then before else after
  }

  /** `atomic_link` shows nothing before its rename, and the new link after it. */
  lemma LinkForm(f: Files, target: Digest, link: Link, budget: nat)
    ensures var r := Exec(f, LinkOps(target, link), budget);
            && Seen(r.files) == Stage(budget, 3, Seen(f), Linked(Seen(f), link, target))
            && r.files.staged == f.staged
            && (r.Done? <==> budget >= 3) && (r.Done? ==> r.left == budget - 3)
  {
    var a, b, c := DropPending(link), MakePending(link, target), ReplaceLink(link);
    assert LinkOps(target, link) == [a] + ([b] + [c]);
    ExecConcat(f, [a], [b] + [c], budget);
    ExecOne(f, a, budget);
    if budget >= 1 {
      var g := Apply(f, a);
      ExecConcat(g, [b], [c], budget - 1);
      ExecOne(g, b, budget - 1);
      if budget >= 2 {
        ExecOne(Apply(g, b), c, budget - 2);
      }
    }
  }

  function FinishView(v: View, j: Journal, budget: nat): View {
    var checked := v.(passed := v.passed + {j.target});
    var recorded := checked.(previous := Some(j.previous));
    var selected := recorded.(current := Some(j.target));
    if budget < 1 || j.target in v.failing then v
    else if budget < 4 then checked
    else if budget < 7 then recorded
    else if budget < 8 then selected
    else selected.(journal := None)
  }

  lemma FinishForm(f: Files, j: Journal, budget: nat)
    requires Complete(f, j.target) && f.journal.Some?
    ensures var r := Exec(f, FinishOps(j), budget);
            && Seen(r.files) == FinishView(Seen(f), j, budget)
            && r.files.staged == f.staged
            && (r.Done? <==> budget >= 8 && j.target !in f.failing) && (r.Done? ==> r.left == budget - 8)
  {
    var a, b, c, d := [CheckEvidence(j.target)], LinkOps(j.previous, Previous), LinkOps(j.target, Current), [RemoveJournal];
    assert FinishOps(j) == a + (b + (c + d));
    ExecConcat(f, a, b + (c + d), budget);
    ExecOne(f, CheckEvidence(j.target), budget);
    if budget >= 1 && j.target !in f.failing {
      var g := Apply(f, CheckEvidence(j.target));
      ExecConcat(g, b, c + d, budget - 1);
      LinkForm(g, j.previous, Previous, budget - 1);
      if budget >= 4 {
        var h := Exec(g, b, budget - 1).files;
        ExecConcat(h, c, d, budget - 4);
        LinkForm(h, j.target, Current, budget - 4);
        if budget >= 7 {
          ExecOne(Exec(h, c, budget - 4).files, RemoveJournal, budget - 7);
        }
      }
    }
  }

  /** A rollback that finds no journal, with both links in place. */
  function RollbackView(v: View, j: Journal, budget: nat): View {
    var checked := v.(passed := v.passed + {j.target});
    if budget < 1 || j.target in v.failing then v
    else if budget < 2 then checked
    else FinishView(checked.(journal := Some(j)), j, budget - 2)
  }

  lemma RollbackForm(f: Files, budget: nat)
    requires f.journal.None? && f.current.Some? && f.previous.Some? && Complete(f, f.previous.value)
    ensures var j := Journal(f.previous.value, f.current.value);
            var r := ExecRollback(f, budget);
            && Seen(r.files) == RollbackView(Seen(f), j, budget)
            && (r.Done? <==> budget >= 10 && j.target !in f.failing)
  {
    var j := Journal(f.previous.value, f.current.value);
    var a, b := [CheckEvidence(j.target)], [WriteJournal(j)];
    assert RollbackOps(f) == a + (b + FinishOps(j));
    ExecConcat(f, a, b + FinishOps(j), budget);
    ExecOne(f, CheckEvidence(j.target), budget);
    if budget >= 1 && j.target !in f.failing {
      var g := Apply(f, CheckEvidence(j.target));
      ExecConcat(g, b, FinishOps(j), budget - 1);
      ExecOne(g, WriteJournal(j), budget - 1);
      if budget >= 2 {
        FinishForm(Apply(g, WriteJournal(j)), j, budget - 2);
      }
    }
  }

  /** Staging shows nothing before the rename, and a complete directory after it. */
  lemma StageForm(f: Files, m: Manifest, dir: nat, budget: nat)
    requires Digest(m) !in f.published && dir !in f.staged
    ensures var n := |StageOps(m, dir)|;
            var r := Exec(f, StageOps(m, dir), budget);
            && Seen(r.files) == Stage(budget, n, Seen(f), Seen(f).(published := f.published[Digest(m) := Built(m)]))
            && (r.Done? <==> budget >= n) && (r.Done? ==> r.left == budget - n)
  {
    var a, b, d, e := MakeStaged(dir), StageLinks(dir, m), StageManifest(dir, m), PublishStaged(dir, Digest(m));
    var unit := if m.unit.Some? then [StageUnit(dir, m)] else [];
    assert StageOps(m, dir) == [a] + ([b] + (unit + ([d] + [e])));
    ExecConcat(f, [a], [b] + (unit + ([d] + [e])), budget);
    ExecOne(f, a, budget);
    if budget >= 1 {
      var g := Apply(f, a);
      ExecConcat(g, [b], unit + ([d] + [e]), budget - 1);
      ExecOne(g, b, budget - 1);
      if budget >= 2 {
        StageTail(Apply(g, b), m, dir, budget - 2);
      }
    }
  }

  lemma StageTail(f: Files, m: Manifest, dir: nat, budget: nat)
    requires Digest(m) !in f.published && dir in f.staged
    requires f.staged[dir] == Built(m).(unit := None, manifest := None)
    ensures var unit := if m.unit.Some? then [StageUnit(dir, m)] else [];
            var n := |unit| + 2;
            var r := Exec(f, unit + ([StageManifest(dir, m)] + [PublishStaged(dir, Digest(m))]), budget);
            && Seen(r.files) == Stage(budget, n, Seen(f), Seen(f).(published := f.published[Digest(m) := Built(m)]))
            && (r.Done? <==> budget >= n) && (r.Done? ==> r.left == budget - n)
  {
    var d, e := StageManifest(dir, m), PublishStaged(dir, Digest(m));
    var unit := if m.unit.Some? then [StageUnit(dir, m)] else [];
    ExecConcat(f, unit, [d] + [e], budget);
    if m.unit.Some? {
      ExecOne(f, StageUnit(dir, m), budget);
    }
    if budget >= |unit| {
      var g := Exec(f, unit, budget).files;
      ExecConcat(g, [d], [e], budget - |unit|);
      ExecOne(g, d, budget - |unit|);
      if budget > |unit| {
        ExecOne(Apply(g, d), e, budget - |unit| - 1);
      }
    }
  }

  function StageCost(f: Files, m: Manifest): nat {
    if Digest(m) in f.published then 0 else |StageOps(m, 0)|
  }

  lemma StageLength(m: Manifest, dir: nat)
    ensures |StageOps(m, dir)| == |StageOps(m, 0)|
  {
  }

  /** Whether selecting `name` leaves another generation behind. */
  predicate Leaves(v: View, name: Digest) {
    v.current.Some? && v.current.value in v.published && v.current.value != name
  }

  /** How many operations the switch to `name` takes. */
  function SelectCost(v: View, name: Digest): nat {
    if Leaves(v, name) then 6 else 3
  }

  function SelectView(v: View, name: Digest, budget: nat): View {
    if !Leaves(v, name) then Stage(budget, 3, v, v.(current := Some(name)))
    else
      var recorded := v.(previous := v.current);
      if budget < 3 then v
      else Stage(budget, 6, recorded, recorded.(current := Some(name)))
  }

  lemma SelectForm(f: Files, g: Files, name: Digest, budget: nat)
    requires g.current == f.current
    requires Leaves(Seen(g), name) <==> Leaves(Seen(f), name)
    ensures var r := Exec(g, SelectOps(f, name), budget);
            Seen(r.files) == SelectView(Seen(g), name, budget) && (r.Done? <==> budget >= SelectCost(Seen(f), name))
  {
    if Leaves(Seen(f), name) {
      var p := LinkOps(f.current.value, Previous);
      ExecConcat(g, p, LinkOps(name, Current), budget);
      LinkForm(g, f.current.value, Previous, budget);
      if budget >= 3 {
        LinkForm(Exec(g, p, budget).files, name, Current, budget - 3);
      }
    } else {
      LinkForm(g, name, Current, budget);
    }
  }

  function WithBuilt(v: View, m: Manifest): View {
    if Digest(m) in v.published then v else v.(published := v.published[Digest(m) := Built(m)])
  }

  /** An activation with no rollback outstanding. */
  function ActivateView(v: View, m: Manifest, cost: nat, budget: nat): View {
    if budget < cost then v
    else if budget == cost || Digest(m) in v.failing then WithBuilt(v, m)
    else SelectView(WithBuilt(v, m).(passed := v.passed + {Digest(m)}), Digest(m), budget - cost - 1)
  }

  lemma ActivateForm(f: Files, m: Manifest, dir: nat, budget: nat)
    requires f.journal.None? && Sound(Seen(f)) && (Digest(m) in f.published || dir !in f.staged)
    ensures var r := ExecActivate(f, m, dir, budget);
            && Seen(r.files) == ActivateView(Seen(f), m, StageCost(f, m), budget)
            && (r.Done? <==>
                Digest(m) !in f.failing && budget >= StageCost(f, m) + 1 + SelectCost(Seen(f), Digest(m)))
  {
    hide Built, SelectView, SelectOps, LinkOps, Exec, StageOps;
    var name := Digest(m);
    var a := if name in f.published then [] else StageOps(m, dir);
    ExecNone(f, budget);
    StageLength(m, dir);
    var b, c := [CheckEvidence(name)], SelectOps(f, name);
    assert ActivateOps(f, m, dir) == a + (b + c);
    ExecConcat(f, a, b + c, budget);
    if name !in f.published {
      StageForm(f, m, dir, budget);
    }
    if budget >= |a| {
      var g := Exec(f, a, budget).files;
      ExecConcat(g, b, c, budget - |a|);
      ExecOne(g, CheckEvidence(name), budget - |a|);
      if budget > |a| && name !in f.failing {
        SelectForm(f, Apply(g, CheckEvidence(name)), name, budget - |a| - 1);
      }
    }
  }

  // ---------------------------------------------------------------- invariant

  /** The links and the journal name fully published generations that passed
      their evidence check. */
  ghost predicate Sound(v: View) {
    && (forall name | name in v.published :: v.published[name] == Built(name.manifest))
    && (forall name | name in v.passed :: name in v.published)
    && (v.current.Some? ==> v.current.value in v.passed)
    && (v.previous.Some? ==> v.previous.value in v.passed)
    && (v.journal.Some? ==> v.journal.value.target in v.passed && v.journal.value.previous in v.passed)
  }

  /** How far a journaled exchange has come: nothing moved, `previous` recorded,
      or `current` switched as well. */
  ghost predicate Exchanging(v: View, j: Journal) {
    || (v.current == Some(j.previous) && v.previous == Some(j.target))
    || (v.current == Some(j.previous) && v.previous == Some(j.previous))
    || (v.current == Some(j.target) && v.previous == Some(j.previous))
  }

  ghost predicate Inv(v: View) {
    Sound(v) && (v.journal.Some? ==> Exchanging(v, v.journal.value))
  }

  /** `current` never leaves a generation that `previous` does not already name. */
  ghost predicate KeepsWayBack(before: View, after: View) {
    before.current.Some? && after.current != before.current ==> before.previous == before.current
  }

  lemma FinishKeeps(v: View, j: Journal, budget: nat)
    requires Inv(v) && v.journal == Some(j)
    ensures Inv(FinishView(v, j, budget))
    ensures KeepsWayBack(FinishView(v, j, budget), FinishView(v, j, budget + 1))
  {
    hide Built;
  }

  lemma SelectKeeps(v: View, name: Digest, budget: nat)
    requires Inv(v) && v.journal.None? && name in v.passed
    ensures Inv(SelectView(v, name, budget))
    ensures KeepsWayBack(SelectView(v, name, budget), SelectView(v, name, budget + 1))
  {
    hide Built;
  }

  lemma BuildKeeps(v: View, m: Manifest)
    requires Inv(v) && v.journal.None?
    ensures Inv(WithBuilt(v, m))
    ensures Inv(WithBuilt(v, m).(passed := v.passed + {Digest(m)}))
  {
    hide Built;
  }

  lemma ActivateKeeps(v: View, m: Manifest, cost: nat, budget: nat)
    requires Inv(v) && v.journal.None?
    ensures Inv(ActivateView(v, m, cost, budget))
    ensures KeepsWayBack(ActivateView(v, m, cost, budget), ActivateView(v, m, cost, budget + 1))
  {
    hide Inv, Built;
    BuildKeeps(v, m);
    if budget > cost && Digest(m) !in v.failing {
      SelectKeeps(WithBuilt(v, m).(passed := v.passed + {Digest(m)}), Digest(m), budget - cost - 1);
    }
  }

  /** The same call, allowed exactly one operation more. */
  function Longer(call: Call): Call {
    match call
    case Activate(m, dir, budget) => Activate(m, dir, budget + 1)
    case Rollback(budget) => Rollback(budget + 1)
    case Disturb(_) => call
  }

  lemma RollbackStep(f: Files, budget: nat)
    requires Inv(Seen(f))
    ensures Inv(Seen(After(f, Rollback(budget))))
    ensures KeepsWayBack(Seen(After(f, Rollback(budget))), Seen(After(f, Rollback(budget + 1))))
  {
    hide Exec, FinishOps, FinishView, RollbackView, KeepsWayBack;
    if f.journal.Some? {
      FinishForm(f, f.journal.value, budget);
      FinishForm(f, f.journal.value, budget + 1);
      FinishKeeps(Seen(f), f.journal.value, budget);
    } else if f.previous.Some? && f.current.Some? {
      RollbackForm(f, budget);
      RollbackForm(f, budget + 1);
      RollbackKeeps(Seen(f), Journal(f.previous.value, f.current.value), budget);
    } else {
      RollbackUnlinked(f, budget);
      RollbackUnlinked(f, budget + 1);
      assert KeepsWayBack(Seen(After(f, Rollback(budget))), Seen(After(f, Rollback(budget + 1)))) by {
        Unmoved(Seen(After(f, Rollback(budget))), Seen(After(f, Rollback(budget + 1))));
      }
    }
  }

  lemma Unmoved(before: View, after: View)
    requires after.current == before.current
    ensures KeepsWayBack(before, after)
  {
  }

  lemma RollbackKeeps(v: View, j: Journal, budget: nat)
    requires Inv(v) && v.journal.None? && v.previous == Some(j.target) && v.current == Some(j.previous)
    ensures Inv(RollbackView(v, j, budget))
    ensures KeepsWayBack(RollbackView(v, j, budget), RollbackView(v, j, budget + 1))
  {
    hide Built;
    if budget >= 1 {
      var journaled := v.(passed := v.passed + {j.target}, journal := Some(j));
      FinishKeeps(journaled, j, if budget >= 2 then budget - 2 else 0);
    }
  }

  /** Without both links there is nothing to exchange, and nothing moves. */
  lemma RollbackUnlinked(f: Files, budget: nat)
    requires Inv(Seen(f)) && f.journal.None? && (f.previous.None? || f.current.None?)
    ensures Inv(Seen(After(f, Rollback(budget)))) && After(f, Rollback(budget)).current == f.current
  {
    if f.previous.Some? {
      ExecOne(f, CheckEvidence(f.previous.value), budget);
    }
  }

  lemma ActivateStep(f: Files, m: Manifest, dir: nat, budget: nat)
    requires Inv(Seen(f)) && f.journal.None?
    ensures Inv(Seen(After(f, Activate(m, dir, budget))))
    ensures KeepsWayBack(Seen(After(f, Activate(m, dir, budget))), Seen(After(f, Activate(m, dir, budget + 1))))
  {
    if Digest(m) in f.published || dir !in f.staged {
      ActivateForm(f, m, dir, budget);
      ActivateForm(f, m, dir, budget + 1);
      ActivateKeeps(Seen(f), m, StageCost(f, m), budget);
    } else {
      assert ActivateOps(f, m, dir)[0] == MakeStaged(dir);
    }
  }

  lemma FinishStops(f: Files, j: Journal, budget: nat)
    requires Inv(Seen(f)) && f.journal == Some(j) && (budget <= 8 || j.target in f.failing)
    ensures forall m, dir :: Seen(ExecActivate(f, m, dir, budget).files) == FinishView(Seen(f), j, budget)
  {
    FinishForm(f, j, budget);
  }

  /** An activation that first finishes a journaled rollback. */
  lemma FinishThenActivate(f: Files, m: Manifest, dir: nat, budget: nat)
    requires Inv(Seen(f)) && f.journal.Some? && f.journal.value.target !in f.failing && budget >= 8
    ensures var g := Exec(f, FinishOps(f.journal.value), 8).files;
            && Inv(Seen(g)) && Seen(g) == FinishView(Seen(f), f.journal.value, 8)
            && g.journal.None?
            && ExecActivate(f, m, dir, budget) == ExecActivate(g, m, dir, budget - 8)
  {
    hide FinishOps, ActivateOps, Exec;
    var j := f.journal.value;
    FinishForm(f, j, 8);
    MoreBudget(f, FinishOps(j), 8, budget - 8);
    FinishKeeps(Seen(f), j, 8);
  }

  lemma CallStep(f: Files, call: Call)
    requires Inv(Seen(f))
    ensures Inv(Seen(After(f, call)))
    ensures KeepsWayBack(Seen(After(f, call)), Seen(After(f, Longer(call))))
  {
    hide Inv, FinishOps, ActivateOps, RollbackOps, FinishView;
    match call
    case Rollback(budget) => RollbackStep(f, budget);
    case Activate(m, dir, budget) =>
      if f.journal.None? {
        ActivateStep(f, m, dir, budget);
      } else {
        var j := f.journal.value;
        if budget >= 8 && j.target !in f.failing {
          FinishThenActivate(f, m, dir, budget);
          FinishThenActivate(f, m, dir, budget + 1);
          ActivateStep(Exec(f, FinishOps(j), 8).files, m, dir, budget - 8);
        } else {
          FinishStops(f, j, budget);
          FinishStops(f, j, budget + 1);
          FinishKeeps(Seen(f), j, budget);
        }
      }
    case Disturb(failing) => DisturbStep(f, failing);
  }

  /** Soundness is about what was checked, so later damage does not touch it. */
  lemma DisturbStep(f: Files, failing: set<Digest>)
    requires Inv(Seen(f))
    ensures Inv(Seen(f.(failing := failing)))
  {
    hide Built;
  }

  lemma {:induction false} RunKeeps(f: Files, calls: seq<Call>)
    requires Inv(Seen(f))
    ensures Inv(Seen(AfterAll(f, calls)))
  {
    if calls != [] {
      RunKeeps(f, calls[..|calls| - 1]);
      CallStep(AfterAll(f, calls[..|calls| - 1]), calls[|calls| - 1]);
    }
  }

  // ----------------------------------------------------------------- theorems

  /** A node that has never activated anything. */
  ghost predicate Fresh(f: Files) {
    f.current.None? && f.previous.None? && f.journal.None? && f.published == map[] && f.passed == {}
  }

  /** Over every run of activations and rollbacks, each stopped anywhere, with
      bundles and runtimes damaged and repaired in between, what `current` names is
      fully published and has passed its evidence check. */
  lemma SelectedIsPublished(f: Files, calls: seq<Call>)
    requires Fresh(f)
    ensures var g := AfterAll(f, calls);
            g.current.Some? ==>
              && g.current.value in g.passed && Complete(g, g.current.value)
              && var m, dir := g.current.value.manifest, g.published[g.current.value];
                 && dir.manifest == Some(m) && dir.unit == m.unit && dir.runtime == Some(m.runtimePath)
                 && dir.engine == Some(m.bundlePath + "/" + m.engineDir) && dir.common == Some(m.bundlePath + "/common")
  {
    RunKeeps(f, calls);
  }

  /** In the same runs, no single file operation moves `current` away from a
      generation unless `previous` already names that generation. */
  lemma SelectionKeepsWayBack(f: Files, calls: seq<Call>, call: Call)
    requires Fresh(f)
    ensures var g := AfterAll(f, calls);
            KeepsWayBack(Seen(After(g, call)), Seen(After(g, Longer(call))))
  {
    RunKeeps(f, calls);
    CallStep(AfterAll(f, calls), call);
  }

  /** Every call so far was stopped before the journal was removed. */
  ghost predicate Outstanding(f: Files, calls: seq<Call>) {
    forall k | 0 <= k <= |calls| :: AfterAll(f, calls[..k]).journal.Some?
  }

  lemma OutstandingStep(f: Files, call: Call, j: Journal)
    requires Inv(Seen(f)) && f.journal == Some(j) && After(f, call).journal.Some?
    ensures After(f, call).journal == Some(j)
  {
    hide Exec, FinishOps, ActivateOps;
    match call
    case Rollback(budget) => FinishForm(f, j, budget);
    case Activate(m, dir, budget) =>
      if budget >= 8 && j.target !in f.failing {
        FinishThenActivate(f, m, dir, budget);
        NoJournal(Exec(f, FinishOps(j), 8).files, m, dir, budget - 8);
      } else {
        FinishStops(f, j, budget);
      }
    case Disturb(_) =>
  }

  lemma NoJournal(f: Files, m: Manifest, dir: nat, budget: nat)
    requires Inv(Seen(f)) && f.journal.None?
    ensures ExecActivate(f, m, dir, budget).files.journal.None?
  {
    if Digest(m) in f.published || dir !in f.staged {
      ActivateForm(f, m, dir, budget);
    } else {
      assert ActivateOps(f, m, dir)[0] == MakeStaged(dir);
    }
  }

  lemma {:induction false} OutstandingRun(f: Files, calls: seq<Call>, j: Journal)
    requires Inv(Seen(f)) && f.journal == Some(j) && Outstanding(f, calls)
    ensures AfterAll(f, calls).journal == Some(j)
  {
    if calls != [] {
      var n := |calls| - 1;
      assert forall k | 0 <= k <= n :: calls[..n][..k] == calls[..k];
      OutstandingRun(f, calls[..n], j);
      RunKeeps(f, calls[..n]);
      assert calls[..|calls|] == calls;
      OutstandingStep(AfterAll(f, calls[..n]), calls[n], j);
    }
  }

  /** A rollback stopped after its journal was written, then resumed and stopped
      any number of times by rollbacks and activations, has moved at most part of
      the way; whichever call gets past the journal, rollback or activation, has
      exchanged the two links exactly once when it does. */
  lemma InterruptedRollbackExchangesOnce(f: Files, n: nat, calls: seq<Call>, m: Manifest, dir: nat, budget: nat)
    requires Inv(Seen(f)) && f.journal.None? && f.current.Some? && f.previous.Some?
    requires After(f, Rollback(n)).journal.Some? && Outstanding(After(f, Rollback(n)), calls)
    ensures var g := AfterAll(After(f, Rollback(n)), calls);
            var j := Journal(f.previous.value, f.current.value);
            && g.journal == Some(j) && Exchanging(Seen(g), j)
            && (forall call | call == Rollback(budget) || call == Activate(m, dir, Min(budget, 8)) ::
                  && (After(g, call).journal.Some? <==> budget < 8 || j.target in g.failing)
                  && (After(g, call).journal.None? ==>
                        After(g, call).current == f.previous && After(g, call).previous == f.current))
  {
    hide Inv, After, AfterAll, ExecRollback, FinishView;
    var j := Journal(f.previous.value, f.current.value);
    RollbackStops(f, n);
    var stopped := After(f, Rollback(n));
    OutstandingRun(stopped, calls, j);
    RunKeeps(stopped, calls);
    var g := AfterAll(stopped, calls);
    ResumeFinishes(g, j, m, dir, budget);
  }

  lemma RollbackStops(f: Files, n: nat)
    requires Inv(Seen(f)) && f.journal.None? && f.current.Some? && f.previous.Some?
    ensures var g := After(f, Rollback(n));
            Inv(Seen(g)) && (g.journal.Some? ==> g.journal.value == Journal(f.previous.value, f.current.value))
  {
    hide Exec, RollbackOps, Inv;
    RollbackStep(f, n);
    assert Complete(f, f.previous.value) by { WayBackIsSound(f); }
    RollbackForm(f, n);
  }

  lemma WayBackIsSound(f: Files)
    requires Inv(Seen(f)) && f.previous.Some?
    ensures Complete(f, f.previous.value)
  {
  }

  /** Eight operations finish a journaled exchange, whichever call makes them. */
  lemma ResumeFinishes(g: Files, j: Journal, m: Manifest, dir: nat, budget: nat)
    requires Inv(Seen(g)) && g.journal == Some(j)
    ensures Exchanging(Seen(g), j)
    ensures forall call | call == Rollback(budget) || call == Activate(m, dir, Min(budget, 8)) ::
              && (After(g, call).journal.Some? <==> budget < 8 || j.target in g.failing)
              && (After(g, call).journal.None? ==>
                    After(g, call).current == Some(j.target) && After(g, call).previous == Some(j.previous))
  {
    hide Exec, FinishOps, ActivateOps;
    FinishForm(g, j, budget);
    FinishForm(g, j, Min(budget, 8));
    FinishStops(g, j, Min(budget, 8));
  }

  /** An activation that finds the journal finishes the exchange and then selects
      its own generation on top of it. */
  lemma ActivationAfterRollback(f: Files, m: Manifest, dir: nat, budget: nat)
    requires Inv(Seen(f)) && f.journal.Some? && dir !in f.staged
    requires f.journal.value.target !in f.failing && Digest(m) !in f.failing && budget >= 8 + StageCost(f, m) + 7
    ensures var j := f.journal.value;
            var g := After(f, Activate(m, dir, budget));
            && g.journal.None? && g.current == Some(Digest(m))
            && g.previous == Some(if j.target == Digest(m) then j.previous else j.target)
  {
    hide FinishOps, ActivateOps, Exec;
    FinishThenActivate(f, m, dir, budget);
    var g := Exec(f, FinishOps(f.journal.value), 8).files;
    FinishForm(f, f.journal.value, 8);
    ActivateForm(g, m, dir, budget - 8);
  }

  // ------------------------------------------------- retried, then rolled back

  /** The two links, as they are or as an outstanding exchange will leave them. */
  datatype Links = Links(current: Option<Digest>, previous: Option<Digest>)

  function Settled(v: View): Links {
    if v.journal.Some? then Links(Some(v.journal.value.target), Some(v.journal.value.previous))
    else Links(v.current, v.previous)
  }

  /** Whether activating `name` leaves another generation behind. */
  predicate Departs(start: Links, name: Digest) {
    start.current.Some? && start.current != Some(name)
  }

  /** A retried activation of `name` from the links `start`: nothing switched yet,
      the way back recorded, or all done. */
  ghost predicate Activating(v: View, start: Links, name: Digest) {
    || Settled(v) == start
    || (v.journal.None? && Departs(start, name) && v.previous == start.current
        && (v.current == start.current || v.current == Some(name)))
    || (v.journal.None? && !Departs(start, name) && v.previous == start.previous && v.current == Some(name))
  }

  /** Where a completed activation leaves the links. */
  function Activated(start: Links, name: Digest): Links {
    Links(Some(name), if Departs(start, name) then start.current else start.previous)
  }

  lemma ActivatingView(v: View, start: Links, m: Manifest, cost: nat, budget: nat)
    requires Inv(v) && v.journal.None? && Activating(v, start, Digest(m))
    ensures var w := ActivateView(v, m, cost, budget);
            && w.journal.None? && Activating(w, start, Digest(m))
            && (Digest(m) !in v.failing && budget >= cost + 1 + SelectCost(v, Digest(m)) ==>
                  Settled(w) == Activated(start, Digest(m)))
  {
    hide Built;
  }

  /** The same for a call that finds no journal. */
  lemma ActivatingFrom(f: Files, start: Links, m: Manifest, dir: nat, budget: nat)
    requires Inv(Seen(f)) && f.journal.None? && Activating(Seen(f), start, Digest(m))
    ensures var r := ExecActivate(f, m, dir, budget);
            && Activating(Seen(r.files), start, Digest(m))
            && (r.Done? ==> r.files.journal.None? && Settled(Seen(r.files)) == Activated(start, Digest(m)))
  {
    hide Activating, Activated, Settled, ActivateView;
    if Digest(m) in f.published || dir !in f.staged {
      ActivateForm(f, m, dir, budget);
      ActivatingView(Seen(f), start, m, StageCost(f, m), budget);
    } else {
      assert ActivateOps(f, m, dir)[0] == MakeStaged(dir);
    }
  }

  lemma ActivatingStep(f: Files, start: Links, m: Manifest, dir: nat, budget: nat)
    requires Inv(Seen(f)) && Activating(Seen(f), start, Digest(m))
    ensures var r := ExecActivate(f, m, dir, budget);
            && Activating(Seen(r.files), start, Digest(m))
            && (r.Done? ==> r.files.journal.None? && Settled(Seen(r.files)) == Activated(start, Digest(m)))
  {
    hide Exec, FinishOps, ActivateOps;
    if f.journal.None? {
      ActivatingFrom(f, start, m, dir, budget);
    } else {
      var j := f.journal.value;
      if budget >= 8 && j.target !in f.failing {
        FinishThenActivate(f, m, dir, budget);
        ActivatingFrom(Exec(f, FinishOps(j), 8).files, start, m, dir, budget - 8);
      } else {
        FinishStops(f, j, budget);
        FinishForm(f, j, budget);
      }
    }
  }

  /** The attempts of one activation, with disturbances in between. */
  ghost predicate AttemptsOf(calls: seq<Call>, m: Manifest) {
    forall i | 0 <= i < |calls| :: calls[i].Disturb? || (calls[i].Activate? && calls[i].manifest == m)
  }

  lemma {:induction false} ActivatingRun(f: Files, start: Links, m: Manifest, attempts: seq<Call>)
    requires Inv(Seen(f)) && Activating(Seen(f), start, Digest(m)) && AttemptsOf(attempts, m)
    ensures Activating(Seen(AfterAll(f, attempts)), start, Digest(m))
  {
    hide Inv;
    if attempts != [] {
      var n := |attempts| - 1;
      ActivatingRun(f, start, m, attempts[..n]);
      RunKeeps(f, attempts[..n]);
      if attempts[n].Activate? {
        ActivatingStep(AfterAll(f, attempts[..n]), start, m, attempts[n].dir, attempts[n].budget);
      }
    }
  }

  /** An activation retried through any number of stopped attempts until it
      completes, and then rolled back, returns to the generation that was selected
      before it (or that an outstanding rollback was about to select) if and only if
      it selected another one. Activating the generation that is selected already
      leaves `previous` as it is, and the rollback goes on to that. */
  lemma RetriedActivationRollsBack(f: Files, m: Manifest, attempts: seq<Call>, dir: nat, budget: nat, back: nat)
    requires Inv(Seen(f)) && AttemptsOf(attempts, m)
    requires ExecActivate(AfterAll(f, attempts), m, dir, budget).Done?
    requires ExecRollback(ExecActivate(AfterAll(f, attempts), m, dir, budget).files, back).Done?
    ensures var start, name := Settled(Seen(f)), Digest(m);
            var g := ExecRollback(ExecActivate(AfterAll(f, attempts), m, dir, budget).files, back).files;
            && g.journal.None? && g.previous == Some(name)
            && g.current == (if Departs(start, name) then start.current else start.previous)
            && (g.current == start.current <==> Departs(start, name) || start.previous == start.current)
  {
    hide Exec, FinishOps, ActivateOps, Inv;
    var start, retried := Settled(Seen(f)), AfterAll(f, attempts);
    ActivatingRun(f, start, m, attempts);
    RunKeeps(f, attempts);
    ActivatingStep(retried, start, m, dir, budget);
    CallStep(retried, Activate(m, dir, budget));
    var done := After(retried, Activate(m, dir, budget));
    assert Complete(done, done.previous.value) by { WayBackIsSound(done); }
    RollbackForm(done, back);
  }

  /** The failing case on its own: activating the selected generation again and
      rolling back leaves the node on the older one. */
  lemma ReactivationLosesSelection(f: Files, dir: nat, back: nat)
    requires Inv(Seen(f)) && f.journal.None? && f.current.Some? && f.previous.Some? && f.previous != f.current
    requires f.failing == {} && back >= 10
    ensures var g := After(After(f, Activate(f.current.value.manifest, dir, 4)), Rollback(back));
            g.current == f.previous && g.current != f.current && g.previous == f.current
  {
    hide Exec, FinishOps, ActivateOps;
    var name := f.current.value;
    ActivateForm(f, name.manifest, dir, 4);
    var done := After(f, Activate(name.manifest, dir, 4));
    CallStep(f, Activate(name.manifest, dir, 4));
    RollbackForm(done, back);
  }
}
