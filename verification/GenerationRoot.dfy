/** The activation code over the files of one engine root, operation by
    operation. `budget` is the number of file operations before the process is
    killed; None in `left` says that the call did not return normally. */
module GenerationRoot {
  import opened Wrappers
  import opened Generations
  import opened GenerationTheorems

  function Outcome(f: Files, left: Option<nat>): Progress {
    if left.Some? then Done(f, left.value) else Stopped(f)
  }

  class Root {
    var current: Option<Digest>
    var previous: Option<Digest>
    var pendingCurrent: Option<Digest>
    var pendingPrevious: Option<Digest>
    var journal: Option<Journal>
    var published: map<Digest, Directory>
    var staged: map<nat, Directory>
    ghost var passed: set<Digest>
    /** What `verify_bundle` and `verify_runtime` would refuse at present. */
    var failing: set<Digest>

    constructor (failing: set<Digest>)
      ensures Fresh(Disk()) && Disk().staged == map[] && Inv(Seen(Disk()))
      ensures this.failing == failing
    {
      this.failing := failing;
      current, previous, pendingCurrent, pendingPrevious, journal := None, None, None, None, None;
      published, staged, passed := map[], map[], {};
    }

    ghost function Disk(): Files
      reads this
    {
      Files(current, previous, pendingCurrent, pendingPrevious, journal, published, staged, passed, failing)
    }

    /** `atomic_link`: unlink the pending name, link it, rename it into place. */
    method AtomicLink(target: Digest, link: Link, budget: nat) returns (left: Option<nat>)
      modifies this
      ensures Outcome(Disk(), left) == Exec(old(Disk()), LinkOps(target, link), budget)
    {
      hide Exec;
      ghost var a, b, c := DropPending(link), MakePending(link, target), ReplaceLink(link);
      assert LinkOps(target, link) == [a] + ([b] + [c]);
      ExecConcat(Disk(), [a], [b] + [c], budget);
      ExecOne(Disk(), a, budget);
      if budget == 0 {
        return None;
      }
      match link {
        case Current => pendingCurrent := None;
        case Previous => pendingPrevious := None;
      }
      ExecConcat(Disk(), [b], [c], budget - 1);
      ExecOne(Disk(), b, budget - 1);
      if budget == 1 {
        return None;
      }
      match link {
        case Current => pendingCurrent := Some(target);
        case Previous => pendingPrevious := Some(target);
      }
      ExecOne(Disk(), c, budget - 2);
      if budget == 2 {
        return None;
      }
      match link {
        case Current => current, pendingCurrent := pendingCurrent, None;
        case Previous => previous, pendingPrevious := pendingPrevious, None;
      }
      left := Some(budget - 3);
    }

    /** `evidence`, which raises when the directory is not what its name says. */
    method CheckEvidence(name: Digest, budget: nat) returns (left: Option<nat>)
      modifies this`passed
      ensures Outcome(Disk(), left) == Exec(old(Disk()), [Op.CheckEvidence(name)], budget)
    {
      ExecOne(Disk(), Op.CheckEvidence(name), budget);
      if budget == 0 || name !in published || published[name] != Built(name.manifest) || name in failing {
        return None;
      }
      passed := passed + {name};
      left := Some(budget - 1);
    }

    method FinishRollback(budget: nat) returns (left: Option<nat>)
      requires journal.Some?
      modifies this
      ensures Outcome(Disk(), left) == Exec(old(Disk()), FinishOps(old(journal).value), budget)
    {
      hide Exec, LinkOps;
      var j := journal.value;
      ghost var a, b, c, d := [Op.CheckEvidence(j.target)], LinkOps(j.previous, Previous), LinkOps(j.target, Current), [RemoveJournal];
      assert FinishOps(j) == a + (b + (c + d));
      ExecConcat(Disk(), a, b + (c + d), budget);
      left := CheckEvidence(j.target, budget);
      if left.None? {
        return;
      }
      ExecConcat(Disk(), b, c + d, left.value);
      left := AtomicLink(j.previous, Previous, left.value);
      if left.None? {
        return;
      }
      ExecConcat(Disk(), c, d, left.value);
      left := AtomicLink(j.target, Current, left.value);
      if left.None? {
        return;
      }
      ExecOne(Disk(), RemoveJournal, left.value);
      if journal.None? || left.value == 0 {
        return None;
      }
      journal := None;
      left := Some(left.value - 1);
    }

    /** `rollback`: the contract says what an uninterrupted call and a call that
        resumes an interrupted one leave behind. */
    method Rollback(budget: nat) returns (left: Option<nat>)
      requires Inv(Seen(Disk()))
      modifies this
      ensures Outcome(Disk(), left) == ExecRollback(old(Disk()), budget)
      ensures Inv(Seen(Disk()))
      ensures left.Some? && old(journal.None?) ==>
                && old(current.Some? && previous.Some?)
                && journal.None? && current == old(previous) && previous == old(current)
      ensures left.Some? && old(journal.Some?) ==>
                journal.None? && current == Some(old(journal).value.target) && previous == Some(old(journal).value.previous)
    {
      hide Exec, FinishOps, Inv, FinishView, RollbackView, Built;
      ghost var start := Disk();
      RollbackStep(start, budget);
      RollbackEnds(start, budget);
      ExecNone(start, budget);
      if journal.None? {
        if previous.None? {
          return None;
        }
        var target := previous.value;
        if current.None? {
          var _ := CheckEvidence(target, budget);
          return None;
        }
        var j := Journal(target, current.value);
        assert RollbackOps(start) == [Op.CheckEvidence(target)] + ([WriteJournal(j)] + FinishOps(j));
        ExecConcat(start, [Op.CheckEvidence(target)], [WriteJournal(j)] + FinishOps(j), budget);
        left := CheckEvidence(target, budget);
        if left.None? {
          return;
        }
        ExecConcat(Disk(), [WriteJournal(j)], FinishOps(j), left.value);
        ExecOne(Disk(), WriteJournal(j), left.value);
        if left.value == 0 {
          return None;
        }
        journal := Some(j);
        left := FinishRollback(left.value - 1);
      } else {
        left := FinishRollback(budget);
      }
    }

    /** The staging part of `activate`. */
    method StageGeneration(m: Manifest, dir: nat, budget: nat) returns (left: Option<nat>)
      requires Digest(m) !in published && dir !in staged
      modifies this`staged, this`published
      ensures Outcome(Disk(), left) == Exec(old(Disk()), StageOps(m, dir), budget)
    {
      hide Exec;
      ghost var d, e := StageManifest(dir, m), PublishStaged(dir, Digest(m));
      ghost var unit := if m.unit.Some? then [StageUnit(dir, m)] else [];
      assert StageOps(m, dir) == [MakeStaged(dir)] + ([StageLinks(dir, m)] + (unit + ([d] + [e])));
      ExecConcat(Disk(), [MakeStaged(dir)], [StageLinks(dir, m)] + (unit + ([d] + [e])), budget);
      ExecOne(Disk(), MakeStaged(dir), budget);
      if budget == 0 {
        return None;
      }
      staged := staged[dir := EMPTY];
      ExecConcat(Disk(), [StageLinks(dir, m)], unit + ([d] + [e]), budget - 1);
      ExecOne(Disk(), StageLinks(dir, m), budget - 1);
      if budget == 1 {
        return None;
      }
      var built := Built(m);
      staged := staged[dir := staged[dir].(engine := built.engine, common := built.common, runtime := built.runtime)];
      var rest := budget - 2;
      ExecConcat(Disk(), unit, [d] + [e], rest);
      ExecNone(Disk(), rest);
      if m.unit.Some? {
        ExecOne(Disk(), StageUnit(dir, m), rest);
        if rest == 0 {
          return None;
        }
        staged := staged[dir := staged[dir].(unit := m.unit)];
        rest := rest - 1;
      }
      left := PublishStagedGeneration(m, dir, rest);
    }

    /** Its last two operations: the manifest, then the rename into place. */
    method PublishStagedGeneration(m: Manifest, dir: nat, budget: nat) returns (left: Option<nat>)
      requires Digest(m) !in published && dir in staged
      modifies this`staged, this`published
      ensures Outcome(Disk(), left) == Exec(old(Disk()), [StageManifest(dir, m)] + [PublishStaged(dir, Digest(m))], budget)
    {
      hide Exec;
      ghost var d, e := StageManifest(dir, m), PublishStaged(dir, Digest(m));
      ExecConcat(Disk(), [d], [e], budget);
      ExecOne(Disk(), d, budget);
      if budget == 0 {
        return None;
      }
      staged := staged[dir := staged[dir].(manifest := Some(m))];
      ExecOne(Disk(), e, budget - 1);
      if budget == 1 {
        return None;
      }
      published, staged := published[Digest(m) := staged[dir]], staged - {dir};
      left := Some(budget - 2);
    }

    /** The link switch at the end of `activate`. */
    method Select(name: Digest, budget: nat) returns (left: Option<nat>)
      modifies this
      ensures Outcome(Disk(), left) == Exec(old(Disk()), SelectOps(old(Disk()), name), budget)
    {
      hide Exec, LinkOps;
      if current.Some? && current.value in published && current.value != name {
        ExecConcat(Disk(), LinkOps(current.value, Previous), LinkOps(name, Current), budget);
        left := AtomicLink(current.value, Previous, budget);
        if left.None? {
          return;
        }
        left := AtomicLink(name, Current, left.value);
      } else {
        left := AtomicLink(name, Current, budget);
      }
    }

    /** `activate` once no rollback is outstanding: publish if needed, check,
        and switch. */
    method PublishAndSelect(m: Manifest, dir: nat, budget: nat) returns (left: Option<nat>)
      requires journal.None? && dir !in staged
      modifies this
      ensures Outcome(Disk(), left) == ExecActivate(old(Disk()), m, dir, budget)
    {
      hide Exec, StageOps, LinkOps, Built;
      var name := Digest(m);
      ghost var start := Disk();
      ghost var a, b := if name in published then [] else StageOps(m, dir), [Op.CheckEvidence(name)];
      assert ActivateOps(start, m, dir) == a + (b + SelectOps(start, name));
      ExecConcat(start, a, b + SelectOps(start, name), budget);
      ExecNone(start, budget);
      left := Some(budget);
      if name !in published {
        left := StageGeneration(m, dir, budget);
        if left.None? {
          return;
        }
      }
      ghost var built := Disk();
      StageKeepsLinks(start, m, dir, budget);
      ExecConcat(built, b, SelectOps(start, name), left.value);
      ExecOne(built, Op.CheckEvidence(name), left.value);
      left := CheckEvidence(name, left.value);
      if left.None? {
        return;
      }
      assert SelectOps(Disk(), name) == SelectOps(start, name);
      left := Select(name, left.value);
    }

    /** `activate` below its lock. A call that returns has selected its generation,
        with the one it replaced recorded as the way back. */
    method Activate(m: Manifest, dir: nat, budget: nat) returns (left: Option<nat>)
      requires Inv(Seen(Disk())) && dir !in staged
      modifies this
      ensures Outcome(Disk(), left) == ExecActivate(old(Disk()), m, dir, budget)
      ensures Inv(Seen(Disk()))
      ensures left.Some? ==> journal.None? && current == Some(Digest(m))
      ensures left.Some? && old(journal.None? && current.Some? && current != Some(Digest(m))) ==> previous == old(current)
    {
      hide Exec, FinishOps, ActivateOps, FinishView, Inv;
      ghost var start := Disk();
      CallStep(start, Generations.Activate(m, dir, budget));
      left := Some(budget);
      if journal.Some? {
        FinishReady(start, budget);
        left := FinishRollback(budget);
        if left.None? {
          return;
        }
      }
      ActivateSelects(Disk(), m, dir, left.value);
      left := PublishAndSelect(m, dir, left.value);
    }
  }

  /** Staging adds one directory and touches neither link. */
  lemma StageKeepsLinks(f: Files, m: Manifest, dir: nat, budget: nat)
    requires dir !in f.staged
    ensures var name := Digest(m);
            var a := if name in f.published then [] else StageOps(m, dir);
            var g := Exec(f, a, budget).files;
            && g.current == f.current
            && (forall other | other != name :: other in g.published <==> other in f.published)
  {
    if Digest(m) !in f.published {
      StageForm(f, m, dir, budget);
    }
  }

  lemma FinishReady(f: Files, budget: nat)
    requires Inv(Seen(f)) && f.journal.Some?
    ensures var r := Exec(f, FinishOps(f.journal.value), budget);
            r.Done? ==> Inv(Seen(r.files)) && r.files.journal.None? && r.files.staged == f.staged
  {
    FinishForm(f, f.journal.value, budget);
    FinishKeeps(Seen(f), f.journal.value, budget);
  }

  lemma RollbackEnds(f: Files, budget: nat)
    requires Inv(Seen(f))
    ensures var r := ExecRollback(f, budget);
            r.Done? ==>
              && (f.journal.None? ==>
                    && f.current.Some? && f.previous.Some?
                    && r.files.journal.None? && r.files.current == f.previous && r.files.previous == f.current)
              && (f.journal.Some? ==>
                    && r.files.journal.None? && r.files.current == Some(f.journal.value.target)
                    && r.files.previous == Some(f.journal.value.previous))
  {
    hide Exec, FinishOps;
    if f.journal.Some? {
      FinishForm(f, f.journal.value, budget);
    } else if f.current.Some? && f.previous.Some? {
      RollbackForm(f, budget);
    }
  }

  lemma ActivateSelects(f: Files, m: Manifest, dir: nat, budget: nat)
    requires Inv(Seen(f)) && f.journal.None? && dir !in f.staged
    ensures var r := ExecActivate(f, m, dir, budget);
            r.Done? ==>
              && r.files.journal.None? && r.files.current == Some(Digest(m))
              && (f.current.Some? && f.current != Some(Digest(m)) ==> r.files.previous == f.current)
  {
    ActivateForm(f, m, dir, budget);
  }
}
