/** Content-addressed generations and the two links that select them. Every
    operation holds the activation lock and is a fixed program of atomic file
    operations; a crash, a failed check or an I/O error stops it after any number
    of them and releases the lock. */
module Generations {
  import opened Wrappers

  datatype Manifest = Manifest(
    bundleId: string, bundlePath: string, engineDir: string,
    runtimeId: string, runtimeManifestId: string, runtimePath: string,
    config: map<string, string>, unit: Option<string>)

  /** The digest of a manifest, which names its directory. As a constructor it is
      injective, which is what SHA-256 is relied on for. */
  datatype Digest = Digest(manifest: Manifest)

  /** A generation directory, complete or in the making. */
  datatype Directory = Directory(
    engine: Option<string>, common: Option<string>, runtime: Option<string>,
    unit: Option<string>, manifest: Option<Manifest>)

  const EMPTY := Directory(None, None, None, None, None)

  function Built(m: Manifest): Directory {
    Directory(Some(m.bundlePath + "/" + m.engineDir), Some(m.bundlePath + "/common"), Some(m.runtimePath), m.unit, Some(m))
  }

  datatype Link = Current | Previous

  datatype Journal = Journal(target: Digest, previous: Digest)

  datatype Files = Files(
    current: Option<Digest>,           // the two links, and the ".pending" names
    previous: Option<Digest>,          // that atomic_link renames them from
    pendingCurrent: Option<Digest>,
    pendingPrevious: Option<Digest>,
    journal: Option<Journal>,
    published: map<Digest, Directory>,
    staged: map<nat, Directory>,       // ".incomplete-" directories
    passed: set<Digest>,               // auxiliary: names whose evidence check succeeded
    failing: set<Digest>)              // names whose bundle or runtime does not verify now

  /** The directory holds the manifest its name is the digest of, with the links
      and files that manifest calls for. */
  predicate Complete(f: Files, name: Digest) {
    name in f.published && f.published[name] == Built(name.manifest)
  }

  /** `evidence`: the directory is complete, and the bundle and the runtime that it
      links to still have the content their identities promise. */
  predicate EvidenceHolds(f: Files, name: Digest) {
    Complete(f, name) && name !in f.failing
  }

  datatype Op =
    | DropPending(link: Link)
    | MakePending(link: Link, target: Digest)
    | ReplaceLink(link: Link)
    | WriteJournal(journal: Journal)
    | RemoveJournal
    | MakeStaged(dir: nat)
    | StageLinks(dir: nat, manifest: Manifest)
    | StageUnit(dir: nat, manifest: Manifest)
    | StageManifest(dir: nat, manifest: Manifest)
    | PublishStaged(dir: nat, name: Digest)
    | CheckEvidence(name: Digest)

  /** An operation raises when what it works on is not there. */
  predicate Succeeds(f: Files, op: Op) {
    match op
    case ReplaceLink(Current) => f.pendingCurrent.Some?
    case ReplaceLink(Previous) => f.pendingPrevious.Some?
    case RemoveJournal => f.journal.Some?
    case MakeStaged(dir) => dir !in f.staged
    case StageLinks(dir, _) => dir in f.staged
    case StageUnit(dir, _) => dir in f.staged
    case StageManifest(dir, _) => dir in f.staged
    case PublishStaged(dir, name) => dir in f.staged && name !in f.published
    case CheckEvidence(name) => EvidenceHolds(f, name)
    case _ => true
  }

  function Apply(f: Files, op: Op): Files
    requires Succeeds(f, op)
  {
    match op
    case DropPending(Current) => f.(pendingCurrent := None)
    case DropPending(Previous) => f.(pendingPrevious := None)
    case MakePending(Current, target) => f.(pendingCurrent := Some(target))
    case MakePending(Previous, target) => f.(pendingPrevious := Some(target))
    case ReplaceLink(Current) => f.(current := f.pendingCurrent, pendingCurrent := None)
    case ReplaceLink(Previous) => f.(previous := f.pendingPrevious, pendingPrevious := None)
    case WriteJournal(journal) => f.(journal := Some(journal))
    case RemoveJournal => f.(journal := None)
    case MakeStaged(dir) => f.(staged := f.staged[dir := EMPTY])
    case StageLinks(dir, m) =>
      var built := Built(m);
      f.(staged := f.staged[dir := f.staged[dir].(engine := built.engine, common := built.common, runtime := built.runtime)])
    case StageUnit(dir, m) => f.(staged := f.staged[dir := f.staged[dir].(unit := m.unit)])
    case StageManifest(dir, m) => f.(staged := f.staged[dir := f.staged[dir].(manifest := Some(m))])
    case PublishStaged(dir, name) => f.(published := f.published[name := f.staged[dir]], staged := f.staged - {dir})
    case CheckEvidence(name) => f.(passed := f.passed + {name})
  }

  /** A program run with a budget of operations: it completes with some budget
      left, or it is stopped on the way. */
  datatype Progress = Done(files: Files, left: nat) | Stopped(files: Files)

  function Exec(f: Files, program: seq<Op>, budget: nat): Progress
    decreases |program|
  {
    if program == [] then Done(f, budget)
    else if budget == 0 || !Succeeds(f, program[0]) then Stopped(f)
    else Exec(Apply(f, program[0]), program[1..], budget - 1)
  }

  // ----------------------------------------------------------------- programs

  function LinkOps(target: Digest, link: Link): seq<Op> {
    [DropPending(link), MakePending(link, target), ReplaceLink(link)]
  }

  /** `finish_rollback`. */
  function FinishOps(j: Journal): seq<Op> {
    [CheckEvidence(j.target)] + LinkOps(j.previous, Previous) + LinkOps(j.target, Current) + [RemoveJournal]
  }

  /** `rollback`: finish the journaled exchange, or journal one and finish it. */
  function RollbackOps(f: Files): seq<Op> {
    if f.journal.Some? then FinishOps(f.journal.value)
    else if f.previous.None? then []
    else if f.current.None? then [CheckEvidence(f.previous.value)]
    else
      var j := Journal(f.previous.value, f.current.value);
      [CheckEvidence(j.target), WriteJournal(j)] + FinishOps(j)
  }

  function StageOps(m: Manifest, dir: nat): seq<Op> {
    [MakeStaged(dir), StageLinks(dir, m)]
    + (if m.unit.Some? then [StageUnit(dir, m)] else [])
    + [StageManifest(dir, m), PublishStaged(dir, Digest(m))]
  }

  /** The links an activation moves: `previous` first, while `current` still names
      what it is about to leave. */
  function SelectOps(f: Files, name: Digest): seq<Op> {
    if f.current.Some? && f.current.value in f.published && f.current.value != name
    then LinkOps(f.current.value, Previous) + LinkOps(name, Current)
    else LinkOps(name, Current)
  }

  /** `activate` from the point where no rollback is outstanding. */
  function ActivateOps(f: Files, m: Manifest, dir: nat): seq<Op> {
    (if Digest(m) in f.published then [] else StageOps(m, dir))
    + [CheckEvidence(Digest(m))] + SelectOps(f, Digest(m))
  }

  function ExecActivate(f: Files, m: Manifest, dir: nat, budget: nat): Progress {
    if f.journal.None? then Exec(f, ActivateOps(f, m, dir), budget)
    else
      match Exec(f, FinishOps(f.journal.value), budget)
      case Stopped(g) => Stopped(g)
      case Done(g, left) => Exec(g, ActivateOps(g, m, dir), left)
  }

  /** A missing link cannot be resolved: the call raises once it gets there. */
  function ExecRollback(f: Files, budget: nat): Progress {
    var r := Exec(f, RollbackOps(f), budget);
    if f.journal.None? && (f.previous.None? || f.current.None?) then Stopped(r.files) else r
  }

  /** A call, stopped after `budget` operations unless it completes before; or what
      happens to bundles and runtimes between two calls, damage and repair alike. */
  datatype Call =
    | Activate(manifest: Manifest, dir: nat, budget: nat)
    | Rollback(budget: nat)
    | Disturb(failing: set<Digest>)

  function After(f: Files, call: Call): Files {
    match call
    case Activate(m, dir, budget) => ExecActivate(f, m, dir, budget).files
    case Rollback(budget) => ExecRollback(f, budget).files
    case Disturb(failing) => f.(failing := failing)
  }

  function AfterAll(f: Files, calls: seq<Call>): Files {
    if calls == [] then f else After(AfterAll(f, calls[..|calls| - 1]), calls[|calls| - 1])
  }
}
