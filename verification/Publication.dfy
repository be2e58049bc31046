/** Publishing a verified directory under a content-addressed name: any number of
    publishers, each of which may be killed at any point, and damage to what is
    already there. */
module Publication {
  import opened Wrappers

  /** A directory's identity stays with it through renames; its content may not. */
  type Inode = nat

  /** What a name can lead to. */
  datatype Entry = Symlink(target: string) | Dir(inode: Inode)

  /** Where a publisher is. All phases after Waiting hold the publication lock. */
  datatype Phase = Waiting | Locked | Damaged | Intact | Ready | Finished

  /** `kept` turns false when the destination is damaged behind the publisher's
      back, after it last established that the destination verifies. */
  datatype Publisher = Publisher(staged: Inode, phase: Phase, kept: bool)

  datatype State<Content> = State(
    contents: map<Inode, Content>,
    final: Option<Entry>,
    quarantine: map<nat, Entry>,
    lock: Option<nat>,
    publishers: map<nat, Publisher>,
    everFinal: set<Entry>)            // auxiliary: all entries the name ever had

  datatype Step<Content> =
    | Arrive(p: nat, staged: Inode, content: Content)
    | TakeLock(p: nat)
    | Inspect(p: nat)
    | Quarantine(p: nat, slot: nat)
    | Discard(p: nat)
    | MoveIn(p: nat)
    | Complete(p: nat)
    | Kill(p: nat)
    | Damage(inode: Inode, content: Content)

  predicate Verifies<Content>(s: State<Content>, verify: Content -> bool, entry: Option<Entry>) {
    entry.Some? && entry.value.Dir? && entry.value.inode in s.contents && verify(s.contents[entry.value.inode])
  }

  predicate At<Content>(s: State<Content>, p: nat, phase: Phase) {
    p in s.publishers && s.publishers[p].phase == phase
  }

  predicate Enabled<Content>(s: State<Content>, verify: Content -> bool, step: Step<Content>) {
    match step
    // `verify(staged)` succeeded on a private directory.
    case Arrive(p, staged, content) => p !in s.publishers && staged !in s.contents && verify(content)
    case TakeLock(p) => At(s, p, Waiting) && s.lock.None?
    case Inspect(p) => At(s, p, Locked)
    case Quarantine(p, slot) => At(s, p, Damaged) && slot !in s.quarantine && s.final.Some?
    case Discard(p) => At(s, p, Intact)
    case MoveIn(p) => At(s, p, Ready) && s.final.None?
    case Complete(p) => At(s, p, Finished)
    case Kill(p) => p in s.publishers
    // Damage does not reach a directory that is still private to its publisher.
    case Damage(inode, content) =>
      && inode in s.contents && !verify(content)
      && forall p | p in s.publishers && !s.publishers[p].phase.Finished? && !s.publishers[p].phase.Intact? ::
           s.publishers[p].staged != inode
  }

  function Moved<Content>(s: State<Content>, p: nat, phase: Phase): map<nat, Publisher>
    requires p in s.publishers
  {
    s.publishers[p := s.publishers[p].(phase := phase)]
  }

  function Next<Content>(s: State<Content>, verify: Content -> bool, step: Step<Content>): State<Content>
    requires Enabled(s, verify, step)
  {
    match step
    case Arrive(p, staged, content) =>
      s.(contents := s.contents[staged := content], publishers := s.publishers[p := Publisher(staged, Waiting, true)])
    case TakeLock(p) => s.(lock := Some(p), publishers := Moved(s, p, Locked))
    case Inspect(p) =>
      var phase := if s.final.None? then Ready else if Verifies(s, verify, s.final) then Intact else Damaged;
      s.(publishers := s.publishers[p := s.publishers[p].(phase := phase, kept := true)])
    case Quarantine(p, slot) =>
      s.(quarantine := s.quarantine[slot := s.final.value], final := None, publishers := Moved(s, p, Ready))
    case Discard(p) =>
      s.(contents := s.contents - {s.publishers[p].staged}, publishers := Moved(s, p, Finished))
    case MoveIn(p) =>
      var entry := Dir(s.publishers[p].staged);
      s.(final := Some(entry), everFinal := s.everFinal + {entry},
         publishers := s.publishers[p := s.publishers[p].(phase := Finished, kept := true)])
    case Complete(p) => s.(lock := None, publishers := s.publishers - {p})
    case Kill(p) => s.(lock := if s.lock == Some(p) then None else s.lock, publishers := s.publishers - {p})
    case Damage(inode, content) =>
      s.(contents := s.contents[inode := content],
         publishers := map p | p in s.publishers ::
           if s.final == Some(Dir(inode)) then s.publishers[p].(kept := false) else s.publishers[p])
  }

  function Run<Content>(s: State<Content>, verify: Content -> bool, steps: seq<Step<Content>>): Option<State<Content>> {
    if steps == [] then Some(s)
    else
      var before := Run(s, verify, steps[..|steps| - 1]);
      if before.Some? && Enabled(before.value, verify, steps[|steps| - 1])
      then Some(Next(before.value, verify, steps[|steps| - 1]))
      else None
  }

  /** Anything, or nothing, under the name; nobody publishing yet. */
  ghost predicate Initial<Content>(s: State<Content>) {
    && s.publishers == map[] && s.lock.None? && s.quarantine == map[]
    && s.everFinal == (if s.final.Some? then {s.final.value} else {})
    && (s.final.Some? && s.final.value.Dir? ==> s.final.value.inode in s.contents)
  }

  /** Directories that must survive: the published one and the quarantined ones. */
  ghost predicate Preserved<Content>(s: State<Content>, entry: Entry) {
    s.final == Some(entry) || exists slot :: slot in s.quarantine && s.quarantine[slot] == entry
  }

  ghost predicate Owns(phase: Phase) {
    phase.Waiting? || phase.Locked? || phase.Damaged? || phase.Ready? || phase.Intact?
  }

  /** Mutual exclusion on the publication lock, which nobody holds who is gone. */
  ghost predicate LockInv<Content>(s: State<Content>) {
    && (forall p | p in s.publishers && !s.publishers[p].phase.Waiting? :: s.lock == Some(p))
    && (s.lock.Some? ==> s.lock.value in s.publishers)
  }

  /** Staged directories are private to their publisher and verified. */
  ghost predicate StagedInv<Content>(s: State<Content>, verify: Content -> bool) {
    && (forall p | p in s.publishers && Owns(s.publishers[p].phase) ::
          && s.publishers[p].staged in s.contents
          && Dir(s.publishers[p].staged) !in s.everFinal
          && (!s.publishers[p].phase.Intact? ==> verify(s.contents[s.publishers[p].staged])))
    && (forall p, q | p in s.publishers && q in s.publishers && p != q
                      && Owns(s.publishers[p].phase) && Owns(s.publishers[q].phase) ::
          s.publishers[p].staged != s.publishers[q].staged)
  }

  /** What each phase knows about the destination. */
  ghost predicate PhaseInv<Content>(s: State<Content>, verify: Content -> bool) {
    forall p | p in s.publishers ::
      match s.publishers[p].phase
      case Damaged => s.final.Some? && !Verifies(s, verify, s.final)
      case Ready => s.final.None?
      case Intact => s.publishers[p].kept ==> Verifies(s, verify, s.final)
      case Finished => s.publishers[p].kept ==> Verifies(s, verify, s.final)
      case _ => true
  }

  /** Nothing that ever stood under the name is lost. */
  ghost predicate KeptInv<Content>(s: State<Content>) {
    && (s.final.Some? ==> s.final.value in s.everFinal)
    && (forall entry | entry in s.everFinal :: Preserved(s, entry) && (entry.Dir? ==> entry.inode in s.contents))
  }

  ghost predicate Inv<Content>(s: State<Content>, verify: Content -> bool) {
    LockInv(s) && StagedInv(s, verify) && PhaseInv(s, verify) && KeptInv(s)
  }

  lemma LockStep<Content>(s: State<Content>, verify: Content -> bool, step: Step<Content>)
    requires LockInv(s) && Enabled(s, verify, step)
    ensures LockInv(Next(s, verify, step))
  {
  }

  /** Whatever the name ever had still exists. */
  ghost predicate Exist<Content>(s: State<Content>) {
    forall entry | entry in s.everFinal && entry.Dir? :: entry.inode in s.contents
  }

  lemma VerifiedStep<Content>(s: State<Content>, verify: Content -> bool, step: Step<Content>, p: nat)
    requires LockInv(s) && StagedInv(s, verify) && Exist(s) && Enabled(s, verify, step)
    requires p in Next(s, verify, step).publishers && Owns(Next(s, verify, step).publishers[p].phase)
    ensures var t := Next(s, verify, step);
            && t.publishers[p].staged in t.contents && Dir(t.publishers[p].staged) !in t.everFinal
            && (!t.publishers[p].phase.Intact? ==> verify(t.contents[t.publishers[p].staged]))
  {
    if step.Arrive? {
      assert Dir(step.staged) !in s.everFinal;
    }
  }

  lemma PrivateStep<Content>(s: State<Content>, verify: Content -> bool, step: Step<Content>, p: nat, q: nat)
    requires StagedInv(s, verify) && Enabled(s, verify, step) && p != q
    requires var t := Next(s, verify, step);
             p in t.publishers && q in t.publishers && Owns(t.publishers[p].phase) && Owns(t.publishers[q].phase)
    ensures Next(s, verify, step).publishers[p].staged != Next(s, verify, step).publishers[q].staged
  {
  }

  lemma StagedStep<Content>(s: State<Content>, verify: Content -> bool, step: Step<Content>)
    requires LockInv(s) && StagedInv(s, verify) && KeptInv(s) && Enabled(s, verify, step)
    ensures StagedInv(Next(s, verify, step), verify)
  {
    var t := Next(s, verify, step);
    assert Exist(s);
    hide LockInv, KeptInv, Next, Enabled, Owns, Exist;
    forall p | p in t.publishers && Owns(t.publishers[p].phase)
      ensures && t.publishers[p].staged in t.contents && Dir(t.publishers[p].staged) !in t.everFinal
              && (!t.publishers[p].phase.Intact? ==> verify(t.contents[t.publishers[p].staged]))
    {
      VerifiedStep(s, verify, step, p);
    }
    forall p, q | p in t.publishers && q in t.publishers && p != q && Owns(t.publishers[p].phase) && Owns(t.publishers[q].phase)
      ensures t.publishers[p].staged != t.publishers[q].staged
    {
      PrivateStep(s, verify, step, p, q);
    }
  }

  lemma PhaseStep<Content>(s: State<Content>, verify: Content -> bool, step: Step<Content>)
    requires Inv(s, verify) && Enabled(s, verify, step)
    ensures PhaseInv(Next(s, verify, step), verify)
  {
    if step.Discard? && Verifies(s, verify, s.final) {
      assert s.final.value in s.everFinal;
      assert s.publishers[step.p].staged != s.final.value.inode;
    }
  }

  lemma KeptStep<Content>(s: State<Content>, verify: Content -> bool, step: Step<Content>)
    requires Inv(s, verify) && Enabled(s, verify, step)
    ensures KeptInv(Next(s, verify, step)) && s.everFinal <= Next(s, verify, step).everFinal
  {
    var t := Next(s, verify, step);
    forall entry | entry in t.everFinal ensures Preserved(t, entry) {
      if entry in s.everFinal && t.final != Some(entry) {
        if s.final == Some(entry) {
          assert t.quarantine[step.slot] == entry;
        } else {
          var slot :| slot in s.quarantine && s.quarantine[slot] == entry;
          assert t.quarantine[slot] == entry;
        }
      }
    }
  }

  lemma {:induction false} RunKeeps<Content>(s: State<Content>, verify: Content -> bool, steps: seq<Step<Content>>)
    requires Initial(s) && Run(s, verify, steps).Some?
    ensures Inv(Run(s, verify, steps).value, verify)
  {
    if steps != [] {
      var n := |steps| - 1;
      RunKeeps(s, verify, steps[..n]);
      var before := Run(s, verify, steps[..n]).value;
      LockStep(before, verify, steps[n]);
      StagedStep(before, verify, steps[n]);
      PhaseStep(before, verify, steps[n]);
      KeptStep(before, verify, steps[n]);
    }
  }

  // ----------------------------------------------------------------- theorems

  /** A publication that completes leaves a destination that verifies, unless it
      was damaged after the publisher established that it does. */
  lemma CompletedPublicationVerifies<Content>(s: State<Content>, verify: Content -> bool, steps: seq<Step<Content>>, p: nat)
    requires Initial(s) && Run(s, verify, steps).Some? && At(Run(s, verify, steps).value, p, Finished)
    ensures var t := Run(s, verify, steps).value;
            t.publishers[p].kept ==> Verifies(t, verify, t.final) && Verifies(Next(t, verify, Complete(p)), verify, t.final)
  {
    RunKeeps(s, verify, steps);
  }

  /** Whatever publishers do, a destination that verifies stays in place with its
      content; only a destination that does not verify is ever moved away. */
  lemma VerifyingDestinationStays<Content>(
    s: State<Content>, verify: Content -> bool, steps: seq<Step<Content>>, step: Step<Content>)
    requires Initial(s) && Run(s, verify, steps).Some? && Enabled(Run(s, verify, steps).value, verify, step)
    requires Verifies(Run(s, verify, steps).value, verify, Run(s, verify, steps).value.final) && !step.Damage?
    ensures var t := Run(s, verify, steps).value;
            var u := Next(t, verify, step);
            u.final == t.final && Get(u.contents, t.final.value.inode) == Get(t.contents, t.final.value.inode)
  {
    RunKeeps(s, verify, steps);
  }

  /** Nothing that ever stood under the name is deleted: it is still there, or it
      is in quarantine, and its directory still exists. Slots are never reused. */
  lemma {:induction false} NothingPublishedIsLost<Content>(
    s: State<Content>, verify: Content -> bool, earlier: seq<Step<Content>>, later: seq<Step<Content>>, entry: Entry)
    requires Initial(s) && Run(s, verify, earlier + later).Some? && Run(s, verify, earlier).Some?
    requires Run(s, verify, earlier).value.final == Some(entry)
    ensures var t := Run(s, verify, earlier + later).value;
            Preserved(t, entry) && (entry.Dir? ==> entry.inode in t.contents)
  {
    RunKeeps(s, verify, earlier);
    RunKeeps(s, verify, earlier + later);
    EverFinalGrows(s, verify, earlier, later);
  }

  /** A retry converges: whatever killed publishers left behind, as soon as none is alive
      a new one goes through, step by step, and leaves a destination that verifies, which
      is the one that stood if that verified and its own otherwise. A staged copy that is
      not needed is removed. */
  lemma RetryConverges<Content>(
    s: State<Content>, verify: Content -> bool, steps: seq<Step<Content>>, p: nat, staged: Inode, content: Content, slot: nat)
    requires Initial(s) && Run(s, verify, steps).Some? && Run(s, verify, steps).value.publishers == map[]
    requires var t := Run(s, verify, steps).value; staged !in t.contents && slot !in t.quarantine && verify(content)
    ensures var t := Run(s, verify, steps).value;
            var retry := Retry(t, verify, p, staged, content, slot);
            && Run(t, verify, retry).Some?
            && var u := Run(t, verify, retry).value;
               && Verifies(u, verify, u.final) && u.publishers == map[] && u.lock.None?
               && (if Verifies(t, verify, t.final) then u.final == t.final && u.contents == t.contents
                   else u.final == Some(Dir(staged)) && u.contents == t.contents[staged := content])
  {
    RunKeeps(s, verify, steps);
    var t := Run(s, verify, steps).value;
    Run0(t, verify);
    var c := Inspected(t, verify, p, staged, content);
    hide Inv, Run;
    if t.final.None? {
      RetryIntoNothing(t, c, verify, p, staged, content, slot);
    } else if Verifies(t, verify, t.final) {
      RetryNotNeeded(t, c, verify, p, staged, content, slot);
    } else {
      RetryOverDamage(t, c, verify, p, staged, content, slot);
    }
  }

  /** The state in which a lone publisher has looked at the destination. */
  ghost predicate AtWork<Content>(t: State<Content>, c: State<Content>, p: nat, staged: Inode, content: Content, phase: Phase) {
    c == t.(contents := t.contents[staged := content], lock := Some(p), publishers := map[p := Publisher(staged, phase, true)])
  }

  function Begin<Content>(p: nat, staged: Inode, content: Content): seq<Step<Content>> {
    [] + [Arrive(p, staged, content)] + [TakeLock(p)] + [Inspect(p)]
  }

  lemma Inspected<Content>(t: State<Content>, verify: Content -> bool, p: nat, staged: Inode, content: Content) returns (c: State<Content>)
    requires Inv(t, verify) && t.publishers == map[] && staged !in t.contents && verify(content) && Run(t, verify, []) == Some(t)
    ensures Run(t, verify, Begin(p, staged, content)) == Some(c)
    ensures AtWork(t, c, p, staged, content,
                   if t.final.None? then Ready else if Verifies(t, verify, t.final) then Intact else Damaged)
  {
    hide Run;
    var arrive, lock, inspect := Arrive(p, staged, content), TakeLock(p), Inspect(p);
    var a := Next(t, verify, arrive);
    OneMore(t, verify, [], t, arrive);
    var b := Next(a, verify, lock);
    OneMore(t, verify, [] + [arrive], a, lock);
    c := Next(b, verify, inspect);
    OneMore(t, verify, [] + [arrive] + [lock], b, inspect);
    assert Verifies(t, verify, t.final) <==> Verifies(b, verify, b.final);
  }

  lemma RetryIntoNothing<Content>(
    t: State<Content>, c: State<Content>, verify: Content -> bool, p: nat, staged: Inode, content: Content, slot: nat)
    requires Run(t, verify, Begin(p, staged, content)) == Some(c) && AtWork(t, c, p, staged, content, Ready)
    requires t.publishers == map[] && t.final.None? && verify(content)
    ensures var retry := Retry(t, verify, p, staged, content, slot);
            && Run(t, verify, retry).Some?
            && var u := Run(t, verify, retry).value;
               && Verifies(u, verify, u.final) && u.publishers == map[] && u.lock.None?
               && u.final == Some(Dir(staged)) && u.contents == t.contents[staged := content]
  {
    hide Run;
    var begin := Begin(p, staged, content);
    OneMore(t, verify, begin, c, MoveIn(p));
    var d := Next(c, verify, MoveIn(p));
    OneMore(t, verify, begin + [MoveIn(p)], d, Complete(p));
    assert Next(d, verify, Complete(p)).publishers == map[];
  }

  lemma RetryNotNeeded<Content>(
    t: State<Content>, c: State<Content>, verify: Content -> bool, p: nat, staged: Inode, content: Content, slot: nat)
    requires Run(t, verify, Begin(p, staged, content)) == Some(c) && AtWork(t, c, p, staged, content, Intact)
    requires t.publishers == map[] && staged !in t.contents && Verifies(t, verify, t.final)
    ensures var retry := Retry(t, verify, p, staged, content, slot);
            && Run(t, verify, retry).Some?
            && var u := Run(t, verify, retry).value;
               && Verifies(u, verify, u.final) && u.publishers == map[] && u.lock.None?
               && u.final == t.final && u.contents == t.contents
  {
    hide Run;
    var begin := Begin(p, staged, content);
    OneMore(t, verify, begin, c, Discard(p));
    var d := Next(c, verify, Discard(p));
    OneMore(t, verify, begin + [Discard(p)], d, Complete(p));
    assert t.contents[staged := content] - {staged} == t.contents;
    assert Next(d, verify, Complete(p)).publishers == map[];
  }

  lemma RetryOverDamage<Content>(
    t: State<Content>, c: State<Content>, verify: Content -> bool, p: nat, staged: Inode, content: Content, slot: nat)
    requires Run(t, verify, Begin(p, staged, content)) == Some(c) && AtWork(t, c, p, staged, content, Damaged)
    requires t.publishers == map[] && t.final.Some? && !Verifies(t, verify, t.final) && slot !in t.quarantine && verify(content)
    ensures var retry := Retry(t, verify, p, staged, content, slot);
            && Run(t, verify, retry).Some?
            && var u := Run(t, verify, retry).value;
               && Verifies(u, verify, u.final) && u.publishers == map[] && u.lock.None?
               && u.final == Some(Dir(staged)) && u.contents == t.contents[staged := content]
  {
    hide Run;
    var begin := Begin(p, staged, content);
    OneMore(t, verify, begin, c, Quarantine(p, slot));
    var d := Next(c, verify, Quarantine(p, slot));
    OneMore(t, verify, begin + [Quarantine(p, slot)], d, MoveIn(p));
    var e := Next(d, verify, MoveIn(p));
    OneMore(t, verify, begin + [Quarantine(p, slot)] + [MoveIn(p)], e, Complete(p));
    assert Next(e, verify, Complete(p)).publishers == map[];
  }

  /** The steps of one publisher that nobody disturbs. */
  function Retry<Content>(
    t: State<Content>, verify: Content -> bool, p: nat, staged: Inode, content: Content, slot: nat): seq<Step<Content>>
  {
    var begin := Begin(p, staged, content);
    if t.final.None? then begin + [MoveIn(p)] + [Complete(p)]
    else if Verifies(t, verify, t.final) then begin + [Discard(p)] + [Complete(p)]
    else begin + [Quarantine(p, slot)] + [MoveIn(p)] + [Complete(p)]
  }

  lemma Run0<Content>(s: State<Content>, verify: Content -> bool)
    ensures Run(s, verify, []) == Some(s)
  {
  }

  lemma OneMore<Content>(
    s: State<Content>, verify: Content -> bool, steps: seq<Step<Content>>, t: State<Content>, step: Step<Content>)
    requires Run(s, verify, steps) == Some(t) && Enabled(t, verify, step)
    ensures Run(s, verify, steps + [step]) == Some(Next(t, verify, step))
  {
    hide Enabled, Next;
    assert (steps + [step])[..|steps|] == steps;
  }

  lemma {:induction false} EverFinalGrows<Content>(
    s: State<Content>, verify: Content -> bool, earlier: seq<Step<Content>>, later: seq<Step<Content>>)
    requires Run(s, verify, earlier + later).Some? && Run(s, verify, earlier).Some?
    ensures Run(s, verify, earlier).value.everFinal <= Run(s, verify, earlier + later).value.everFinal
  {
    if later == [] {
      assert earlier + later == earlier;
    } else {
      assert (earlier + later)[..|earlier + later| - 1] == earlier + later[..|later| - 1];
      EverFinalGrows(s, verify, earlier, later[..|later| - 1]);
    }
  }

  /** `publish_directory` on the files, once it holds the lock. */
  class Site<Content(0)> {
    var contents: map<Inode, Content>
    var final: Option<Entry>
    var quarantine: map<nat, Entry>

    predicate Standing(verify: Content -> bool)
      reads this
    {
      final.Some? && final.value.Dir? && final.value.inode in contents && verify(contents[final.value.inode])
    }

    constructor ()
      ensures contents == map[] && final.None? && quarantine == map[]
    {
      contents, final, quarantine := map[], None, map[];
    }

    /** From whatever a killed publisher left behind, one publication ends with a
        destination that verifies: the one that stood, or the staged one, with
        anything else kept in a new quarantine slot. */
    method Publish(staged: Inode, verify: Content -> bool, slot: nat)
      requires staged in contents && verify(contents[staged]) && slot !in quarantine && final != Some(Dir(staged))
      modifies this
      ensures Standing(verify)
      ensures old(Standing(verify)) ==>
                final == old(final) && quarantine == old(quarantine) && contents == old(contents) - {staged}
      ensures !old(Standing(verify)) ==> final == Some(Dir(staged)) && contents == old(contents)
      ensures !old(Standing(verify)) && old(final).Some? ==> quarantine == old(quarantine)[slot := old(final).value]
      ensures !old(Standing(verify)) && old(final).None? ==> quarantine == old(quarantine)
    {
      if final.Some? {
        if final.value.Symlink? || final.value.inode !in contents || !verify(contents[final.value.inode]) {
          quarantine := quarantine[slot := final.value];
          final := None;
        } else {
          contents := contents - {staged};
        }
      }
      if staged in contents {
        final := Some(Dir(staged));
      }
    }
  }
}
