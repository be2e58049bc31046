/** Any number of gateway processes on one token database. Each call reads the config
    history, then writes in one transaction; other workers commit in between. */
module TokenWorkers {
  import opened Wrappers
  import opened TokenTable
  import opened ConfigKeys
  import opened TokenRuns
  import opened TokenRaces

  // ------------------------------------------------------- when a call can raise

  /** Every derived value is marked. Databases from before the marker may hold
      derived values without it; nothing in this version writes one. */
  ghost predicate DerivedAreMarked(t: Table) {
    forall i | 0 <= i < |t| && t[i].hash.raw.Derived? :: t[i].purpose.AgentConfig?
  }

  /** Marking a live row violates the one-active index exactly when the row is still
      unmarked and some marked key of its user is live. */
  lemma MarkConflictsExactly(t: Table, id: nat)
    requires Indexed(t) && id < |t|
    ensures MarkConflicts(t, id) <==>
            && !t[id].revoked && !t[id].purpose.AgentConfig?
            && exists i :: Live(t, t[id].user, AgentConfig, i)
  {
    if MarkConflicts(t, id) {
      var i :| 0 <= i < |t| && i != id && Live(t, t[id].user, AgentConfig, i);
    }
  }

  /** The key to reuse was read without its marker, and while it still is unmarked and
      live another config key of the user has become live. */
  ghost predicate OvertakenReuse(seen: Table, t: Table, user: nat, secret: string)
    requires |seen| <= |t|
  {
    var ids := ConfigIds(seen, user);
    var reuse := FirstReusable(seen, ids, user, secret, 0);
    && reuse.Some? && t[ids[reuse.value]].purpose.Unmarked? && !t[ids[reuse.value]].revoked
    && exists i :: Live(t, user, AgentConfig, i)
  }

  lemma ReusedRow(seen: Table, t: Table, user: nat, secret: string)
    requires Evolves(seen, t) && FirstReusable(seen, ConfigIds(seen, user), user, secret, 0).Some?
    ensures var id := ConfigIds(seen, user)[FirstReusable(seen, ConfigIds(seen, user), user, secret, 0).value];
            id < |t| && t[id].user == user && !t[id].purpose.PersonalKey? && (t[id].purpose.Unmarked? ==> t[id].name == CONFIG_NAME)
  {
    ConfigIdsSound(seen, user);
  }

  /** A request raises if and only if the history it read has no active key but a
      reusable one, and that one was overtaken: it is still unmarked and live while some
      marked key of the user is live by the time of the write. */
  lemma RequestRaisesIff(seen: Table, t: Table, user: nat, secret: string)
    requires Evolves(seen, t) && Indexed(t)
    ensures Request(seen, t, user, secret).Raised? <==>
            LastActive(seen, ConfigIds(seen, user)).None? && OvertakenReuse(seen, t, user, secret)
  {
    var ids := ConfigIds(seen, user);
    var reuse := FirstReusable(seen, ids, user, secret, 0);
    hide LastActive, Indexed, Evolves, Live;
    if reuse.Some? {
      ReusedRow(seen, t, user, secret);
      MarkConflictsExactly(t, ids[reuse.value]);
      FencedTakesMark(t, user, ids[reuse.value]);
    }
  }

  lemma FencedTakesMark(t: Table, user: nat, id: nat)
    requires id < |t| && t[id].user == user
    ensures !MarkConflicts(RevokeMarked(t, user), id)
  {
  }

  /** A turn of recovery raises if and only if the key it would reuse was overtaken. */
  lemma RecoverRaisesIff(seen: Table, t: Table, user: nat, secret: string)
    requires Evolves(seen, t) && Indexed(t)
    ensures Recover(seen, t, user, secret).Raised? <==> OvertakenReuse(seen, t, user, secret)
  {
    var ids := ConfigIds(seen, user);
    var reuse := FirstReusable(seen, ids, user, secret, 0);
    hide Indexed, Evolves, Live;
    if reuse.Some? {
      ReusedRow(seen, t, user, secret);
      MarkConflictsExactly(t, ids[reuse.value]);
    }
  }

  /** A request that lost its race and then raises in an undisturbed turn of recovery
      met a row, committed after its read, that carries a derived value unmarked. */
  lemma RaisingTakesForeignRow(seen: Table, t: Table, user: nat, secret: string) returns (i: nat)
    requires Indexed(t) && Evolves(seen, t)
    requires Request(seen, t, user, secret).LostRace? && Recover(t, t, user, secret).Raised?
    ensures |seen| <= i < |t| && t[i].purpose.Unmarked? && t[i].hash.raw.Derived? && !t[i].revoked
  {
    var ids := ConfigIds(t, user);
    var reuse := FirstReusable(t, ids, user, secret, 0);
    i := ids[reuse.value];
    ConfigIdsSound(t, user);
    Reflexive(t);
    RecoverRaisesIff(t, t, user, secret);
    if i < |seen| {
      ReusableBefore(seen, t, user, secret, reuse.value, i);
    }
  }

  /** An unmarked key that can be reused now could be reused when it was read. */
  lemma ReusableBefore(seen: Table, t: Table, user: nat, secret: string, k: nat, i: nat)
    requires Evolves(seen, t) && i < |seen| && Position(t, user, i) == k && IsConfig(t[i], user)
    requires t[i].purpose.Unmarked? && !t[i].revoked && t[i].hash == Hash(Derived(secret, user, k))
    ensures FirstReusable(seen, ConfigIds(seen, user), user, secret, 0).Some?
    ensures !Request(seen, t, user, secret).LostRace? && !Recover(seen, t, user, secret).LostRace?
  {
    PositionsStay(seen, t, user);
    ConfigIdsSound(seen, user);
    FirstReusableSound(seen, ConfigIds(seen, user), user, secret, 0);
    var reusable := Reusable(seen, ConfigIds(seen, user), user, secret, k);
  }

  /** Such a row does make recovery raise: a worker of an earlier version inserts the
      derived key without the marker, and another marked key is live. */
  lemma ForeignRowMakesRecoveryRaise(user: nat, secret: string, other: string) returns (seen: Table, t: Table)
    requires other != secret
    ensures Valid(seen) && Valid(t) && Evolves(seen, t)
    ensures Request(seen, t, user, secret).LostRace? && Recover(t, t, user, secret).Raised?
  {
    var foreign := ConfigRow(user, secret, 0).(purpose := Unmarked);
    seen, t := [], [foreign, ConfigRow(user, other, 1)];
    assert t[..1] == [foreign] && t[..0] == [] && [foreign][..0] == [];
    assert ConfigIds([foreign], user) == [0] && ConfigIds(t, user) == [0, 1];
    assert Reusable(t, [0, 1], user, secret, 0);
    assert Live(t, user, AgentConfig, 1);
  }

  // ------------------------------------------------------------------ whole runs

  /** A call between its read and its transaction. */
  datatype Pending = Pending(user: nat, secret: string, seen: Table, recovering: bool)

  datatype State = State(table: Table, pending: map<nat, Pending>)

  datatype WorkerStep =
    | Read(call: nat, user: nat, secret: string)
    | Write(call: nat)
    | Whole(step: Step)

  predicate Enabled(s: State, step: WorkerStep) {
    match step
    case Read(call, _, _) => call !in s.pending
    case Write(call) => call in s.pending && |s.pending[call].seen| <= |s.table|
    case Whole(_) => true
  }

  function Outcome(s: State, call: nat): ConfigKeys.Outcome
    requires Enabled(s, Write(call))
  {
    var p := s.pending[call];
    if p.recovering then Recover(p.seen, s.table, p.user, p.secret) else Request(p.seen, s.table, p.user, p.secret)
  }

  function Commit(s: State, step: WorkerStep): State
    requires Enabled(s, step)
  {
    match step
    case Read(call, user, secret) => s.(pending := s.pending[call := Pending(user, secret, s.table, false)])
    case Write(call) =>
      (match Outcome(s, call)
       case Returned(table, _) => State(table, s.pending - {call})
       // The next turn of the recovery loop reads the history afresh.
       case LostRace => s.(pending := s.pending[call := s.pending[call].(seen := s.table, recovering := true)])
       case Raised => s.(pending := s.pending - {call}))
    case Whole(step) => s.(table := Next(s.table, step))
  }

  function Workers(s: State, steps: seq<WorkerStep>): Option<State> {
    if steps == [] then Some(s)
    else
      var before := Workers(s, steps[..|steps| - 1]);
      if before.Some? && Enabled(before.value, steps[|steps| - 1])
      then Some(Commit(before.value, steps[|steps| - 1]))
      else None
  }

  /** Derived values appended since `start` are marked. */
  ghost predicate NewAreMarked(start: Table, t: Table) {
    forall i | |start| <= i < |t| && t[i].hash.raw.Derived? :: t[i].purpose.AgentConfig?
  }

  /** What a transaction of this version leaves of the table: the indexes hold, rows
      only evolve, what it appends is marked, and generations stay behind positions. */
  ghost predicate Sound(t: Table, u: Table) {
    Indexed(u) && Evolves(t, u) && NewAreMarked(t, u) && (Behind(t) ==> Behind(u))
  }

  /** Nothing unmarked can be reused from the history. */
  ghost predicate NoLegacyReuse(t: Table, user: nat, secret: string) {
    var ids := ConfigIds(t, user);
    forall k: nat | Reusable(t, ids, user, secret, k) :: t[ids[k]].purpose.AgentConfig?
  }

  /** What a call knows of the history it read. */
  ghost predicate PendingInv(start: Table, p: Pending, t: Table) {
    && Evolves(start, p.seen) && Evolves(p.seen, t) && NewAreMarked(start, p.seen)
    && (p.recovering ==> NoLegacyReuse(p.seen, p.user, p.secret))
  }

  ghost predicate Inv(start: Table, s: State) {
    && Indexed(s.table) && Evolves(start, s.table) && NewAreMarked(start, s.table)
    && (Behind(start) ==> Behind(s.table))
    && forall c | c in s.pending :: PendingInv(start, s.pending[c], s.table)
  }

  lemma Reflexive(t: Table)
    ensures Evolves(t, t)
  {
  }

  lemma RevocationSound(t: Table, u: Table)
    requires Indexed(t) && |u| == |t|
    requires forall i | 0 <= i < |t| :: u[i] == t[i] || u[i] == t[i].(revoked := true)
    ensures Sound(t, u)
  {
    hide Behind;
    if Behind(t) {
      EvolvesKeepsBehind(t, u);
    }
  }

  lemma AppendSound(t: Table, u: Table, row: Row)
    requires Sound(t, u) && !Conflicts(u, row)
    requires row.hash.raw.Derived? ==>
               && row.purpose.AgentConfig? && IsConfig(row, row.hash.raw.user)
               && row.hash.raw.generation <= |ConfigIds(u, row.hash.raw.user)|
    ensures Sound(t, u + [row])
  {
    hide Behind, Indexed, Conflicts, ConfigIds;
    AppendIndexed(u, row);
    if Behind(u) {
      AppendBehind(u, row);
    }
  }

  lemma MarkSound(t: Table, u: Table, id: nat)
    requires Sound(t, u) && |u| == |t| && id < |u| && !MarkConflicts(u, id)
    requires !u[id].purpose.PersonalKey? && (u[id].purpose.Unmarked? ==> u[id].name == CONFIG_NAME)
    ensures Sound(t, Marked(u, id))
  {
    hide Behind;
    var v := Marked(u, id);
    MarkIndexed(u, id);
    assert Evolves(u, v);
    EvolvesTransitive(t, u, v);
    if Behind(u) {
      EvolvesKeepsBehind(u, v);
    }
  }

  lemma MarkIndexed(t: Table, id: nat)
    requires Indexed(t) && id < |t| && !MarkConflicts(t, id)
    ensures Indexed(Marked(t, id))
  {
    forall i | 0 <= i < |t| && i != id && !t[id].revoked && t[i].user == t[id].user && t[i].purpose.AgentConfig?
      ensures t[i].revoked
    {
      var live := Live(t, t[id].user, AgentConfig, i);
    }
  }

  lemma WriteSound(seen: Table, t: Table, user: nat, secret: string)
    requires Evolves(seen, t) && Indexed(t)
    ensures Request(seen, t, user, secret).Returned? ==> Sound(t, Request(seen, t, user, secret).table)
    ensures Recover(seen, t, user, secret).Returned? ==> Sound(t, Recover(seen, t, user, secret).table)
  {
    hide ActiveMatches, LastActive, Indexed, Conflicts, Sound, MarkConflicts;
    var ids := ConfigIds(seen, user);
    var reuse := FirstReusable(seen, ids, user, secret, 0);
    var revoked := RevokeMarked(t, user);
    RevocationSound(t, t);
    RevocationSound(t, revoked);
    if reuse.Some? {
      var id := ids[reuse.value];
      ReusedRow(seen, t, user, secret);
      if !MarkConflicts(t, id) {
        MarkSound(t, t, id);
      }
      if !MarkConflicts(revoked, id) {
        MarkSound(t, revoked, id);
      }
    } else {
      var row := ConfigRow(user, secret, |ids|);
      HistoryGrows(seen, t, user);
      SameHistory(t, revoked, user);
      if !Conflicts(t, row) {
        AppendSound(t, t, row);
      }
      if !Conflicts(revoked, row) {
        AppendSound(t, revoked, row);
      }
    }
  }

  lemma WholeSound(t: Table, step: Step)
    requires Indexed(t)
    ensures Sound(t, Next(t, step))
  {
    hide Request, Indexed, Conflicts, Sound;
    RevocationSound(t, t);
    match step
    case RequestKey(user, secret) => WriteSound(t, t, user, secret) by { Reflexive(t); }
    case Revoke(_, _) => RevocationSound(t, Next(t, step));
    case RevokeAny(_) => RevocationSound(t, Next(t, step));
    case CreateToken(user, name, tag) =>
      var row := Row(user, name, Hash(Random(tag)), false, Unmarked);
      if !Conflicts(t, row) {
        AppendSound(t, t, row);
      }
    case CreatePersonal(user, name, secret, nonce) =>
      var row := Row(user, name, Hash(Personal(secret, user, nonce)), false, PersonalKey);
      RevocationSound(t, RevokeAllOf(t, user));
      if !Conflicts(RevokeAllOf(t, user), row) {
        AppendSound(t, RevokeAllOf(t, user), row);
      }
  }

  /** After a lost race nothing unmarked is reusable: what was there at the start would
      have been reused, and what came since is marked. */
  lemma LostRaceLeavesNoLegacy(start: Table, seen: Table, t: Table, user: nat, secret: string)
    requires Evolves(start, seen) && Evolves(seen, t) && NewAreMarked(start, t)
    requires Request(seen, t, user, secret).LostRace? || Recover(seen, t, user, secret).LostRace?
    ensures NoLegacyReuse(t, user, secret)
  {
    hide Request, Recover;
    var ids := ConfigIds(t, user);
    ConfigIdsSound(t, user);
    forall k: nat | Reusable(t, ids, user, secret, k) ensures t[ids[k]].purpose.AgentConfig? {
      if t[ids[k]].purpose.Unmarked? && ids[k] < |seen| {
        ReusableBefore(seen, t, user, secret, k, ids[k]);
      }
    }
  }

  lemma NewMarkedOn(start: Table, t: Table, u: Table)
    requires Evolves(start, t) && NewAreMarked(start, t) && Evolves(t, u) && NewAreMarked(t, u)
    ensures NewAreMarked(start, u)
  {
  }

  lemma CommitKeeps(start: Table, s: State, step: WorkerStep)
    requires Inv(start, s) && Enabled(s, step)
    ensures Inv(start, Commit(s, step))
  {
    hide Request, Recover, Indexed, NewAreMarked, Evolves, Behind, NoLegacyReuse;
    var t := Commit(s, step);
    Reflexive(s.table);
    assert Sound(s.table, t.table) by {
      RevocationSound(s.table, s.table);
      match step
      case Read(_, _, _) =>
      case Write(call) =>
        var p := s.pending[call];
        WriteSound(p.seen, s.table, p.user, p.secret);
      case Whole(whole) => WholeSound(s.table, whole);
    }
    EvolvesTransitive(start, s.table, t.table);
    NewMarkedOn(start, s.table, t.table);
    forall c | c in t.pending ensures PendingInv(start, t.pending[c], t.table) {
      if c in s.pending && t.pending[c] == s.pending[c] {
        EvolvesTransitive(s.pending[c].seen, s.table, t.table);
      } else if step.Write? {
        var p := s.pending[c];
        LostRaceLeavesNoLegacy(start, p.seen, s.table, p.user, p.secret);
      }
    }
  }

  lemma {:induction false} WorkersKeep(s: State, steps: seq<WorkerStep>)
    requires Indexed(s.table) && s.pending == map[] && Workers(s, steps).Some?
    ensures Inv(s.table, Workers(s, steps).value)
  {
    if steps == [] {
      Reflexive(s.table);
    } else {
      WorkersKeep(s, steps[..|steps| - 1]);
      CommitKeeps(s.table, Workers(s, steps[..|steps| - 1]).value, steps[|steps| - 1]);
    }
  }

  lemma NoLegacyNotOvertaken(seen: Table, t: Table, user: nat, secret: string)
    requires Evolves(seen, t) && NoLegacyReuse(seen, user, secret)
    ensures !OvertakenReuse(seen, t, user, secret)
  {
    var reuse := FirstReusable(seen, ConfigIds(seen, user), user, secret, 0);
    if reuse.Some? {
      assert Reusable(seen, ConfigIds(seen, user), user, secret, reuse.value);
    }
  }

  lemma MarkedStartHasNoLegacy(start: Table, seen: Table, user: nat, secret: string)
    requires DerivedAreMarked(start) && Evolves(start, seen) && NewAreMarked(start, seen)
    ensures NoLegacyReuse(seen, user, secret)
  {
    var ids := ConfigIds(seen, user);
    forall k: nat | Reusable(seen, ids, user, secret, k) ensures seen[ids[k]].purpose.AgentConfig? {
      assert ids[k] < |start| ==> start[ids[k]].purpose.AgentConfig?;
    }
  }

  /** In every interleaving of any number of workers, from any table that meets the
      indexes, keys from before the marker included: recovery never raises; a request
      raises exactly when the history it read has no active key, and an unmarked one to
      reuse that was overtaken by a marked one since; so from a table without unmarked
      derived values nothing raises. And a user has at most one live marked config key
      throughout. */
  lemma RaisesOnlyIfOvertaken(s: State, steps: seq<WorkerStep>, call: nat, user: nat, i: nat, j: nat)
    requires Indexed(s.table) && s.pending == map[] && Workers(s, steps).Some?
    ensures var t := Workers(s, steps).value;
            && (Enabled(t, Write(call)) ==>
                  var p := t.pending[call];
                  && (Outcome(t, call).Raised? <==>
                      && !p.recovering && LastActive(p.seen, ConfigIds(p.seen, p.user)).None?
                      && OvertakenReuse(p.seen, t.table, p.user, p.secret))
                  && (DerivedAreMarked(s.table) ==> !Outcome(t, call).Raised?))
            && (Live(t.table, user, AgentConfig, i) && Live(t.table, user, AgentConfig, j) ==> i == j)
  {
    hide Request, Recover, NewAreMarked, Evolves, Behind, NoLegacyReuse, OvertakenReuse, LastActive, DerivedAreMarked;
    WorkersKeep(s, steps);
    var t := Workers(s, steps).value;
    if Enabled(t, Write(call)) {
      var p := t.pending[call];
      RequestRaisesIff(p.seen, t.table, p.user, p.secret);
      RecoverRaisesIff(p.seen, t.table, p.user, p.secret);
      if DerivedAreMarked(s.table) {
        MarkedStartHasNoLegacy(s.table, p.seen, p.user, p.secret);
      }
      if NoLegacyReuse(p.seen, p.user, p.secret) {
        NoLegacyNotOvertaken(p.seen, t.table, p.user, p.secret);
      }
    }
  }

  /** A write that mints commits its key: the value it returns resolves to the new row,
      the user's only live marked one, and the call is over. */
  lemma MintIsCommitted(s: State, steps: seq<WorkerStep>, call: nat)
    requires Indexed(s.table) && s.pending == map[] && Workers(s, steps).Some?
    requires var t := Workers(s, steps).value;
             Enabled(t, Write(call)) && Outcome(t, call).Returned? && |Outcome(t, call).table| > |t.table|
    ensures var t := Workers(s, steps).value;
            var u, raw := Commit(t, Write(call)), Outcome(t, call).raw;
            && call !in u.pending && Resolve(u.table, raw) == Some(|t.table|)
            && Live(u.table, t.pending[call].user, AgentConfig, |t.table|)
            && Indexed(u.table) && Evolves(t.table, u.table)
  {
    hide NewAreMarked, Evolves, Behind, NoLegacyReuse, Request, Recover, Indexed, Resolve;
    WorkersKeep(s, steps);
    var t := Workers(s, steps).value;
    var p := t.pending[call];
    assert |p.seen| <= |t.table|;
    WriteSound(p.seen, t.table, p.user, p.secret);
    RequestGrowth(p.seen, t.table, p.user, p.secret);
    RecoverGrowth(p.seen, t.table, p.user, p.secret);
    var generation := |ConfigIds(p.seen, p.user)|;
    LastResolves(Outcome(t, call).table, p.user, p.secret, generation);
  }

  lemma RequestGrowth(seen: Table, t: Table, user: nat, secret: string)
    requires |seen| <= |t|
    ensures var r, row := Request(seen, t, user, secret), ConfigRow(user, secret, |ConfigIds(seen, user)|);
            r.Returned? && |r.table| > |t| ==> |r.table| == |t| + 1 && r.table[|t|] == row && r.raw == row.hash.raw
  {
    hide ActiveMatches, LastActive, FirstReusable, Conflicts, MarkConflicts;
  }

  lemma RecoverGrowth(seen: Table, t: Table, user: nat, secret: string)
    requires |seen| <= |t|
    ensures var r, row := Recover(seen, t, user, secret), ConfigRow(user, secret, |ConfigIds(seen, user)|);
            r.Returned? && |r.table| > |t| ==> |r.table| == |t| + 1 && r.table[|t|] == row && r.raw == row.hash.raw
  {
    hide FirstReusable, Conflicts, MarkConflicts;
  }

  lemma LastResolves(u: Table, user: nat, secret: string, generation: nat)
    ensures u != [] && u[|u| - 1] == ConfigRow(user, secret, generation) ==>
              Resolve(u, Derived(secret, user, generation)) == Some(|u| - 1) && Live(u, user, AgentConfig, |u| - 1)
  {
  }

  /** The hypotheses of `RacingMintIsStableIff` hold throughout every such run. */
  lemma WorkersStayBehind(s: State, steps: seq<WorkerStep>)
    requires Valid(s.table) && s.pending == map[] && Workers(s, steps).Some?
    ensures var t := Workers(s, steps).value;
            && Indexed(t.table) && Behind(t.table)
            && forall c | c in t.pending :: Evolves(t.pending[c].seen, t.table)
  {
    PlacedIsBehind(s.table);
    WorkersKeep(s, steps);
  }

  /** And a request can raise so, among workers of this version alone: a key from before
      the marker is read for reuse, another call under another secret mints a marked key,
      and the marking of the first hits the one-active index. */
  lemma LegacyKeyMakesRequestRaise(user: nat, secret: string, other: string) returns (s: State, steps: seq<WorkerStep>)
    requires other != secret
    ensures Valid(s.table) && s.pending == map[] && Workers(s, steps).Some?
    ensures var t := Workers(s, steps).value; Enabled(t, Write(1)) && Outcome(t, 1).Raised?
  {
    hide Request, Valid;
    var legacy, minted := Legacy(user, secret), ConfigRow(user, other, 1);
    LegacyOvertaken(user, secret, other);
    s := State([legacy], map[]);
    steps := [Read(1, user, secret), Whole(RequestKey(user, other))];
    var pending := map[1 := Pending(user, secret, [legacy], false)];
    assert steps[..1] == [steps[0]] && steps[..1][..0] == [];
    assert Workers(s, steps[..1][..0]) == Some(s);
    assert Workers(s, steps[..1]) == Some(State([legacy], pending));
    assert Workers(s, steps) == Some(State([legacy, minted], pending));
  }

  /** A generated key from before the marker. */
  function Legacy(user: nat, secret: string): Row {
    ConfigRow(user, secret, 0).(purpose := Unmarked)
  }

  lemma LegacyHistory(user: nat, secret: string)
    ensures var t := [Legacy(user, secret)];
            Valid(t) && ConfigIds(t, user) == [0] && LastActive(t, [0]).None? && FirstReusable(t, [0], user, secret, 0) == Some(0)
  {
    var t := [Legacy(user, secret)];
    assert t[..0] == [] && [0][..0] == [];
    assert LastActive(t, [0]) == LastActive(t, [0][..0]);
  }

  lemma LegacyIsOthers(user: nat, secret: string, other: string)
    requires other != secret
    ensures FirstReusable([Legacy(user, secret)], [0], user, other, 0).None?
  {
    assert !Reusable([Legacy(user, secret)], [0], user, other, 0);
    assert FirstReusable([Legacy(user, secret)], [0], user, other, 1).None?;
  }

  /** A request under another secret finds nothing active and nothing to reuse. */
  lemma LegacyMint(user: nat, secret: string, other: string)
    requires other != secret
    ensures var t, row := [Legacy(user, secret)], ConfigRow(user, other, 1);
            Request(t, t, user, other) == Returned([Legacy(user, secret), row], row.hash.raw)
  {
    LegacyHistory(user, secret);
    LegacyIsOthers(user, secret, other);
    hide ConfigIds, LastActive, FirstReusable, Valid;
    var t, row := [Legacy(user, secret)], ConfigRow(user, other, 1);
    assert !Conflicts(t, row);
    assert t + [row] == [Legacy(user, secret), row];
  }

  lemma LegacyOvertaken(user: nat, secret: string, other: string)
    requires other != secret
    ensures var t, u := [Legacy(user, secret)], [Legacy(user, secret), ConfigRow(user, other, 1)];
            && Valid(t) && Request(t, t, user, other) == Returned(u, Derived(other, user, 1))
            && Request(t, u, user, secret).Raised?
  {
    var t, u := [Legacy(user, secret)], [Legacy(user, secret), ConfigRow(user, other, 1)];
    LegacyHistory(user, secret);
    LegacyMint(user, secret, other);
    LegacyThenIndexed(user, secret, other);
    hide Request, ConfigIds, LastActive, FirstReusable, Valid, Indexed;
    assert Live(u, user, AgentConfig, 1);
    RequestRaisesIff(t, u, user, secret);
  }

  lemma LegacyThenIndexed(user: nat, secret: string, other: string)
    ensures var t, u := [Legacy(user, secret)], [Legacy(user, secret), ConfigRow(user, other, 1)];
            Evolves(t, u) && Indexed(u)
  {
  }
}
