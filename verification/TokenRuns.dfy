/** Whole runs of the token store: config-key requests under changing secrets,
    revocations, and tokens that users create themselves. */
module TokenRuns {
  import opened Wrappers
  import opened TokenTable
  import opened ConfigKeys

  datatype Step =
    | RequestKey(user: nat, secret: string)
    | Revoke(user: nat, id: nat)
    | RevokeAny(id: nat)
    | CreateToken(user: nat, name: string, tag: nat)
    | CreatePersonal(user: nat, name: string, secret: string, nonce: nat)

  /** One call under the store lock. A call that hits a constraint raises and
      leaves the table as it was. */
  function Next(t: Table, step: Step): Table {
    match step
    case RequestKey(user, secret) =>
      var r := Request(t, t, user, secret);
      if r.Returned? then r.table else t
    case Revoke(user, id) => if id < |t| && t[id].user == user then RevokeRow(t, id) else t
    case RevokeAny(id) => RevokeRow(t, id)
    case CreateToken(user, name, tag) =>
      var row := Row(user, name, Hash(Random(tag)), false, Unmarked);
      if Conflicts(t, row) then t else t + [row]
    case CreatePersonal(user, name, secret, nonce) =>
      var row := Row(user, name, Hash(Personal(secret, user, nonce)), false, PersonalKey);
      if Conflicts(RevokeAllOf(t, user), row) then t else RevokeAllOf(t, user) + [row]
  }

  function Run(t: Table, steps: seq<Step>): Table {
    if steps == [] then t else Next(Run(t, steps[..|steps| - 1]), steps[|steps| - 1])
  }

  lemma RevocationKeeps(t: Table, u: Table)
    requires Valid(t) && |u| == |t|
    requires forall i | 0 <= i < |t| :: u[i] == t[i] || u[i] == t[i].(revoked := true)
    ensures Valid(u) && Evolves(t, u)
  {
    EvolvesKeepsPlaced(t, u);
  }

  lemma EvolvesTransitive(t: Table, u: Table, v: Table)
    requires Evolves(t, u) && Evolves(u, v)
    ensures Evolves(t, v)
  {
  }

  lemma StepKeeps(t: Table, step: Step)
    requires Valid(t)
    ensures Valid(Next(t, step)) && Evolves(t, Next(t, step))
  {
    match step
    case RequestKey(user, secret) => var _ := RequestServes(t, user, secret);
    case Revoke(_, id) => RevocationKeeps(t, Next(t, step));
    case RevokeAny(id) => RevocationKeeps(t, Next(t, step));
    case CreateToken(user, name, tag) =>
      var row := Row(user, name, Hash(Random(tag)), false, Unmarked);
      if !Conflicts(t, row) {
        AppendKeeps(t, row);
      }
    case CreatePersonal(user, name, secret, nonce) =>
      var fenced := RevokeAllOf(t, user);
      var row := Row(user, name, Hash(Personal(secret, user, nonce)), false, PersonalKey);
      RevocationKeeps(t, fenced);
      if !Conflicts(fenced, row) {
        AppendKeeps(fenced, row);
        EvolvesTransitive(t, fenced, fenced + [row]);
      }
  }

  lemma {:induction false} RunKeeps(t: Table, steps: seq<Step>)
    requires Valid(t)
    ensures Valid(Run(t, steps)) && Evolves(t, Run(t, steps))
  {
    if steps != [] {
      var n := |steps| - 1;
      RunKeeps(t, steps[..n]);
      StepKeeps(Run(t, steps[..n]), steps[n]);
      EvolvesTransitive(t, Run(t, steps[..n]), Run(t, steps));
    }
  }

  // ----------------------------------------------------------------- theorems

  /** After every run a user has at most one unrevoked marked config key. */
  lemma OneActiveKey(t: Table, steps: seq<Step>, user: nat, i: nat, j: nat)
    requires Valid(t)
    requires Live(Run(t, steps), user, AgentConfig, i) && Live(Run(t, steps), user, AgentConfig, j)
    ensures i == j
  {
    RunKeeps(t, steps);
  }

  /** After every run a request returns, and what it returns resolves to a live
      row of the user that asked. */
  lemma RequestResolves(t: Table, steps: seq<Step>, user: nat, secret: string)
    requires Valid(t)
    ensures var r := Request(Run(t, steps), Run(t, steps), user, secret);
            && r.Returned? && Resolve(r.table, r.raw).Some?
            && var id := Resolve(r.table, r.raw).value;
               id < |r.table| && r.table[id].user == user && !r.table[id].revoked && r.table[id].purpose.AgentConfig?
  {
    RunKeeps(t, steps);
    var id := RequestServes(Run(t, steps), user, secret);
    var r := Request(Run(t, steps), Run(t, steps), user, secret);
    ResolveSound(r.table, r.raw);
    assert r.table[id].hash == Hash(r.raw);
  }

  /** Whether a step may end the key in row `id`: revoking it, asking under another
      secret, or replacing all of the user's tokens. */
  predicate Ends(step: Step, user: nat, secret: string, id: nat) {
    match step
    case RequestKey(u, s) => u == user && s != secret
    case Revoke(_, i) => i == id
    case RevokeAny(i) => i == id
    case CreateToken(_, _, _) => false
    case CreatePersonal(u, _, _, _) => u == user
  }

  lemma ServesOn(t: Table, step: Step, user: nat, raw: Raw, id: nat)
    requires Valid(t) && Serves(t, user, raw, id) && raw.Derived? && !Ends(step, user, raw.secret, id)
    ensures Serves(Next(t, step), user, raw, id)
  {
    StepKeeps(t, step);
    match step
    case RequestKey(u, s) =>
      if u == user {
        ServedAgain(t, user, s, raw, id);
      } else {
        RequestTouchesOne(t, u, s, id);
      }
    case _ =>
  }

  /** A request changes no row of another user. */
  lemma RequestTouchesOne(t: Table, user: nat, secret: string, i: nat)
    requires Valid(t) && i < |t| && t[i].user != user
    ensures i < |Next(t, RequestKey(user, secret))| && Next(t, RequestKey(user, secret))[i] == t[i]
  {
    var _ := RequestServes(t, user, secret);
    ConfigIdsSound(t, user);
  }

  lemma {:induction false} ServesThroughout(t: Table, steps: seq<Step>, user: nat, raw: Raw, id: nat)
    requires Valid(t) && Serves(t, user, raw, id) && raw.Derived?
    requires forall k | 0 <= k < |steps| :: !Ends(steps[k], user, raw.secret, id)
    ensures Serves(Run(t, steps), user, raw, id)
  {
    hide Serves, Next, Valid, Ends;
    if steps != [] {
      var n := |steps| - 1;
      ServesThroughout(t, steps[..n], user, raw, id);
      RunKeeps(t, steps[..n]);
      ServesOn(Run(t, steps[..n]), steps[n], user, raw, id);
    }
  }

  /** Repeated requests under one secret return one value, whatever else happens
      in between short of ending the key. */
  lemma RepeatedRequestsAgree(t: Table, user: nat, secret: string, between: seq<Step>) returns (id: nat)
    requires Valid(t)
    ensures var first := Request(t, t, user, secret);
            && first.Returned? && Serves(first.table, user, first.raw, id)
            && ((forall k | 0 <= k < |between| :: !Ends(between[k], user, secret, id)) ==>
                  var later := Run(first.table, between);
                  Request(later, later, user, secret) == Returned(later, first.raw))
  {
    id := RequestServes(t, user, secret);
    var first := Request(t, t, user, secret);
    if forall k | 0 <= k < |between| :: !Ends(between[k], user, secret, id) {
      ServesThroughout(first.table, between, user, first.raw, id);
      RunKeeps(first.table, between);
      ServedAgain(Run(first.table, between), user, secret, first.raw, id);
    }
  }

  lemma RevokedValue(t: Table, id: nat, user: nat, secret: string)
    requires Valid(t) && id < |t| && t[id].revoked
    ensures Resolve(t, t[id].hash.raw).None?
    ensures var r := Request(t, t, user, secret); r.Returned? && r.raw != t[id].hash.raw
  {
    hide Request, Placed;
    ResolveSound(t, t[id].hash.raw);
    var served := RequestServes(t, user, secret);
  }

  /** A value once revoked never resolves again, and no later request returns it. */
  lemma RevokedIsDead(t: Table, id: nat, steps: seq<Step>, user: nat, secret: string)
    requires Valid(t) && id < |t| && t[id].revoked
    ensures var later := Run(t, steps);
            var r := Request(later, later, user, secret);
            Resolve(later, t[id].hash.raw).None? && r.Returned? && r.raw != t[id].hash.raw
  {
    hide Request, Placed, Indexed;
    RunKeeps(t, steps);
    RevokedValue(Run(t, steps), id, user, secret);
  }

  /** A step that revokes row `id`, asked for by its owner or by an admin. */
  predicate Revokes(t: Table, step: Step, id: nat) {
    && id < |t| && !t[id].revoked
    && (step == RevokeAny(id) || step == Revoke(t[id].user, id))
  }

  /** A revocation revokes: the row and nothing else, and its value stops resolving. */
  lemma RevocationSilences(t: Table, id: nat)
    requires Valid(t) && id < |t|
    ensures Resolve(t[id := t[id].(revoked := true)], t[id].hash.raw).None?
  {
    var u := t[id := t[id].(revoked := true)];
    ResolveSound(u, t[id].hash.raw);
  }

  /** After any run that contains a successful revocation of a row, whatever came before
      and after it, the row's value does not resolve and no request returns it. */
  lemma RevokedInRunIsDead(t: Table, before: seq<Step>, step: Step, id: nat, after: seq<Step>, user: nat, secret: string)
    requires Valid(t) && Revokes(Run(t, before), step, id)
    ensures var raw := Run(t, before)[id].hash.raw;
            var later := Run(Next(Run(t, before), step), after);
            var r := Request(later, later, user, secret);
            Resolve(later, raw).None? && r.Returned? && r.raw != raw
  {
    var u := Run(t, before);
    RunKeeps(t, before);
    StepKeeps(u, step);
    assert Next(u, step)[id].revoked && Next(u, step)[id].hash == u[id].hash;
    RevokedIsDead(Next(u, step), id, after, user, secret);
  }

  /** A request leaves alone every unmarked row that does not carry the value
      derived for its own position: a token the user made stays the user's. */
  lemma UnmarkedRowsUntouched(t: Table, user: nat, secret: string, i: nat)
    requires Valid(t) && i < |t| && t[i].purpose.Unmarked?
    requires t[i].hash != Hash(Derived(secret, user, Position(t, user, i)))
    ensures Request(t, t, user, secret).Returned? && Request(t, t, user, secret).table[i] == t[i]
  {
    ConfigIdsSound(t, user);
    var reuse := FirstReusable(t, ConfigIds(t, user), user, secret, 0);
    if !ActiveMatches(t, user, secret) {
      if reuse.Some? {
        RequestReuses(t, user, secret, reuse.value);
      } else {
        RequestMints(t, user, secret);
      }
    }
  }

  /** Whether a step is meant for row i of the user: an explicit revocation, or the
      personal key that replaces everything the user holds. */
  predicate Targets(step: Step, user: nat, i: nat) {
    match step
    case Revoke(_, id) => id == i
    case RevokeAny(id) => id == i
    case CreatePersonal(u, _, _, _) => u == user
    case _ => false
  }

  lemma OwnTokenStep(t: Table, step: Step, i: nat)
    requires Valid(t) && i < |t| && t[i].purpose.Unmarked? && !t[i].hash.raw.Derived? && !Targets(step, t[i].user, i)
    ensures i < |Next(t, step)| && Next(t, step)[i] == t[i]
  {
    hide Request, Valid;
    if step.RequestKey? {
      UnmarkedRowsUntouched(t, step.user, step.secret, i);
      StepKeeps(t, step);
    }
  }

  /** So a token the user made, whatever its name, survives any run of requests of
      any users under any secrets, until a step is meant for it. */
  lemma {:induction false} OwnTokenSurvives(t: Table, steps: seq<Step>, i: nat)
    requires Valid(t) && i < |t| && t[i].purpose.Unmarked? && !t[i].hash.raw.Derived?
    requires forall k | 0 <= k < |steps| :: !Targets(steps[k], t[i].user, i)
    ensures i < |Run(t, steps)| && Run(t, steps)[i] == t[i]
  {
    hide Next, Valid;
    if steps != [] {
      var n := |steps| - 1;
      OwnTokenSurvives(t, steps[..n], i);
      RunKeeps(t, steps[..n]);
      OwnTokenStep(Run(t, steps[..n]), steps[n], i);
    }
  }

  // ------------------------------------------------------------ other workers

  /** An INSERT loses only to another worker. */
  lemma LostRaceMeansInterference(seen: Table, t: Table, user: nat, secret: string)
    requires Valid(seen) && Evolves(seen, t) && !Request(seen, t, user, secret).Returned?
    ensures t != seen
  {
    var _ := RequestServes(seen, user, secret);
  }

  /** A turn of the recovery loop that nobody disturbs never loses again. It
      returns a value that serves the user, except in one case: the value to reuse
      sits in an unmarked row while another config key of the user is live, and
      marking it then violates the one-active index. */
  lemma RecoverySettles(t: Table, user: nat, secret: string) returns (id: nat)
    requires Valid(t)
    ensures var r := Recover(t, t, user, secret);
            var ids := ConfigIds(t, user);
            var reuse := FirstReusable(t, ids, user, secret, 0);
            && !r.LostRace?
            && (r.Raised? <==> reuse.Some? && t[ids[reuse.value]].purpose.Unmarked? && LastActive(t, ids).Some?)
            && (r.Returned? ==> Valid(r.table) && Evolves(t, r.table) && Serves(r.table, user, r.raw, id))
  {
    var ids := ConfigIds(t, user);
    var reuse := FirstReusable(t, ids, user, secret, 0);
    ConfigIdsSound(t, user);
    id := |t|;
    if reuse.Some? {
      id := ids[reuse.value];
      MarkConflictsIff(t, user, id);
      if !MarkConflicts(t, id) {
        MarkKeeps(t, id);
      }
    } else {
      RevokeMarkedKeeps(t, user);
      SameHistory(t, RevokeMarked(t, user), user);
      MintIsFree(RevokeMarked(t, user), user, secret);
    }
  }

  lemma MarkConflictsIff(t: Table, user: nat, id: nat)
    requires Valid(t) && id < |t| && IsConfig(t[id], user) && !t[id].revoked
    ensures MarkConflicts(t, id) <==> t[id].purpose.Unmarked? && LastActive(t, ConfigIds(t, user)).Some?
  {
    var ids := ConfigIds(t, user);
    ConfigIdsSound(t, user);
    if MarkConflicts(t, id) {
      var i :| 0 <= i < |t| && i != id && Live(t, t[id].user, AgentConfig, i);
      ActiveIsFound(t, user, i);
      if t[id].purpose.AgentConfig? {
        ActiveIsFound(t, user, id);
      }
    } else if LastActive(t, ids).Some? {
      var live := Live(t, user, AgentConfig, ids[LastActive(t, ids).value]);
    }
  }

  /** The generation of a minted row is its position exactly when no config row of
      the user was committed between the read and the INSERT. (The constraints of
      the schema hold either way.) */
  lemma RacingMintIsPlacedIff(seen: Table, t: Table, user: nat, secret: string)
    requires Valid(seen) && Valid(t) && Evolves(seen, t)
    requires !ActiveMatches(seen, user, secret)
    requires FirstReusable(seen, ConfigIds(seen, user), user, secret, 0).None?
    requires Request(seen, t, user, secret).Returned?
    ensures var r := Request(seen, t, user, secret);
            Placed(r.table) <==> |ConfigIds(t, user)| == |ConfigIds(seen, user)|
  {
    hide Placed;
    var fenced := Fenced(seen, t, user);
    RevokeMarkedKeeps(t, user);
    SameHistory(t, fenced, user);
    AppendedIsPlacedIff(fenced, user, secret, |ConfigIds(seen, user)|);
  }

  lemma AppendedIsPlacedIff(t: Table, user: nat, secret: string, generation: nat)
    requires Valid(t) && !Conflicts(t, ConfigRow(user, secret, generation))
    ensures Placed(t + [ConfigRow(user, secret, generation)]) <==> generation == |ConfigIds(t, user)|
  {
    hide Placed, ConfigIds;
    var row := ConfigRow(user, secret, generation);
    if generation == |ConfigIds(t, user)| {
      AppendKeeps(t, row);
    } else {
      AppendedPosition(t, row);
    }
  }

  lemma AppendedPosition(t: Table, row: Row)
    requires row.hash.raw.Derived? && row.hash.raw.generation != |ConfigIds(t, row.hash.raw.user)|
    ensures !Placed(t + [row])
  {
    hide ConfigIds;
    var u := t + [row];
    assert u[|t|] == row && u[..|t|] == t;
    assert Position(u, row.hash.raw.user, |t|) == |ConfigIds(t, row.hash.raw.user)|;
  }

  /** What the race costs. Another worker commits a token the user named
      "agent-config" between the read and the INSERT; the next request under the
      very same secret then revokes the key just handed out and returns another. */
  lemma RaceRotatesKey(user: nat, secret: string) returns (seen: Table, t: Table)
    ensures Valid(seen) && Valid(t) && Evolves(seen, t)
    ensures var first := Request(seen, t, user, secret);
            && first.Returned?
            && var second := Request(first.table, first.table, user, secret);
               && second.Returned? && second.raw != first.raw
               && Resolve(first.table, first.raw).Some? && Resolve(second.table, first.raw).None?
  {
    hide ConfigIds, Request, Resolve, Evolves, Placed;
    seen, t := [], [Named(user)];
    RaceFirst(user, secret);
    RaceSecond(user, secret);
  }

  /** A token the user created under the config key's name. */
  function Named(user: nat): Row {
    Row(user, CONFIG_NAME, Hash(Random(0)), false, Unmarked)
  }

  lemma RaceFirst(user: nat, secret: string)
    ensures Valid([]) && Valid([Named(user)]) && Evolves([], [Named(user)])
    ensures ConfigIds([Named(user)], user) == [0]
    ensures var u := [Named(user), ConfigRow(user, secret, 0)];
            Request([], [Named(user)], user, secret) == Returned(u, Derived(secret, user, 0))
            && Resolve(u, Derived(secret, user, 0)).Some?
  {
    var t := [Named(user)];
    assert t[..0] == [] && ConfigIds(t[..0], user) == [];
    ResolveSound([Named(user), ConfigRow(user, secret, 0)], Derived(secret, user, 0));
  }

  lemma RaceSecond(user: nat, secret: string)
    requires ConfigIds([Named(user)], user) == [0]
    ensures var u := [Named(user), ConfigRow(user, secret, 0)];
            var second := Request(u, u, user, secret);
            && second.Returned? && second.raw == Derived(secret, user, 2)
            && Resolve(second.table, Derived(secret, user, 0)).None?
  {
    var u := [Named(user), ConfigRow(user, secret, 0)];
    assert u[..1] == [Named(user)] && ConfigIds(u, user) == [0, 1];
    assert LastActive(u, [0, 1]) == Some(1) && !ActiveMatches(u, user, secret);
    assert FirstReusable(u, [0, 1], user, secret, 2).None?;
    assert FirstReusable(u, [0, 1], user, secret, 1).None?;
    var fenced := RevokeMarked(u, user);
    var row := ConfigRow(user, secret, 2);
    assert fenced == [Named(user), ConfigRow(user, secret, 0).(revoked := true)];
    assert !Conflicts(fenced, row);
    ResolveSound(fenced + [row], Derived(secret, user, 0));
  }
}
