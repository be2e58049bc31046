/** The store itself. Every method holds the store lock; the database's own
    constraints are checked where the source inserts and updates. */
module AuthStore {
  import opened Wrappers
  import opened TokenTable
  import opened ConfigKeys
  import opened TokenRuns

  datatype StoreError = UnknownUser | ConstraintViolated

  class Store {
    var users: set<nat>
    var rows: Table

    constructor (users: set<nat>, rows: Table)
      ensures this.users == users && this.rows == rows
    {
      this.users, this.rows := users, rows;
    }

    /** The config history query. */
    static method SelectConfigIds(listed: Table, user: nat) returns (ids: seq<nat>)
      ensures ids == ConfigIds(listed, user)
    {
      ids := [];
      for i := 0 to |listed|
        invariant ids == ConfigIds(listed[..i], user)
      {
        assert listed[..i + 1][..i] == listed[..i];
        if IsConfig(listed[i], user) {
          ids := ids + [i];
        }
      }
      assert listed[..|listed|] == listed;
    }

    /** Newest first, the first live marked row. */
    static method FindActive(listed: Table, ids: seq<nat>) returns (active: Option<nat>)
      requires forall k | 0 <= k < |ids| :: ids[k] < |listed|
      ensures active == LastActive(listed, ids)
    {
      var k := |ids|;
      assert ids[..k] == ids;
      while k > 0
        invariant 0 <= k <= |ids|
        invariant LastActive(listed, ids) == LastActive(listed, ids[..k])
      {
        k := k - 1;
        assert ids[..k + 1][..k] == ids[..k];
        if !listed[ids[k]].revoked && listed[ids[k]].purpose.AgentConfig? {
          return Some(k);
        }
      }
      active := None;
    }

    /** Oldest first, the first live row that carries its position's value. */
    static method FindReusable(listed: Table, ids: seq<nat>, user: nat, secret: string) returns (reuse: Option<nat>)
      requires forall k | 0 <= k < |ids| :: ids[k] < |listed|
      ensures reuse == FirstReusable(listed, ids, user, secret, 0)
    {
      for k := 0 to |ids|
        invariant FirstReusable(listed, ids, user, secret, 0) == FirstReusable(listed, ids, user, secret, k)
      {
        if listed[ids[k]].hash == Hash(Derived(secret, user, k)) {
          if !listed[ids[k]].revoked {
            return Some(k);
          }
        }
      }
      reuse := None;
    }

    /** `get_or_create_config_token`. The contract is the promise to the caller;
        that it always returns is the absence of any constraint violation. */
    method GetOrCreateConfigToken(user: nat, secret: string) returns (result: Result<Raw, StoreError>)
      requires Valid(rows)
      modifies this`rows
      ensures Valid(rows) && Evolves(old(rows), rows)
      ensures user !in users ==> result == Err(UnknownUser) && rows == old(rows)
      ensures user in users ==>
                && result.Ok? && Request(old(rows), old(rows), user, secret) == Returned(rows, result.value)
                && Resolve(rows, result.value).Some?
                && rows[Resolve(rows, result.value).value].user == user
    {
      hide Request, Valid;
      if user !in users {
        return Err(UnknownUser);
      }
      ghost var before := rows;
      ghost var id := RequestServes(before, user, secret);
      RequestCases(before, user, secret);
      ServedResolves(Request(before, before, user, secret).table, user, Request(before, before, user, secret).raw, id);
      var listed := rows;
      var ids := SelectConfigIds(listed, user);
      var active := FindActive(listed, ids);
      if active.Some? {
        if listed[ids[active.value]].hash == Hash(Derived(secret, user, active.value)) {
          return Ok(Derived(secret, user, active.value));
        }
      }
      if active.Some? {
        rows := RevokeMarked(rows, user);
      }
      var reuse := FindReusable(listed, ids, user, secret);
      if reuse.Some? {
        rows := Marked(rows, ids[reuse.value]);
        return Ok(Derived(secret, user, reuse.value));
      }
      rows := rows + [ConfigRow(user, secret, |ids|)];
      result := Ok(Derived(secret, user, |ids|));
    }

    /** The loop that follows a lost INSERT. On turn k it reads `observed[k]` and its
        writes meet `current[k]`, what other workers had committed by then. It goes
        round again only when somebody committed in between, so it ends with the
        first turn that nobody disturbs, if not before. */
    static method RecoverLostRace(user: nat, secret: string, observed: seq<Table>, current: seq<Table>)
      returns (outcome: Outcome, turns: nat)
      requires |observed| == |current|
      requires forall k | 0 <= k < |observed| :: Valid(observed[k]) && Evolves(observed[k], current[k])
      ensures turns <= |observed| && (outcome.LostRace? ==> turns == |observed|)
      ensures !outcome.LostRace? ==> turns > 0 && |observed[turns - 1]| <= |current[turns - 1]|
      ensures !outcome.LostRace? ==> outcome == Recover(observed[turns - 1], current[turns - 1], user, secret)
      ensures forall k | 0 <= k < (if outcome.LostRace? then turns else turns - 1) :: observed[k] != current[k]
    {
      hide Valid, Recover;
      turns := 0;
      while turns < |observed|
        invariant turns <= |observed| && forall k | 0 <= k < turns :: observed[k] != current[k]
      {
        var listed, t := observed[turns], current[turns];
        RecoverCases(listed, t, user, secret);
        turns := turns + 1;
        var ids := SelectConfigIds(listed, user);
        var reused := FindReusable(listed, ids, user, secret);
        if reused.Some? {
          var id := ids[reused.value];
          if MarkConflicts(t, id) {
            return Raised, turns;
          }
          return Returned(Marked(t, id), Derived(secret, user, reused.value)), turns;
        }
        var fenced := RevokeMarked(t, user);
        var row := ConfigRow(user, secret, |ids|);
        if !Conflicts(fenced, row) {
          return Returned(fenced + [row], row.hash.raw), turns;
        }
      }
      outcome := LostRace;
    }

    /** `resolve_token`. */
    method ResolveToken(raw: Raw) returns (id: Option<nat>)
      ensures id == Resolve(rows, raw)
      ensures id.Some? ==> id.value < |rows| && rows[id.value].hash == Hash(raw) && !rows[id.value].revoked
      ensures id.None? ==> forall i | 0 <= i < |rows| :: rows[i].hash != Hash(raw) || rows[i].revoked
    {
      ResolveSound(rows, raw);
      var i := |rows|;
      assert rows[..i] == rows;
      while i > 0
        invariant 0 <= i <= |rows|
        invariant Resolve(rows, raw) == Resolve(rows[..i], raw)
      {
        i := i - 1;
        assert rows[..i + 1][..i] == rows[..i];
        if rows[i].hash == Hash(raw) && !rows[i].revoked {
          return Some(i);
        }
      }
      id := None;
    }

    method RevokeToken(user: nat, id: nat) returns (revoked: bool)
      requires Valid(rows)
      modifies this`rows
      ensures Valid(rows) && rows == Next(old(rows), Revoke(user, id))
      ensures revoked <==> id < |old(rows)| && old(rows)[id].user == user && !old(rows)[id].revoked
      ensures !revoked ==> rows == old(rows)
      ensures revoked ==> id < |rows| && rows == old(rows)[id := rows[id]]
      ensures revoked ==> rows[id].revoked && rows[id].(revoked := false) == old(rows)[id]
      ensures revoked ==> Resolve(rows, old(rows)[id].hash.raw).None?
    {
      StepKeeps(rows, Revoke(user, id));
      revoked := id < |rows| && rows[id].user == user && !rows[id].revoked;
      if revoked {
        RevocationSilences(rows, id);
        rows := rows[id := rows[id].(revoked := true)];
      }
    }

    method RevokeAnyToken(id: nat) returns (revoked: bool)
      requires Valid(rows)
      modifies this`rows
      ensures Valid(rows) && rows == Next(old(rows), RevokeAny(id))
      ensures revoked <==> id < |old(rows)| && !old(rows)[id].revoked
      ensures !revoked ==> rows == old(rows)
      ensures revoked ==> id < |rows| && rows == old(rows)[id := rows[id]]
      ensures revoked ==> rows[id].revoked && rows[id].(revoked := false) == old(rows)[id]
      ensures revoked ==> Resolve(rows, old(rows)[id].hash.raw).None?
    {
      StepKeeps(rows, RevokeAny(id));
      revoked := id < |rows| && !rows[id].revoked;
      if revoked {
        RevocationSilences(rows, id);
        rows := rows[id := rows[id].(revoked := true)];
      }
    }

    /** `create_token`: one more live row of the user, whose value resolves to it; no
        other row changes. */
    method CreateToken(user: nat, name: string, tag: nat) returns (result: Result<Raw, StoreError>)
      requires Valid(rows)
      modifies this`rows
      ensures Valid(rows) && (user in users ==> rows == Next(old(rows), Step.CreateToken(user, name, tag)))
      ensures result.Err? ==> rows == old(rows)
      ensures result == Err(UnknownUser) <==> user !in users
      ensures result == Err(ConstraintViolated) <==>
                user in users && exists i | 0 <= i < |old(rows)| :: old(rows)[i].hash == Hash(Random(tag))
      ensures result.Ok? ==>
                && result.value == Random(tag) && |rows| == |old(rows)| + 1 && rows[..|old(rows)|] == old(rows)
                && rows[|old(rows)|] == Row(user, name, Hash(Random(tag)), false, Unmarked)
                && Resolve(rows, result.value) == Some(|old(rows)|)
    {
      if user !in users {
        return Err(UnknownUser);
      }
      StepKeeps(rows, Step.CreateToken(user, name, tag));
      var row := Row(user, name, Hash(Random(tag)), false, Unmarked);
      if Conflicts(rows, row) {
        return Err(ConstraintViolated);
      }
      rows := rows + [row];
      result := Ok(row.hash.raw);
    }

    /** `create_personal_token`: revoke everything the user holds, then insert, in
        one transaction that a constraint violation rolls back. */
    method CreatePersonalToken(user: nat, name: string, secret: string, nonce: nat) returns (result: Result<Raw, StoreError>)
      requires Valid(rows)
      modifies this`rows
      ensures Valid(rows) && Evolves(old(rows), rows)
      ensures result.Ok? ==>
                && user in users && result.value == Personal(secret, user, nonce) && Resolve(rows, result.value).Some?
                && forall i | 0 <= i < |rows| && rows[i].user == user && !rows[i].revoked :: rows[i].hash == Hash(result.value)
      ensures result.Err? ==> rows == old(rows)
    {
      hide Valid, Evolves, Conflicts;
      if user !in users {
        StepKeeps(rows, RevokeAny(|rows|));
        return Err(UnknownUser);
      }
      StepKeeps(rows, CreatePersonal(user, name, secret, nonce));
      var row := Row(user, name, Hash(Personal(secret, user, nonce)), false, PersonalKey);
      var fenced := RevokeAllOf(rows, user);
      if Conflicts(fenced, row) {
        return Err(ConstraintViolated);
      }
      rows := fenced + [row];
      result := Ok(row.hash.raw);
    }
  }

  /** The three ways a request under the lock can go, none of which fails. */
  lemma RequestCases(t: Table, user: nat, secret: string)
    requires Valid(t)
    ensures var ids := ConfigIds(t, user);
            var active := LastActive(t, ids);
            var reuse := FirstReusable(t, ids, user, secret, 0);
            var fenced := if active.Some? then RevokeMarked(t, user) else t;
            Request(t, t, user, secret) ==
              if active.Some? && t[ids[active.value]].hash == Hash(Derived(secret, user, active.value))
              then Returned(t, Derived(secret, user, active.value))
              else if reuse.Some? then Returned(Marked(fenced, ids[reuse.value]), Derived(secret, user, reuse.value))
              else Returned(fenced + [ConfigRow(user, secret, |ids|)], Derived(secret, user, |ids|))
  {
    var _ := RequestServes(t, user, secret);
  }

  /** How a turn of the recovery loop can go, and that only a commit of another
      worker between its read and its writes can make it lose. */
  lemma RecoverCases(seen: Table, t: Table, user: nat, secret: string)
    requires Valid(seen) && Evolves(seen, t)
    ensures |seen| <= |t|
    ensures var ids := ConfigIds(seen, user);
            var reuse := FirstReusable(seen, ids, user, secret, 0);
            var row := ConfigRow(user, secret, |ids|);
            var fenced := RevokeMarked(t, user);
            Recover(seen, t, user, secret) ==
              if reuse.Some? then
                if MarkConflicts(t, ids[reuse.value]) then Raised
                else Returned(Marked(t, ids[reuse.value]), Derived(secret, user, reuse.value))
              else if Conflicts(fenced, row) then LostRace
              else Returned(fenced + [row], row.hash.raw)
    ensures Recover(seen, t, user, secret).LostRace? ==> t != seen
  {
    var _ := RecoverySettles(seen, user, secret);
  }

  lemma ServedResolves(t: Table, user: nat, raw: Raw, id: nat)
    requires Indexed(t) && Serves(t, user, raw, id)
    ensures Resolve(t, raw).Some? && Resolve(t, raw).value < |t| && t[Resolve(t, raw).value].user == user
  {
    ResolveSound(t, raw);
  }
}
