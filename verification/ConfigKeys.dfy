/** The reusable agent-config key: re-derived from a secret, a user and a place
    in the user's config history, never stored. */
module ConfigKeys {
  import opened Wrappers
  import opened TokenTable

  // ------------------------------------------------------------- one request

  /** The last live marked row of a history, by its index in it. */
  function LastActive(t: Table, ids: seq<nat>): (active: Option<nat>)
    requires forall k | 0 <= k < |ids| :: ids[k] < |t|
    ensures active.Some? ==>
              active.value < |ids| && !t[ids[active.value]].revoked && t[ids[active.value]].purpose.AgentConfig?
  {
    if ids == [] then None
    else
      var k := |ids| - 1;
      if !t[ids[k]].revoked && t[ids[k]].purpose.AgentConfig? then Some(k) else LastActive(t, ids[..k])
  }

  /** Whether the k-th row of the history is live and carries the k-th value. */
  predicate Reusable(t: Table, ids: seq<nat>, user: nat, secret: string, k: nat)
    requires forall k | 0 <= k < |ids| :: ids[k] < |t|
  {
    k < |ids| && t[ids[k]].hash == Hash(Derived(secret, user, k)) && !t[ids[k]].revoked
  }

  function FirstReusable(t: Table, ids: seq<nat>, user: nat, secret: string, from: nat): (reuse: Option<nat>)
    requires forall k | 0 <= k < |ids| :: ids[k] < |t|
    ensures reuse.Some? ==> Reusable(t, ids, user, secret, reuse.value)
    decreases |ids| - from
  {
    if from >= |ids| then None
    else if Reusable(t, ids, user, secret, from) then Some(from)
    else FirstReusable(t, ids, user, secret, from + 1)
  }

  datatype Outcome =
    | Returned(table: Table, raw: Raw)
    | LostRace                          // the INSERT hit a constraint; recovery follows
    | Raised                            // a constraint error that nothing catches

  predicate MarkConflicts(t: Table, id: nat)
    requires id < |t|
  {
    !t[id].revoked && exists i | 0 <= i < |t| :: i != id && Live(t, t[id].user, AgentConfig, i)
  }

  /** The value the history's active row should carry under this secret. */
  predicate ActiveMatches(t: Table, user: nat, secret: string) {
    var ids := ConfigIds(t, user);
    var active := LastActive(t, ids);
    active.Some? && t[ids[active.value]].hash == Hash(Derived(secret, user, active.value))
  }

  /** Marked rows are revoked when the history that was read has an active one. */
  function Fenced(seen: Table, t: Table, user: nat): Table {
    if LastActive(seen, ConfigIds(seen, user)).Some? then RevokeMarked(t, user) else t
  }

  /** `get_or_create_config_token` for an existing user, up to its first INSERT.
      The history is read from `seen`; the writes apply to `t`, which is the same
      table unless other workers committed in between. */
  function Request(seen: Table, t: Table, user: nat, secret: string): Outcome
    requires |seen| <= |t|
  {
    var ids := ConfigIds(seen, user);
    if ActiveMatches(seen, user, secret)
    then Returned(t, Derived(secret, user, LastActive(seen, ids).value))
    else
      var fenced := Fenced(seen, t, user);
      var reuse := FirstReusable(seen, ids, user, secret, 0);
      if reuse.Some? then
        var id := ids[reuse.value];
        if MarkConflicts(fenced, id) then Raised
        else Returned(Marked(fenced, id), Derived(secret, user, reuse.value))
      else
        var row := ConfigRow(user, secret, |ids|);
        if Conflicts(fenced, row) then LostRace else Returned(fenced + [row], row.hash.raw)
  }

  /** One turn of the recovery loop, again with the read before the write. */
  function Recover(seen: Table, t: Table, user: nat, secret: string): Outcome
    requires |seen| <= |t|
  {
    var ids := ConfigIds(seen, user);
    var reuse := FirstReusable(seen, ids, user, secret, 0);
    if reuse.Some? then
      var id := ids[reuse.value];
      if MarkConflicts(t, id) then Raised
      else Returned(Marked(t, id), Derived(secret, user, reuse.value))
    else
      var fenced := RevokeMarked(t, user);
      var row := ConfigRow(user, secret, |ids|);
      if Conflicts(fenced, row) then LostRace else Returned(fenced + [row], row.hash.raw)
  }

  // ------------------------------------------------------------------ lookups

  lemma {:induction false} LastActiveSound(t: Table, ids: seq<nat>)
    requires forall k | 0 <= k < |ids| :: ids[k] < |t|
    ensures var a := LastActive(t, ids);
            a.None? ==> forall k | 0 <= k < |ids| :: t[ids[k]].revoked || !t[ids[k]].purpose.AgentConfig?
  {
    if ids != [] {
      LastActiveSound(t, ids[..|ids| - 1]);
    }
  }

  lemma {:induction false} FirstReusableSound(t: Table, ids: seq<nat>, user: nat, secret: string, from: nat)
    requires forall k | 0 <= k < |ids| :: ids[k] < |t|
    ensures var r := FirstReusable(t, ids, user, secret, from);
            r.None? ==> forall k: nat | from <= k :: !Reusable(t, ids, user, secret, k)
    decreases |ids| - from
  {
    if from < |ids| && !Reusable(t, ids, user, secret, from) {
      FirstReusableSound(t, ids, user, secret, from + 1);
    }
  }

  /** In a valid table a live marked row of the user is the one LastActive finds. */
  lemma ActiveIsFound(t: Table, user: nat, i: nat)
    requires Indexed(t) && Live(t, user, AgentConfig, i)
    ensures LastActive(t, ConfigIds(t, user)) == Some(Position(t, user, i))
    ensures ConfigIds(t, user)[Position(t, user, i)] == i
  {
    var ids := ConfigIds(t, user);
    ConfigIdsSound(t, user);
    LastActiveSound(t, ids);
    var k := Position(t, user, i);
    assert ids[k] == i;
    assert ids[LastActive(t, ids).value] == i;
  }

  // --------------------------------------------------------- the shared pieces

  lemma RevokeMarkedKeeps(t: Table, user: nat)
    requires Valid(t)
    ensures Valid(RevokeMarked(t, user)) && Evolves(t, RevokeMarked(t, user))
    ensures forall i :: !Live(RevokeMarked(t, user), user, AgentConfig, i)
  {
    EvolvesKeepsPlaced(t, RevokeMarked(t, user));
  }

  lemma MarkKeeps(t: Table, id: nat)
    requires Valid(t) && id < |t| && IsConfig(t[id], t[id].user) && !MarkConflicts(t, id)
    ensures Valid(Marked(t, id)) && Evolves(t, Marked(t, id))
  {
    var u := Marked(t, id);
    forall i | 0 <= i < |t| && i != id && !t[id].revoked && t[i].user == t[id].user && t[i].purpose.AgentConfig?
      ensures t[i].revoked
    {
      var live := Live(t, t[id].user, AgentConfig, i);
    }
    EvolvesKeepsPlaced(t, u);
  }

  /** Minting the next generation never meets an existing value. */
  lemma MintIsFree(t: Table, user: nat, secret: string)
    requires Valid(t) && forall i :: !Live(t, user, AgentConfig, i)
    ensures var row := ConfigRow(user, secret, |ConfigIds(t, user)|);
            !Conflicts(t, row) && Valid(t + [row]) && Evolves(t, t + [row])
  {
    var row := ConfigRow(user, secret, |ConfigIds(t, user)|);
    ConfigIdsSound(t, user);
    forall i | 0 <= i < |t| ensures t[i].hash != row.hash {
    }
    AppendKeeps(t, row);
  }

  // ---------------------------------------------------------- under one lock

  /** What a request leaves behind: the returned value belongs to row `id`, the
      user's live and only live marked config key. */
  ghost predicate Serves(t: Table, user: nat, raw: Raw, id: nat) {
    Live(t, user, AgentConfig, id) && t[id].hash == Hash(raw)
  }

  lemma FencedIsClear(t: Table, user: nat)
    requires Valid(t)
    ensures Valid(Fenced(t, t, user)) && Evolves(t, Fenced(t, t, user)) && |Fenced(t, t, user)| == |t|
    ensures forall i :: !Live(Fenced(t, t, user), user, AgentConfig, i)
    ensures ConfigIds(Fenced(t, t, user), user) == ConfigIds(t, user)
    ensures forall i | 0 <= i < |t| && !(t[i].user == user && t[i].purpose.AgentConfig?) :: Fenced(t, t, user)[i] == t[i]
  {
    RevokeMarkedKeeps(t, user);
    SameHistory(t, Fenced(t, t, user), user);
    if LastActive(t, ConfigIds(t, user)).None? {
      forall i ensures !Live(t, user, AgentConfig, i) {
        if Live(t, user, AgentConfig, i) {
          ActiveIsFound(t, user, i);
        }
      }
    }
  }

  lemma RequestReuses(t: Table, user: nat, secret: string, k: nat)
    requires Valid(t) && !ActiveMatches(t, user, secret)
    requires FirstReusable(t, ConfigIds(t, user), user, secret, 0) == Some(k)
    ensures var id := ConfigIds(t, user)[k];
            var r := Request(t, t, user, secret);
            && r.Returned? && r.raw == Derived(secret, user, k)
            && Valid(r.table) && Evolves(t, r.table) && Serves(r.table, user, r.raw, id)
            && (forall i | 0 <= i < |t| && i != id && t[i].purpose.Unmarked? :: r.table[i] == t[i])
  {
    var id := ConfigIds(t, user)[k];
    ConfigIdsSound(t, user);
    if t[id].purpose.AgentConfig? {
      ActiveIsFound(t, user, id);
    }
    FencedIsClear(t, user);
    MarkKeeps(Fenced(t, t, user), id);
  }

  lemma RequestMints(t: Table, user: nat, secret: string)
    requires Valid(t) && !ActiveMatches(t, user, secret)
    requires FirstReusable(t, ConfigIds(t, user), user, secret, 0).None?
    ensures var r := Request(t, t, user, secret);
            && r.Returned? && r.raw == Derived(secret, user, |ConfigIds(t, user)|)
            && Valid(r.table) && Evolves(t, r.table) && Serves(r.table, user, r.raw, |t|)
            && (forall i | 0 <= i < |t| && t[i].purpose.Unmarked? :: r.table[i] == t[i])
  {
    FencedIsClear(t, user);
    MintIsFree(Fenced(t, t, user), user, secret);
  }

  /** A request under the lock always returns: no constraint is ever violated, the
      table stays valid and only evolves, and the value serves the user. */
  lemma RequestServes(t: Table, user: nat, secret: string) returns (id: nat)
    requires Valid(t)
    ensures var r := Request(t, t, user, secret);
            && r.Returned? && r.raw.Derived? && r.raw.secret == secret
            && Valid(r.table) && Evolves(t, r.table) && Serves(r.table, user, r.raw, id)
  {
    var ids := ConfigIds(t, user);
    var reuse := FirstReusable(t, ids, user, secret, 0);
    if ActiveMatches(t, user, secret) {
      ConfigIdsSound(t, user);
      id := ids[LastActive(t, ids).value];
    } else if reuse.Some? {
      RequestReuses(t, user, secret, reuse.value);
      id := ids[reuse.value];
    } else {
      RequestMints(t, user, secret);
      id := |t|;
    }
  }

  /** While a row serves the user under a secret, every request under that secret
      returns its value and changes nothing. */
  lemma ServedAgain(t: Table, user: nat, secret: string, raw: Raw, id: nat)
    requires Valid(t) && Serves(t, user, raw, id) && raw.Derived? && raw.secret == secret
    ensures Request(t, t, user, secret) == Returned(t, raw)
  {
    ActiveIsFound(t, user, id);
  }
}
