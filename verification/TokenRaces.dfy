/** Two gateway processes on one token database: one reads the config history, another
    commits, and the first writes. What that does to the key it hands out. */
module TokenRaces {
  import opened Wrappers
  import opened TokenTable
  import opened ConfigKeys
  import opened TokenRuns

  /** What is left of `Placed` once mints have raced: a derived value stands in its
      own user's config history, at its generation or behind it. Unlike `Placed`, this
      survives every race. */
  ghost predicate Behind(t: Table) {
    forall i | 0 <= i < |t| && t[i].hash.raw.Derived? ::
      IsConfig(t[i], t[i].hash.raw.user) && t[i].hash.raw.generation <= Position(t, t[i].hash.raw.user, i)
  }

  lemma PlacedIsBehind(t: Table)
    requires Placed(t)
    ensures Behind(t)
  {
  }

  /** Rows that only evolve stay where they are. */
  lemma EvolvesKeepsBehind(t: Table, u: Table)
    requires Behind(t) && Evolves(t, u) && |u| == |t|
    ensures Behind(u)
  {
    forall i | 0 <= i < |u| && u[i].hash.raw.Derived?
      ensures IsConfig(u[i], u[i].hash.raw.user) && u[i].hash.raw.generation <= Position(u, u[i].hash.raw.user, i)
    {
      PositionsStay(t, u, u[i].hash.raw.user);
    }
  }

  lemma AppendBehind(t: Table, row: Row)
    requires Behind(t)
    requires row.hash.raw.Derived? ==>
               IsConfig(row, row.hash.raw.user) && row.hash.raw.generation <= |ConfigIds(t, row.hash.raw.user)|
    ensures Behind(t + [row])
  {
    var u := t + [row];
    assert forall i | 0 <= i < |t| :: u[i] == t[i] && u[..i] == t[..i];
    assert u[|t|] == row && u[..|t|] == t;
  }

  /** A minted row that stands at another position than its generation is live and
      yet never matches: the request that follows revokes it. */
  lemma MisplacedRotates(t: Table, user: nat, secret: string, generation: nat)
    requires Indexed(t) && Behind(t) && !Conflicts(t, ConfigRow(user, secret, generation))
    requires generation < |ConfigIds(t, user)|
    ensures var u := t + [ConfigRow(user, secret, generation)];
            var r := Request(u, u, user, secret);
            && Indexed(u) && r.Returned? && r.raw != Derived(secret, user, generation)
            && Resolve(u, Derived(secret, user, generation)).Some?
            && Resolve(r.table, Derived(secret, user, generation)).None?
  {
    hide Request, Resolve, Behind;
    var row := ConfigRow(user, secret, generation);
    var u := t + [row];
    AppendIndexed(t, row);
    ResolveSound(u, row.hash.raw);
    assert u[|t|] == row;
    MisplacedIsStale(t, user, secret, generation);
    MisplacedRequest(t, user, secret, generation);
    ResolveSound(Request(u, u, user, secret).table, row.hash.raw);
  }

  lemma AppendIndexed(t: Table, row: Row)
    requires Indexed(t) && !Conflicts(t, row)
    ensures Indexed(t + [row])
  {
    var u := t + [row];
    forall i, j | 0 <= i < j < |u| && u[i].user == u[j].user && !u[i].revoked && !u[j].revoked
      ensures u[i].purpose == u[j].purpose ==> u[i].purpose.Unmarked?
    {
      if j == |t| && u[i].purpose == row.purpose && !row.purpose.Unmarked? {
        var live := Live(t, row.user, row.purpose, i);
      }
    }
  }

  lemma MisplacedIsStale(t: Table, user: nat, secret: string, generation: nat)
    requires Indexed(t + [ConfigRow(user, secret, generation)]) && generation < |ConfigIds(t, user)|
    ensures var u := t + [ConfigRow(user, secret, generation)];
            && !ActiveMatches(u, user, secret) && LastActive(u, ConfigIds(u, user)).Some?
            && |ConfigIds(u, user)| == |ConfigIds(t, user)| + 1
  {
    var u := t + [ConfigRow(user, secret, generation)];
    assert u[..|t|] == t;
    assert Live(u, user, AgentConfig, |t|);
    ActiveIsFound(u, user, |t|);
  }

  lemma MisplacedRequest(t: Table, user: nat, secret: string, generation: nat)
    requires Behind(t) && Indexed(t + [ConfigRow(user, secret, generation)]) && generation < |ConfigIds(t, user)|
    requires var u := t + [ConfigRow(user, secret, generation)];
             && !ActiveMatches(u, user, secret) && LastActive(u, ConfigIds(u, user)).Some?
             && |ConfigIds(u, user)| == |ConfigIds(t, user)| + 1
    ensures var u := t + [ConfigRow(user, secret, generation)];
            var r := Request(u, u, user, secret);
            && r.Returned? && r.raw != Derived(secret, user, generation)
            && forall i | 0 <= i < |r.table| && r.table[i].hash == Hash(Derived(secret, user, generation)) :: r.table[i].revoked
  {
    hide ActiveMatches, LastActive, Indexed, Behind, MarkConflicts, Conflicts;
    var u := t + [ConfigRow(user, secret, generation)];
    var ids := ConfigIds(u, user);
    var fenced := RevokeMarked(u, user);
    FencedHides(t, user, secret, generation);
    var reuse := FirstReusable(u, ids, user, secret, 0);
    if reuse.None? {
      NextIsFree(t, user, secret, generation);
    } else {
      ReuseIsElsewhere(t, user, secret, generation, reuse.value);
    }
  }

  /** Fencing revokes the only row that carries the misplaced value, and leaves no
      marked row of the user live. */
  lemma FencedHides(t: Table, user: nat, secret: string, generation: nat)
    requires Indexed(t + [ConfigRow(user, secret, generation)])
    ensures var u := t + [ConfigRow(user, secret, generation)];
            var fenced := RevokeMarked(u, user);
            && (forall i | 0 <= i < |fenced| && fenced[i].hash == Hash(Derived(secret, user, generation)) ::
                  i == |t| && fenced[i].revoked)
            && (forall id | 0 <= id < |u| && u[id].user == user :: !MarkConflicts(fenced, id))
  {
    var u := t + [ConfigRow(user, secret, generation)];
    var fenced := RevokeMarked(u, user);
    assert u[|t|].hash == Hash(Derived(secret, user, generation));
    assert forall i :: !Live(fenced, user, AgentConfig, i);
  }

  lemma NextIsFree(t: Table, user: nat, secret: string, generation: nat)
    requires Behind(t) && generation < |ConfigIds(t, user)|
    ensures var u := t + [ConfigRow(user, secret, generation)];
            |ConfigIds(u, user)| == |ConfigIds(t, user)| + 1 ==>
              !Conflicts(RevokeMarked(u, user), ConfigRow(user, secret, |ConfigIds(u, user)|))
  {
    var u := t + [ConfigRow(user, secret, generation)];
    ConfigIdsSound(t, user);
    var row := ConfigRow(user, secret, |ConfigIds(t, user)| + 1);
    forall i | 0 <= i < |t| ensures t[i].hash != row.hash {
    }
  }

  lemma ReuseIsElsewhere(t: Table, user: nat, secret: string, generation: nat, k: nat)
    requires Indexed(t + [ConfigRow(user, secret, generation)]) && generation < |ConfigIds(t, user)|
    requires var u := t + [ConfigRow(user, secret, generation)];
             Reusable(u, ConfigIds(u, user), user, secret, k)
    ensures var u := t + [ConfigRow(user, secret, generation)];
            k != generation && u[ConfigIds(u, user)[k]].user == user
  {
    var u := t + [ConfigRow(user, secret, generation)];
    var id := ConfigIds(u, user)[k];
    ConfigIdsSound(u, user);
    assert u[..|t|] == t;
    assert u[id].hash == u[|t|].hash ==> id == |t|;
  }

  /** The next request under the same secret returns the key just minted and changes
      nothing, if and only if no config row of the user was committed between the
      history read and the INSERT. Otherwise it returns another key, and the one just
      handed out no longer resolves. The table may itself be the product of races. */
  lemma RacingMintIsStableIff(seen: Table, t: Table, user: nat, secret: string)
    requires Indexed(t) && Behind(t) && Evolves(seen, t)
    requires !ActiveMatches(seen, user, secret)
    requires FirstReusable(seen, ConfigIds(seen, user), user, secret, 0).None?
    requires Request(seen, t, user, secret).Returned?
    ensures var r := Request(seen, t, user, secret);
            var again := Request(r.table, r.table, user, secret);
            && (again == Returned(r.table, r.raw) <==> |ConfigIds(t, user)| == |ConfigIds(seen, user)|)
            && Resolve(r.table, r.raw).Some?
            && (|ConfigIds(t, user)| != |ConfigIds(seen, user)| ==>
                  again.Returned? && again.raw != r.raw && Resolve(again.table, r.raw).None?)
  {
    hide Indexed, Behind, Resolve, Request, ActiveMatches, FirstReusable, Conflicts, Fenced, ConfigIds;
    var fenced, generation := Fenced(seen, t, user), |ConfigIds(seen, user)|;
    MintForm(seen, t, user, secret);
    FencedHistory(seen, t, user);
    HistoryGrows(seen, t, user);
    if |ConfigIds(t, user)| == generation {
      PlacedRepeats(fenced, user, secret, generation);
    } else {
      MisplacedRotates(fenced, user, secret, generation);
    }
  }

  lemma MintForm(seen: Table, t: Table, user: nat, secret: string)
    requires |seen| <= |t| && !ActiveMatches(seen, user, secret)
    requires FirstReusable(seen, ConfigIds(seen, user), user, secret, 0).None?
    requires Request(seen, t, user, secret).Returned?
    ensures var fenced, row := Fenced(seen, t, user), ConfigRow(user, secret, |ConfigIds(seen, user)|);
            !Conflicts(fenced, row) && Request(seen, t, user, secret) == Returned(fenced + [row], row.hash.raw)
  {
    hide ActiveMatches, FirstReusable, Conflicts, Fenced, ConfigIds;
  }

  lemma FencedHistory(seen: Table, t: Table, user: nat)
    requires Indexed(t) && Behind(t)
    ensures Indexed(Fenced(seen, t, user)) && Behind(Fenced(seen, t, user))
    ensures ConfigIds(Fenced(seen, t, user), user) == ConfigIds(t, user)
  {
    EvolvesKeepsBehind(t, RevokeMarked(t, user));
    SameHistory(t, RevokeMarked(t, user), user);
  }

  /** A minted row that stands at the position of its generation is returned again. */
  lemma PlacedRepeats(t: Table, user: nat, secret: string, generation: nat)
    requires Indexed(t) && !Conflicts(t, ConfigRow(user, secret, generation)) && generation == |ConfigIds(t, user)|
    ensures var u, raw := t + [ConfigRow(user, secret, generation)], Derived(secret, user, generation);
            Request(u, u, user, secret) == Returned(u, raw) && Resolve(u, raw).Some?
  {
    hide Resolve, Conflicts, ConfigIds;
    var row := ConfigRow(user, secret, generation);
    var u := t + [row];
    AppendIndexed(t, row);
    assert u[|t|] == row && u[..|t|] == t;
    assert Live(u, user, AgentConfig, |t|);
    ActiveIsFound(u, user, |t|);
    ResolveSound(u, row.hash.raw);
  }

  lemma HistoryGrows(seen: Table, t: Table, user: nat)
    requires Evolves(seen, t)
    ensures |ConfigIds(seen, user)| <= |ConfigIds(t, user)|
  {
    PositionsStay(seen, t, user);
    PrefixHistory(t, user, |seen|);
  }

  lemma {:induction false} PrefixHistory(t: Table, user: nat, n: nat)
    requires n <= |t|
    ensures |ConfigIds(t[..n], user)| <= |ConfigIds(t, user)|
  {
    if n < |t| {
      assert t[..|t| - 1][..n] == t[..n];
      PrefixHistory(t[..|t| - 1], user, n);
    } else {
      assert t[..n] == t;
    }
  }
}
