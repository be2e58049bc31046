/** The token table and the transactions on it. Rows are never deleted, so a
    row's id is its place in the table. */
module TokenTable {
  import opened Wrappers

  /** A raw bearer value, by where it came from. As constructors the derivations
      are injective and never collide with random values, which is what HMAC and
      256 bits of entropy are relied on for. */
  datatype Raw =
    | Derived(secret: string, user: nat, generation: nat)
    | Personal(secret: string, user: nat, nonce: nat)
    | Random(tag: nat)

  /** The stored digest, likewise injective. */
  datatype Hash = Hash(raw: Raw)

  datatype Purpose = Unmarked | AgentConfig | PersonalKey

  datatype Row = Row(user: nat, name: string, hash: Hash, revoked: bool, purpose: Purpose)

  type Table = seq<Row>

  const CONFIG_NAME := "agent-config"

  /** Marked config keys, and unmarked rows that carry their name. */
  predicate IsConfig(row: Row, user: nat) {
    row.user == user && (row.purpose.AgentConfig? || (row.purpose.Unmarked? && row.name == CONFIG_NAME))
  }

  /** The ids of a user's config history, in order. */
  function ConfigIds(t: Table, user: nat): (ids: seq<nat>)
    ensures forall k | 0 <= k < |ids| :: ids[k] < |t|
  {
    if t == [] then []
    else
      var n := |t| - 1;
      ConfigIds(t[..n], user) + if IsConfig(t[n], user) then [n] else []
  }

  /** How many rows of the user's config history come before row i. */
  function Position(t: Table, user: nat, i: nat): nat
    requires i <= |t|
  {
    |ConfigIds(t[..i], user)|
  }

  predicate Live(t: Table, user: nat, purpose: Purpose, i: nat) {
    i < |t| && t[i].user == user && t[i].purpose == purpose && !t[i].revoked
  }

  // ------------------------------------------------- constraints and invariant

  /** The UNIQUE column and the two partial unique indexes of the schema. */
  ghost predicate Indexed(t: Table) {
    && (forall i, j | 0 <= i < j < |t| :: t[i].hash != t[j].hash)
    && (forall i, j | 0 <= i < j < |t| && t[i].user == t[j].user && !t[i].revoked && !t[j].revoked ::
          t[i].purpose == t[j].purpose ==> t[i].purpose.Unmarked?)
  }

  /** A derived value stands in its own user's config history, at the position
      equal to its generation. */
  ghost predicate Placed(t: Table) {
    forall i | 0 <= i < |t| && t[i].hash.raw.Derived? ::
      var raw := t[i].hash.raw;
      IsConfig(t[i], raw.user) && Position(t, raw.user, i) == raw.generation
  }

  ghost predicate Valid(t: Table) {
    Indexed(t) && Placed(t)
  }

  /** What the columns may ever do: rows are appended, a revocation is final, and
      an unmarked config row may gain the config marker. */
  ghost predicate Evolves(t: Table, u: Table) {
    && |t| <= |u|
    && forall i | 0 <= i < |t| ::
         && u[i].user == t[i].user && u[i].name == t[i].name && u[i].hash == t[i].hash
         && (t[i].revoked ==> u[i].revoked)
         && (u[i].purpose == t[i].purpose
             || (t[i].purpose.Unmarked? && t[i].name == CONFIG_NAME && u[i].purpose.AgentConfig?))
  }

  // ------------------------------------------------------------- transactions

  /** Whether inserting `row` would violate a constraint. */
  predicate Conflicts(t: Table, row: Row) {
    || (exists i | 0 <= i < |t| :: t[i].hash == row.hash)
    || (!row.revoked && !row.purpose.Unmarked? && exists i | 0 <= i < |t| :: Live(t, row.user, row.purpose, i))
  }

  /** UPDATE tokens SET revoked = 1 WHERE user_id = ? AND purpose = ? AND revoked = 0 */
  function RevokeMarked(t: Table, user: nat): Table {
    seq(|t|, i requires 0 <= i < |t| =>
      if t[i].user == user && t[i].purpose.AgentConfig? then t[i].(revoked := true) else t[i])
  }

  function RevokeAllOf(t: Table, user: nat): Table {
    seq(|t|, i requires 0 <= i < |t| => if t[i].user == user then t[i].(revoked := true) else t[i])
  }

  function RevokeRow(t: Table, id: nat): Table {
    if id < |t| then t[id := t[id].(revoked := true)] else t
  }

  function Marked(t: Table, id: nat): Table
    requires id < |t|
  {
    t[id := t[id].(purpose := AgentConfig)]
  }

  function ConfigRow(user: nat, secret: string, generation: nat): Row {
    Row(user, CONFIG_NAME, Hash(Derived(secret, user, generation)), false, AgentConfig)
  }

  /** The live row a raw value resolves to. */
  function Resolve(t: Table, raw: Raw): (id: Option<nat>)
    ensures id.Some? ==> id.value < |t|
  {
    if t == [] then None
    else if t[|t| - 1].hash == Hash(raw) && !t[|t| - 1].revoked then Some(|t| - 1)
    else Resolve(t[..|t| - 1], raw)
  }

  // --------------------------------------------------- positions in a history

  lemma {:induction false} ConfigIdsSound(t: Table, user: nat)
    ensures forall k | 0 <= k < |ConfigIds(t, user)| ::
              && ConfigIds(t, user)[k] < |t| && IsConfig(t[ConfigIds(t, user)[k]], user)
              && Position(t, user, ConfigIds(t, user)[k]) == k
    ensures forall i | 0 <= i < |t| && IsConfig(t[i], user) ::
              Position(t, user, i) < |ConfigIds(t, user)| && ConfigIds(t, user)[Position(t, user, i)] == i
  {
    if t != [] {
      var n := |t| - 1;
      ConfigIdsSound(t[..n], user);
      assert forall i | 0 <= i <= n :: t[..n][..i] == t[..i];
    }
  }

  /** Tables whose rows agree on being config rows have the same history. */
  lemma {:induction false} SameHistory(t: Table, u: Table, user: nat)
    requires |t| == |u| && forall i | 0 <= i < |t| :: IsConfig(t[i], user) == IsConfig(u[i], user)
    ensures ConfigIds(t, user) == ConfigIds(u, user)
  {
    if t != [] {
      SameHistory(t[..|t| - 1], u[..|u| - 1], user);
    }
  }

  /** A row never changes its position. */
  lemma PositionsStay(t: Table, u: Table, user: nat)
    requires Evolves(t, u)
    ensures forall i | 0 <= i <= |t| :: Position(u, user, i) == Position(t, user, i)
    ensures ConfigIds(t, user) == ConfigIds(u[..|t|], user)
  {
    forall i | 0 <= i <= |t| ensures Position(u, user, i) == Position(t, user, i) {
      SameHistory(t[..i], u[..i], user);
    }
    SameHistory(t, u[..|t|], user);
  }

  lemma {:induction false} ResolveSound(t: Table, raw: Raw)
    ensures Resolve(t, raw).Some? ==>
              Resolve(t, raw).value < |t| && t[Resolve(t, raw).value].hash == Hash(raw) && !t[Resolve(t, raw).value].revoked
    ensures Resolve(t, raw).None? ==> forall i | 0 <= i < |t| :: t[i].hash != Hash(raw) || t[i].revoked
  {
    if t != [] {
      ResolveSound(t[..|t| - 1], raw);
    }
  }

  /** Rows that only evolve keep a derived value in its place. */
  lemma EvolvesKeepsPlaced(t: Table, u: Table)
    requires Placed(t) && Evolves(t, u) && |u| == |t|
    ensures Placed(u)
  {
    forall i | 0 <= i < |u| && u[i].hash.raw.Derived?
      ensures IsConfig(u[i], u[i].hash.raw.user) && Position(u, u[i].hash.raw.user, i) == u[i].hash.raw.generation
    {
      PositionsStay(t, u, u[i].hash.raw.user);
    }
  }

  /** Appending keeps the invariant when nothing conflicts and a derived value
      gets the next position of its history. */
  lemma AppendKeeps(t: Table, row: Row)
    requires Valid(t) && !Conflicts(t, row)
    requires row.hash.raw.Derived? ==>
               IsConfig(row, row.hash.raw.user) && row.hash.raw.generation == |ConfigIds(t, row.hash.raw.user)|
    ensures Valid(t + [row]) && Evolves(t, t + [row])
  {
    var u := t + [row];
    assert forall i | 0 <= i < |t| :: u[i] == t[i] && u[..i] == t[..i];
    assert u[..|t|] == t;
    forall i, j | 0 <= i < j < |u| && u[i].user == u[j].user && !u[i].revoked && !u[j].revoked
      ensures u[i].purpose == u[j].purpose ==> u[i].purpose.Unmarked?
    {
      if j == |t| && u[i].purpose == row.purpose && !row.purpose.Unmarked? {
        assert Live(t, row.user, row.purpose, i);
      }
    }
  }
}
