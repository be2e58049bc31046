/** The listing of a revision's artifacts, in the order of their entrypoints. */
module GgufListing {
  import opened GgufPaths
  import opened GgufFamilies
  import opened GgufIndex

  /** Strings compare by their characters, a prefix before its extensions. */
  predicate Before(a: string, b: string) {
    if b == "" then false
    else if a == "" then true
    else if a[0] != b[0] then a[0] < b[0]
    else Before(a[1..], b[1..])
  }

  /** At the first difference the smaller character decides, or the shorter string. */
  lemma {:induction false} BeforeIff(a: string, b: string)
    ensures Before(a, b) <==>
            exists k | 0 <= k <= |a| && k < |b| :: a[..k] == b[..k] && (k == |a| || a[k] < b[k])
  {
    if a != "" && b != "" && a[0] == b[0] {
      BeforeIff(a[1..], b[1..]);
      assert a == [a[0]] + a[1..] && b == [b[0]] + b[1..];
      if k :| 0 <= k <= |a[1..]| && k < |b[1..]| && a[1..][..k] == b[1..][..k] && (k == |a[1..]| || a[1..][k] < b[1..][k]) {
        assert a[..k + 1] == [a[0]] + a[1..][..k] && b[..k + 1] == [b[0]] + b[1..][..k];
        assert 0 <= k + 1 <= |a| && k + 1 < |b|;
      }
      if k :| 0 <= k <= |a| && k < |b| && a[..k] == b[..k] && (k == |a| || a[k] < b[k]) {
        assert k > 0;
        assert a[1..][..k - 1] == a[..k][1..] && b[1..][..k - 1] == b[..k][1..];
        assert 0 <= k - 1 <= |a[1..]| && k - 1 < |b[1..]|;
      }
    } else if b != "" {
      assert a[..0] == b[..0];
    }
  }

  lemma {:induction false} BeforeIsTotal(a: string, b: string)
    ensures !Before(a, a) && !(Before(a, b) && Before(b, a))
    ensures Before(a, b) || a == b || Before(b, a)
  {
    if a != "" {
      BeforeIsTotal(a[1..], if b != "" then b[1..] else "");
      assert a == [a[0]] + a[1..];
      assert b != "" ==> b == [b[0]] + b[1..];
    }
  }

  lemma {:induction false} BeforeIsTransitive(a: string, b: string, c: string)
    requires Before(a, b) && Before(b, c)
    ensures Before(a, c)
  {
    if a != "" && a[0] == b[0] == c[0] {
      BeforeIsTransitive(a[1..], b[1..], c[1..]);
    }
  }

  ghost predicate Ascending(list: seq<Spec>) {
    forall i, j | 0 <= i < j < |list| :: Before(list[i].entrypoint, list[j].entrypoint)
  }

  /** The sorted list with one more spec in its place. */
  function Inserted(list: seq<Spec>, spec: Spec): seq<Spec> {
    if list == [] then [spec]
    else if Before(spec.entrypoint, list[0].entrypoint) then [spec] + list
    else [list[0]] + Inserted(list[1..], spec)
  }

  lemma {:induction false} InsertedHolds(list: seq<Spec>, spec: Spec, other: Spec)
    ensures other in Inserted(list, spec) <==> other in list || other == spec
  {
    if list != [] {
      assert list == [list[0]] + list[1..];
      InsertedHolds(list[1..], spec, other);
    }
  }

  lemma {:induction false} InsertedAscends(list: seq<Spec>, spec: Spec)
    requires Ascending(list) && forall i | 0 <= i < |list| :: list[i].entrypoint != spec.entrypoint
    ensures Ascending(Inserted(list, spec))
  {
    hide Before;
    if list != [] {
      var first := list[0].entrypoint;
      BeforeIsTotal(spec.entrypoint, first);
      if Before(spec.entrypoint, first) {
        forall i | 0 <= i < |list| ensures Before(spec.entrypoint, list[i].entrypoint) {
          if i > 0 {
            BeforeIsTransitive(spec.entrypoint, first, list[i].entrypoint);
          }
        }
      } else {
        InsertedAscends(list[1..], spec);
        var rest := Inserted(list[1..], spec);
        forall i | 0 <= i < |rest| ensures Before(first, rest[i].entrypoint) {
          InsertedHolds(list[1..], spec, rest[i]);
        }
      }
    }
  }

  /** A set of specs has one ascending listing, so the result depends on nothing else. */
  lemma {:induction false} ListingIsUnique(a: seq<Spec>, b: seq<Spec>)
    requires Ascending(a) && Ascending(b) && forall spec :: spec in a <==> spec in b
    ensures a == b
  {
    hide Before;
    assert forall k | 0 <= k < |a| :: a[k] in b;
    assert forall k | 0 <= k < |b| :: b[k] in a;
    if a != [] && b != [] {
      FirstIsLeast(a, b);
      FirstIsOnce(a);
      FirstIsOnce(b);
      forall spec ensures spec in a[1..] <==> spec in b[1..] {
        assert spec in a <==> spec == a[0] || spec in a[1..];
        assert spec in b <==> spec == b[0] || spec in b[1..];
      }
      ListingIsUnique(a[1..], b[1..]);
    }
  }

  lemma FirstIsOnce(a: seq<Spec>)
    requires a != [] && Ascending(a)
    ensures a == [a[0]] + a[1..] && a[0] !in a[1..]
  {
    hide Before;
    BeforeIsTotal(a[0].entrypoint, a[0].entrypoint);
  }

  lemma FirstIsLeast(a: seq<Spec>, b: seq<Spec>)
    requires a != [] && b != [] && Ascending(a) && Ascending(b) && forall spec :: spec in a <==> spec in b
    ensures a[0] == b[0]
  {
    hide Before;
    assert a[0] in b && b[0] in a;
    var i :| 0 <= i < |b| && b[i] == a[0];
    var j :| 0 <= j < |a| && a[j] == b[0];
    BeforeIsTotal(a[0].entrypoint, b[0].entrypoint);
  }

  /** One spec per entrypoint. */
  lemma EntrypointsDiffer(paths: set<string>, a: Spec, b: Spec)
    requires a in Specs(paths) && b in Specs(paths) && a.entrypoint == b.entrypoint
    ensures a == b
  {
    EntrypointIsFile(paths, a);
    EntrypointIsFile(paths, b);
    SpecsPartition(paths, a, b, a.entrypoint);
  }

  lemma EntrypointIsFile(paths: set<string>, spec: Spec)
    requires spec in Specs(paths)
    ensures spec.entrypoint in spec.files
  {
    hide Complete, Shard;
    if f :| f in Families(paths) && Complete(paths, f) && spec == FamilySpec(f) {
      FamiliesAreSplit(paths);
      assert spec.files[0] == spec.entrypoint;
    }
  }

  /** `_revision_specs`: the standalone files and the complete families of the listed
      paths, each once, by entrypoint; every rejected path and every incomplete family
      counts once. */
  method RevisionSpecs(paths: seq<string>) returns (specs: seq<Spec>, invalid: nat)
    requires Distinct(paths)
    ensures var seen := set p | p in paths;
            && Ascending(specs) && (forall spec :: spec in specs <==> spec in Specs(seen))
            && invalid == |RejectedPaths(seen)| + |IncompleteAmong(Families(seen), seen)|
  {
    hide Specs, Before, RejectedPaths, IncompleteAmong, Families, Inserted, Ascending, Distinct;
    var found;
    found, invalid := CollectSpecs(paths);
    ghost var seen := set p | p in paths;
    specs := [];
    NothingListed();
    var rest := found;
    while rest != {}
      invariant rest <= found && Ascending(specs)
      invariant forall spec :: spec in specs <==> spec in found - rest
      decreases rest
    {
      var spec :| spec in rest;
      forall i | 0 <= i < |specs| ensures specs[i].entrypoint != spec.entrypoint {
        assert specs[i] in specs;
        if specs[i].entrypoint == spec.entrypoint {
          EntrypointsDiffer(seen, specs[i], spec);
        }
      }
      InsertedAscends(specs, spec);
      forall other ensures other in Inserted(specs, spec) <==> other in found - (rest - {spec}) {
        InsertedHolds(specs, spec, other);
      }
      specs := Inserted(specs, spec);
      rest := rest - {spec};
    }
  }

  lemma NothingListed()
    ensures Ascending([])
  {
  }
}
