/** The artifacts of one cached revision: which files stand alone, which families
    are complete, and how many candidates are rejected. */
module GgufIndex {
  import opened Wrappers
  import opened GgufPaths
  import opened GgufFamilies

  datatype Kind = Rejected | Alone | ShardOf(part: Part)

  function Classify(path: string): Kind {
    if !ValidPath(path) then Rejected
    else
      match SplitPart(path)
      case None => Alone
      case Some(part) =>
        if part.family.total == 1 && part.index == 1 then Alone
        else if part.family.total <= 1 || !(1 <= part.index <= part.family.total) then Rejected
        else ShardOf(part)
  }

  /** Shard k of the family is among the paths. */
  predicate Present(paths: set<string>, f: Family, k: nat) {
    Shard(f, k) in paths && Classify(Shard(f, k)) == ShardOf(Part(f, k))
  }

  predicate Complete(paths: set<string>, f: Family) {
    forall k: nat | 1 <= k <= f.total :: Present(paths, f, k)
  }

  function RejectedPaths(paths: set<string>): set<string> {
    set p | p in paths && Classify(p).Rejected?
  }

  function AlonePaths(paths: set<string>): set<string> {
    set p | p in paths && Classify(p).Alone?
  }

  function Families(paths: set<string>): set<Family> {
    set p | p in paths && Classify(p).ShardOf? :: Classify(p).part.family
  }

  function CompleteAmong(families: set<Family>, paths: set<string>): set<Family> {
    set f | f in families && Complete(paths, f)
  }

  function IncompleteAmong(families: set<Family>, paths: set<string>): set<Family> {
    set f | f in families && !Complete(paths, f)
  }

  function AloneSpec(path: string): Spec {
    Spec([path], path)
  }

  function FamilySpec(f: Family): Spec {
    Spec(FamilyFiles(f), Shard(f, 1))
  }

  function AloneSpecs(paths: set<string>): set<Spec> {
    set p | p in paths :: AloneSpec(p)
  }

  function FamilySpecs(families: set<Family>): set<Spec> {
    set f | f in families :: FamilySpec(f)
  }

  /** The artifacts a set of paths contains. */
  function Specs(paths: set<string>): set<Spec> {
    AloneSpecs(AlonePaths(paths)) + FamilySpecs(CompleteAmong(Families(paths), paths))
  }

  lemma ShardIsPath(path: string)
    requires Classify(path).ShardOf?
    ensures var part := Classify(path).part;
            Shard(part.family, part.index) == path && SplitPart(path) == Some(part) && ValidPath(path)
  {
    hide Shard;
    ShardOfPart(path);
  }

  /** What a group dictionary holds for one shard. */
  function Slot(groups: map<Family, map<nat, string>>, f: Family, k: nat): Option<string> {
    if f in groups && k in groups[f] then Some(groups[f][k]) else None
  }

  function Expected(seen: set<string>, f: Family, k: nat): Option<string> {
    if Present(seen, f, k) then Some(Shard(f, k)) else None
  }

  /** The groups hold exactly the shards seen so far, by family and index. */
  ghost predicate GroupsMatch(groups: map<Family, map<nat, string>>, seen: set<string>) {
    groups.Keys == Families(seen) && forall f, k: nat :: Slot(groups, f, k) == Expected(seen, f, k)
  }

  lemma OtherPath(groups: map<Family, map<nat, string>>, seen: set<string>, path: string)
    requires GroupsMatch(groups, seen) && !Classify(path).ShardOf?
    ensures GroupsMatch(groups, seen + {path})
  {
    hide Classify, Shard;
    assert Families(seen + {path}) == Families(seen);
    forall f, k: nat ensures Expected(seen + {path}, f, k) == Expected(seen, f, k) {
    }
  }

  lemma ShardExpected(seen: set<string>, path: string, f: Family, k: nat)
    requires Classify(path).ShardOf? && path !in seen
    ensures var part := Classify(path).part;
            Expected(seen + {path}, f, k) == (if Part(f, k) == part then Some(path) else Expected(seen, f, k))
            && (Part(f, k) == part ==> Expected(seen, f, k).None?)
  {
    ShardIsPath(path);
    hide Classify, Shard;
  }

  /** A new shard is never a duplicate: its index is free in its group. */
  lemma ShardPath(groups: map<Family, map<nat, string>>, seen: set<string>, path: string)
    requires GroupsMatch(groups, seen) && Classify(path).ShardOf? && path !in seen
    ensures var Part(f, k) := Classify(path).part;
            var group := if f in groups then groups[f] else map[];
            k !in group && GroupsMatch(groups[f := group[k := path]], seen + {path})
  {
    hide Classify, Expected;
    var Part(f, k) := Classify(path).part;
    var group := if f in groups then groups[f] else map[];
    var after := groups[f := group[k := path]];
    assert Families(seen + {path}) == Families(seen) + {f};
    ShardExpected(seen, path, f, k);
    assert Slot(groups, f, k).None?;
    forall g, j: nat ensures Slot(after, g, j) == Expected(seen + {path}, g, j) {
      ShardExpected(seen, path, g, j);
      assert Slot(groups, g, j) == Expected(seen, g, j);
    }
  }

  lemma PresentInRange(seen: set<string>, f: Family, k: nat)
    requires Present(seen, f, k)
    ensures 1 <= k <= f.total && 1 < f.total && Shard(f, k) in seen
    ensures ValidPath(Shard(f, k)) && SplitPart(Shard(f, k)) == Some(Part(f, k))
  {
    hide Shard;
  }

  lemma GroupHolds(groups: map<Family, map<nat, string>>, seen: set<string>, f: Family, k: nat)
    requires GroupsMatch(groups, seen) && f in groups
    ensures k in groups[f] <==> Present(seen, f, k)
    ensures k in groups[f] ==> groups[f][k] == Shard(f, k) && 1 <= k <= f.total
  {
    hide Shard, Present, Families;
    assert Slot(groups, f, k) == Expected(seen, f, k);
    if Present(seen, f, k) {
      PresentInRange(seen, f, k);
    }
  }

  /** The group is full exactly when the family is complete. */
  lemma FullIffComplete(groups: map<Family, map<nat, string>>, seen: set<string>, f: Family)
    requires GroupsMatch(groups, seen) && f in groups
    ensures groups[f].Keys == Range(f.total) <==> Complete(seen, f)
    ensures Complete(seen, f) ==> Ordered(groups[f], f.total) == FamilyFiles(f)
  {
    hide Shard, Present, GroupsMatch, Range;
    forall k: nat
      ensures k in groups[f] <==> Present(seen, f, k)
      ensures k in groups[f] ==> groups[f][k] == Shard(f, k) && 1 <= k <= f.total
    {
      GroupHolds(groups, seen, f, k);
    }
    if Complete(seen, f) {
      assert groups[f].Keys == Range(f.total);
    }
  }

  // --------------------------------------------------------------------- code

  /** The first loop of `_revision_specs`, over the paths of a revision in any
      order. The duplicate branch of the source cannot be taken. */
  method GroupPaths(paths: seq<string>)
    returns (standalone: set<string>, groups: map<Family, map<nat, string>>, invalid: nat)
    requires Distinct(paths)
    ensures var seen := set p | p in paths;
            standalone == AlonePaths(seen) && GroupsMatch(groups, seen) && invalid == |RejectedPaths(seen)|
  {
    hide Classify, GroupsMatch, AlonePaths, RejectedPaths, Distinct, Listed;
    standalone, groups, invalid := {}, map[], 0;
    ghost var seen: set<string> := {};
    NothingSeen();
    ListedStep(paths, 0);
    for i := 0 to |paths|
      invariant seen == Listed(paths, i)
      invariant standalone == AlonePaths(seen) && GroupsMatch(groups, seen) && invalid == |RejectedPaths(seen)|
    {
      var path := paths[i];
      ListedStep(paths, i);
      KindStep(seen, path);
      match Classify(path) {
        case Rejected =>
          OtherPath(groups, seen, path);
          invalid := invalid + 1;
        case Alone =>
          OtherPath(groups, seen, path);
          standalone := standalone + {path};
        case ShardOf(part) =>
          ShardPath(groups, seen, path);
          var group := if part.family in groups then groups[part.family] else map[];
          if part.index in group {
            assert false;
          }
          groups := groups[part.family := group[part.index := path]];
      }
      seen := seen + {path};
    }
  }

  /** The first k paths. */
  ghost function Listed(paths: seq<string>, k: nat): set<string>
    requires k <= |paths|
  {
    set p | p in paths[..k]
  }

  lemma ListedStep(paths: seq<string>, k: nat)
    requires Distinct(paths) && k <= |paths|
    ensures k < |paths| ==> paths[k] !in Listed(paths, k) && Listed(paths, k + 1) == Listed(paths, k) + {paths[k]}
    ensures Listed(paths, 0) == {} && Listed(paths, |paths|) == set p | p in paths
  {
    assert paths[..|paths|] == paths;
    if k < |paths| {
      assert paths[..k + 1] == paths[..k] + [paths[k]];
    }
  }

  lemma NothingSeen()
    ensures AlonePaths({}) == {} && GroupsMatch(map[], {}) && RejectedPaths({}) == {}
  {
    hide Classify, Shard;
  }

  lemma KindStep(seen: set<string>, path: string)
    requires path !in seen
    ensures AlonePaths(seen + {path}) == AlonePaths(seen) + (if Classify(path).Alone? then {path} else {})
    ensures RejectedPaths(seen + {path}) == RejectedPaths(seen) + (if Classify(path).Rejected? then {path} else {})
    ensures path !in RejectedPaths(seen)
  {
    hide Classify;
  }

  /** `_revision_specs` before it sorts: the specs are exactly the standalone files and
      the complete families of the listed paths; every rejected path and every
      incomplete family counts once. */
  method CollectSpecs(paths: seq<string>) returns (specs: set<Spec>, invalid: nat)
    requires Distinct(paths)
    ensures var seen := set p | p in paths;
            specs == Specs(seen) && invalid == |RejectedPaths(seen)| + |IncompleteAmong(Families(seen), seen)|
  {
    hide Classify, GroupsMatch, Complete, FamilySpec, AloneSpecs, FamilySpecs, CompleteAmong, IncompleteAmong, Range, AlonePaths, RejectedPaths, Families, Ordered;
    ghost var seen := set p | p in paths;
    var standalone, groups, rejected := GroupPaths(paths);
    GroupKeys(groups, seen);
    specs := set p | p in standalone :: AloneSpec(p);
    NoneDone(standalone, seen);
    invalid := rejected;
    var rest := groups.Keys;
    ghost var done: set<Family> := {};
    while rest != {}
      invariant rest <= groups.Keys && done == groups.Keys - rest
      invariant specs == AloneSpecs(standalone) + FamilySpecs(CompleteAmong(done, seen))
      invariant invalid == rejected + |IncompleteAmong(done, seen)|
      decreases rest
    {
      var f :| f in rest;
      rest := rest - {f};
      FullIffComplete(groups, seen, f);
      OneMoreDone(done, seen, f);
      if groups[f].Keys != Range(f.total) {
        invalid := invalid + 1;
      } else {
        var files := Ordered(groups[f], f.total);
        CompleteSpec(seen, f, files);
        specs := specs + {Spec(files, files[0])};
      }
      done := done + {f};
    }
    assert done == Families(seen);
  }

  lemma NoneDone(standalone: set<string>, seen: set<string>)
    ensures FamilySpecs(CompleteAmong({}, seen)) == {} && IncompleteAmong({}, seen) == {}
    ensures AloneSpecs(standalone) == set p | p in standalone :: AloneSpec(p)
  {
  }

  lemma OneMoreDone(done: set<Family>, seen: set<string>, f: Family)
    requires f !in done
    ensures Complete(seen, f) ==>
              && FamilySpecs(CompleteAmong(done + {f}, seen)) == FamilySpecs(CompleteAmong(done, seen)) + {FamilySpec(f)}
              && IncompleteAmong(done + {f}, seen) == IncompleteAmong(done, seen)
    ensures !Complete(seen, f) ==>
              && CompleteAmong(done + {f}, seen) == CompleteAmong(done, seen)
              && IncompleteAmong(done + {f}, seen) == IncompleteAmong(done, seen) + {f}
    ensures f !in IncompleteAmong(done, seen)
  {
    hide Complete, FamilySpec;
    assert CompleteAmong(done + {f}, seen) == CompleteAmong(done, seen) + if Complete(seen, f) then {f} else {};
  }

  lemma GroupKeys(groups: map<Family, map<nat, string>>, seen: set<string>)
    requires GroupsMatch(groups, seen)
    ensures groups.Keys == Families(seen)
    ensures forall f | f in groups :: f.total > 1
  {
    FamiliesAreSplit(seen);
  }

  lemma FamiliesAreSplit(seen: set<string>)
    ensures forall f | f in Families(seen) :: f.total > 1
  {
    hide Shard;
  }

  lemma CompleteSpec(seen: set<string>, f: Family, files: seq<string>)
    requires Complete(seen, f) && files == FamilyFiles(f) && f.total > 1
    ensures |files| > 0 && Spec(files, files[0]) == FamilySpec(f)
  {
    hide Shard;
  }

  // ----------------------------------------------------------------- theorems

  lemma CompleteIsFamily(paths: set<string>, f: Family)
    requires Complete(paths, f) && f.total > 1
    ensures IsFamily(FamilyFiles(f), f)
  {
    hide Shard, Present, ValidPath, SplitPart;
    var files := FamilyFiles(f);
    forall k: nat | 1 <= k <= f.total
      ensures IsShardOf(Shard(f, k), f) && SplitPart(Shard(f, k)) == Some(Part(f, k)) && files[k - 1] == Shard(f, k)
    {
      assert Present(paths, f, k);
      PresentInRange(paths, f, k);
    }
    forall i, j | 0 <= i < j < |files| ensures files[i] != files[j] {
      assert files[i] == Shard(f, i + 1) && files[j] == Shard(f, j + 1);
      assert SplitPart(Shard(f, i + 1)) != SplitPart(Shard(f, j + 1));
    }
  }

  /** Every spec passes the normaliser and is already in canonical form. */
  lemma SpecsAreNormal(paths: set<string>, spec: Spec)
    requires spec in Specs(paths)
    ensures Normalize(spec.files, spec.entrypoint) == Ok(spec)
  {
    hide Complete, Normalize, FamilyFiles, Shard, SplitPart, ValidPath;
    if f :| f in Families(paths) && Complete(paths, f) && spec == FamilySpec(f) {
      FamiliesAreSplit(paths);
      CompleteIsFamily(paths, f);
      NormalizeFamily(FamilyFiles(f), Shard(f, 1), f);
    } else {
      var p :| p in AlonePaths(paths) && spec == AloneSpec(p);
      NormalizeIff([p], p, spec);
    }
  }

  /** The files of a spec are listed paths, and each path lands in at most one. */
  lemma SpecsPartition(paths: set<string>, a: Spec, b: Spec, path: string)
    requires a in Specs(paths) && b in Specs(paths) && path in a.files && path in b.files
    ensures path in paths && a == b
  {
    SpecOfPath(paths, a, path);
    SpecOfPath(paths, b, path);
  }

  /** A path determines the spec it belongs to. */
  lemma SpecOfPath(paths: set<string>, spec: Spec, path: string)
    requires spec in Specs(paths) && path in spec.files
    ensures path in paths && !Classify(path).Rejected?
    ensures spec == if Classify(path).Alone? then AloneSpec(path) else FamilySpec(Classify(path).part.family)
  {
    hide Shard, Classify, Present;
    if f :| f in Families(paths) && Complete(paths, f) && spec == FamilySpec(f) {
      var i :| 0 <= i < |spec.files| && spec.files[i] == path;
      assert Present(paths, f, i + 1);
      PresentKind(paths, f, i + 1);
    }
  }

  lemma PresentKind(paths: set<string>, f: Family, k: nat)
    requires Present(paths, f, k)
    ensures Shard(f, k) in paths && Classify(Shard(f, k)) == ShardOf(Part(f, k))
  {
  }

  /** A valid file without a shard's name, or the only shard of one, is an artifact of its own, and so is a family
      all of whose shards are there. */
  lemma FilesAreSpecs(paths: set<string>, path: string, f: Family)
    ensures path in paths && ValidPath(path)
            && (SplitPart(path).None? || (SplitPart(path).value.family.total == 1 && SplitPart(path).value.index == 1)) ==>
              AloneSpec(path) in Specs(paths)
    ensures 1 < f.total < 100_000 && f.prefix != "" && '/' !in f.prefix && '\n' !in f.prefix
            && (forall k | 1 <= k <= f.total :: Shard(f, k) in paths && ValidPath(Shard(f, k))) ==>
              FamilySpec(f) in Specs(paths)
  {
    hide Shard, ValidPath, SplitPart;
    if 1 < f.total < 100_000 && f.prefix != "" && '/' !in f.prefix && '\n' !in f.prefix
       && (forall k | 1 <= k <= f.total :: Shard(f, k) in paths && ValidPath(Shard(f, k))) {
      forall k: nat | 1 <= k <= f.total ensures Present(paths, f, k) {
        PartOfShard(f, k);
      }
      assert Present(paths, f, 1) && Classify(Shard(f, 1)).part.family == f;
      assert f in Families(paths);
      assert Complete(paths, f);
    }
  }

  /** Every acceptable path is used or belongs to an incomplete family. */
  lemma NothingOverlooked(paths: set<string>, path: string)
    requires path in paths && !Classify(path).Rejected?
    ensures || (exists spec :: spec in Specs(paths) && path in spec.files)
            || (Classify(path).ShardOf? && Classify(path).part.family in IncompleteAmong(Families(paths), paths))
  {
    hide Complete, Shard;
    if Classify(path).Alone? {
      assert path in AlonePaths(paths) && AloneSpec(path) in Specs(paths) && path in AloneSpec(path).files;
    } else {
      ShardIsPath(path);
      var Part(f, k) := Classify(path).part;
      assert f in Families(paths);
      if Complete(paths, f) {
        assert FamilyFiles(f)[k - 1] == path;
        assert FamilySpec(f) in Specs(paths) && path in FamilySpec(f).files;
      }
    }
  }
}
