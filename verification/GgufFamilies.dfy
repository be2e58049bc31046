/** Which sets of GGUF files form one artifact, and the canonical form of each. */
module GgufFamilies {
  import opened Wrappers
  import opened GgufPaths

  datatype Spec = Spec(files: seq<string>, entrypoint: string)

  datatype FamilyError =
    | InvalidPath | DuplicatePath | EntrypointMissing | ShardsMissing
    | NotShards | SingleShard | MixedFamilies | WrongIndexes | WrongEntrypoint

  predicate Distinct(files: seq<string>) {
    forall i, j | 0 <= i < j < |files| :: files[i] != files[j]
  }

  /** A shard of the family, whatever its index. */
  predicate InFamily(path: string, f: Family) {
    SplitPart(path).Some? && SplitPart(path).value.family == f
  }

  predicate IsShardOf(path: string, f: Family) {
    ValidPath(path) && InFamily(path, f)
  }

  function IndexOf(path: string): nat {
    if SplitPart(path).Some? then SplitPart(path).value.index else 0
  }

  /** The shards by their index, later paths winning. */
  function ByIndex(files: seq<string>): map<nat, string> {
    if files == [] then map[]
    else
      var n := |files| - 1;
      var part := SplitPart(files[n]);
      if part.None? then ByIndex(files[..n]) else ByIndex(files[..n])[part.value.index := files[n]]
  }

  /** `set(range(1, n + 1))`. */
  function Range(n: nat): (r: set<nat>)
    ensures forall k: nat :: k in r <==> 1 <= k <= n
    ensures |r| == n
  {
    if n == 0 then {} else Range(n - 1) + {n}
  }

  function Ordered(byIndex: map<nat, string>, total: nat): (ordered: seq<string>)
    requires byIndex.Keys == Range(total)
    ensures |ordered| == total
  {
    seq(total, i requires 0 <= i < total => byIndex[i + 1])
  }

  /** The family checks, for a list that starts with a shard of `f`. */
  function NormalizeShards(files: seq<string>, entrypoint: string, f: Family): Result<Spec, FamilyError> {
    if f.total <= 1 then Err(SingleShard)
    else if exists i | 0 <= i < |files| :: !InFamily(files[i], f) then Err(MixedFamilies)
    else if |files| != f.total then Err(ShardsMissing)
    else if ByIndex(files).Keys != Range(f.total) then Err(WrongIndexes)
    else
      var ordered := Ordered(ByIndex(files), f.total);
      if entrypoint != ordered[0] then Err(WrongEntrypoint) else Ok(Spec(ordered, ordered[0]))
  }

  /** `_normalize_gguf_family`. */
  function Normalize(files: seq<string>, entrypoint: string): Result<Spec, FamilyError> {
    if !(forall i | 0 <= i < |files| :: ValidPath(files[i])) || !ValidPath(entrypoint) then Err(InvalidPath)
    else if !Distinct(files) then Err(DuplicatePath)
    else if files == [] || entrypoint !in files then Err(EntrypointMissing)
    else
      var first := SplitPart(files[0]);
      if |files| == 1 then
        if first.Some? && first.value.family.total > 1 then Err(ShardsMissing) else Ok(Spec(files, entrypoint))
      else if first.None? || exists i | 0 <= i < |files| :: SplitPart(files[i]).None? then Err(NotShards)
      else NormalizeShards(files, entrypoint, first.value.family)
  }

  // ---------------------------------------------------- an independent account

  /** The canonical file list of a family. */
  function FamilyFiles(f: Family): seq<string> {
    seq(f.total, i requires 0 <= i < f.total => Shard(f, i + 1))
  }

  ghost predicate IsStandalone(files: seq<string>, entrypoint: string) {
    && files == [entrypoint] && ValidPath(entrypoint)
    && (SplitPart(entrypoint).Some? ==> SplitPart(entrypoint).value.family.total <= 1)
  }

  /** The files are the shards 1 to N of one family, each once, in any order. */
  ghost predicate IsFamily(files: seq<string>, f: Family) {
    && 1 < f.total && |files| == f.total && Distinct(files)
    && (forall i | 0 <= i < |files| :: IsShardOf(files[i], f))
    && (forall k | 1 <= k <= f.total :: Shard(f, k) in files && SplitPart(Shard(f, k)) == Some(Part(f, k)))
  }

  lemma {:induction false} ByIndexSound(files: seq<string>, f: Family)
    requires forall i | 0 <= i < |files| :: IsShardOf(files[i], f)
    ensures forall k | k in ByIndex(files) ::
              ByIndex(files)[k] == Shard(f, k) && Shard(f, k) in files && SplitPart(Shard(f, k)) == Some(Part(f, k))
    ensures forall i | 0 <= i < |files| :: IndexOf(files[i]) in ByIndex(files)
    ensures |ByIndex(files)| <= |files|
  {
    hide SplitPart, ValidPath, Shard;
    if files != [] {
      var n := |files| - 1;
      ByIndexSound(files[..n], f);
      ShardOfPart(files[n]);
      assert files == files[..n] + [files[n]];
    }
  }

  /** With as many distinct shards as the family has, no index falls outside. */
  lemma CoversExactly(files: seq<string>, f: Family)
    requires IsFamily(files, f)
    ensures ByIndex(files).Keys == Range(f.total)
    ensures forall k | 1 <= k <= f.total :: ByIndex(files)[k] == Shard(f, k)
  {
    hide SplitPart, ValidPath, Shard, ByIndex;
    ByIndexSound(files, f);
    var byIndex := ByIndex(files);
    forall k | k in Range(f.total) ensures k in byIndex {
      var i :| 0 <= i < |files| && files[i] == Shard(f, k);
    }
    SubsetOfSameSize(Range(f.total), byIndex.Keys);
  }

  lemma SubsetOfSameSize(a: set<nat>, b: set<nat>)
    requires a <= b && |b| <= |a|
    ensures a == b
  {
    assert |b - a| == |b| - |a|;
  }

  /** A complete family normalises to its canonical form, whatever the order. */
  lemma NormalizeFamily(files: seq<string>, entrypoint: string, f: Family)
    requires IsFamily(files, f) && entrypoint == Shard(f, 1)
    ensures Normalize(files, entrypoint) == Ok(Spec(FamilyFiles(f), Shard(f, 1)))
  {
    hide SplitPart, ValidPath, Shard, NormalizeShards, FamilyFiles;
    NormalizeFamilyShards(files, f);
    assert Shard(f, 1) in files;
    assert IsShardOf(files[0], f);
  }

  lemma NormalizeFamilyShards(files: seq<string>, f: Family)
    requires IsFamily(files, f)
    ensures NormalizeShards(files, Shard(f, 1), f) == Ok(Spec(FamilyFiles(f), Shard(f, 1)))
  {
    hide SplitPart, ValidPath, Shard, ByIndex;
    CoversExactly(files, f);
    var byIndex := ByIndex(files);
    assert Ordered(byIndex, f.total) == FamilyFiles(f);
  }

  lemma ShardsAccepted(files: seq<string>, entrypoint: string, f: Family)
    requires Distinct(files) && NormalizeShards(files, entrypoint, f).Ok?
    requires forall i | 0 <= i < |files| :: ValidPath(files[i])
    ensures IsFamily(files, f) && entrypoint == Shard(f, 1)
    ensures NormalizeShards(files, entrypoint, f).value == Spec(FamilyFiles(f), Shard(f, 1))
  {
    hide SplitPart, ValidPath, Shard, ByIndex, NormalizeShards, InFamily, Range, FamilyFiles, Ordered;
    AllInFamily(files, entrypoint, f);
    ByIndexSound(files, f);
    IndexedShards(ByIndex(files), f);
    FirstIsShard(f);
  }

  lemma FirstIsShard(f: Family)
    requires f.total > 1
    ensures FamilyFiles(f) != [] && FamilyFiles(f)[0] == Shard(f, 1)
  {
    hide Shard;
  }

  lemma AllInFamily(files: seq<string>, entrypoint: string, f: Family)
    requires NormalizeShards(files, entrypoint, f).Ok?
    ensures f.total > 1 && |files| == f.total && ByIndex(files).Keys == Range(f.total)
    ensures var ordered := Ordered(ByIndex(files), f.total);
            entrypoint == ordered[0] && NormalizeShards(files, entrypoint, f).value == Spec(ordered, ordered[0])
    ensures forall i | 0 <= i < |files| :: InFamily(files[i], f)
  {
    hide ByIndex, InFamily, Range;
  }

  lemma IndexedShards(byIndex: map<nat, string>, f: Family)
    requires byIndex.Keys == Range(f.total) && forall k | k in byIndex :: byIndex[k] == Shard(f, k)
    ensures forall k: nat :: k in byIndex <==> 1 <= k <= f.total
    ensures Ordered(byIndex, f.total) == FamilyFiles(f)
  {
    hide Shard, Range;
  }

  lemma NormalizeAccepts(files: seq<string>, entrypoint: string)
    requires Normalize(files, entrypoint).Ok?
    ensures var spec := Normalize(files, entrypoint).value;
            || (IsStandalone(files, entrypoint) && spec == Spec(files, entrypoint))
            || (exists f :: IsFamily(files, f) && entrypoint == Shard(f, 1) && spec == Spec(FamilyFiles(f), Shard(f, 1)))
  {
    hide SplitPart, ValidPath, Shard, NormalizeShards, IsFamily, FamilyFiles;
    if |files| == 1 {
      assert files == [entrypoint];
    } else {
      ShardsAccepted(files, entrypoint, SplitPart(files[0]).value.family);
    }
  }

  /** The normaliser accepts exactly the standalone files and the complete
      families, and answers with their canonical form. */
  lemma NormalizeIff(files: seq<string>, entrypoint: string, spec: Spec)
    ensures Normalize(files, entrypoint) == Ok(spec) <==>
            || (IsStandalone(files, entrypoint) && spec == Spec(files, entrypoint))
            || (exists f :: IsFamily(files, f) && entrypoint == Shard(f, 1) && spec == Spec(FamilyFiles(f), Shard(f, 1)))
  {
    hide IsFamily, FamilyFiles, Shard, SplitPart, ValidPath, ByIndex;
    if Normalize(files, entrypoint).Ok? {
      NormalizeAccepts(files, entrypoint);
    }
    if IsStandalone(files, entrypoint) {
      assert files[0] == entrypoint;
    }
    forall f | IsFamily(files, f) && entrypoint == Shard(f, 1)
      ensures Normalize(files, entrypoint) == Ok(Spec(FamilyFiles(f), Shard(f, 1)))
    {
      NormalizeFamily(files, entrypoint, f);
    }
  }

  // ------------------------------------------------------------- consequences

  lemma PermutedFamily(a: seq<string>, b: seq<string>, f: Family)
    requires multiset(a) == multiset(b) && IsFamily(a, f)
    ensures IsFamily(b, f)
  {
    hide SplitPart, ValidPath, Shard;
    assert |b| == |multiset(b)| == |multiset(a)| == |a|;
    forall i | 0 <= i < |b| ensures IsShardOf(b[i], f) {
      assert b[i] in multiset(b);
      assert b[i] in a;
    }
    forall path | path in a ensures path in b {
      assert path in multiset(a);
    }
    PermutedDistinct(a, b);
  }

  lemma PermutedDistinct(a: seq<string>, b: seq<string>)
    requires multiset(a) == multiset(b) && Distinct(a)
    ensures Distinct(b)
  {
    forall i, j | 0 <= i < j < |b| ensures b[i] != b[j] {
      if b[i] == b[j] {
        Twice(b, i, j);
        Once(a, b[i]);
      }
    }
  }

  lemma Twice(b: seq<string>, i: nat, j: nat)
    requires i < j < |b| && b[i] == b[j]
    ensures multiset(b)[b[i]] >= 2
  {
    assert b == b[..j] + [b[j]] + b[j + 1..];
    assert b[..j][i] in multiset(b[..j]);
  }

  lemma {:induction false} Once(a: seq<string>, x: string)
    requires Distinct(a)
    ensures multiset(a)[x] <= 1
  {
    if a != [] {
      var n := |a| - 1;
      Once(a[..n], x);
      assert a == a[..n] + [a[n]];
      if x == a[n] {
        assert x !in a[..n];
      }
    }
  }

  /** The listing order never matters: permuted lists are both refused or both
      normalise to the same spec. */
  lemma NormalizeIgnoresOrder(a: seq<string>, b: seq<string>, entrypoint: string)
    requires multiset(a) == multiset(b) && Normalize(a, entrypoint).Ok?
    ensures Normalize(b, entrypoint) == Normalize(a, entrypoint)
  {
    hide IsFamily, FamilyFiles, Shard, Normalize;
    var spec := Normalize(a, entrypoint).value;
    NormalizeIff(a, entrypoint, spec);
    NormalizeIff(b, entrypoint, spec);
    if IsStandalone(a, entrypoint) && spec == Spec(a, entrypoint) {
      assert |b| == |multiset(b)| == |multiset(a)| == 1;
      assert b[0] in multiset(b);
      assert b == a;
    } else {
      var f :| IsFamily(a, f) && entrypoint == Shard(f, 1) && spec == Spec(FamilyFiles(f), Shard(f, 1));
      PermutedFamily(a, b, f);
    }
  }

  lemma CanonicalIsFamily(files: seq<string>, f: Family)
    requires IsFamily(files, f)
    ensures IsFamily(FamilyFiles(f), f)
  {
    hide SplitPart, ValidPath, Shard;
    var canonical := FamilyFiles(f);
    forall i | 0 <= i < |canonical| ensures IsShardOf(canonical[i], f) && SplitPart(canonical[i]) == Some(Part(f, i + 1)) {
      assert Shard(f, i + 1) in files;
    }
    forall k | 1 <= k <= f.total ensures Shard(f, k) in canonical {
      assert canonical[k - 1] == Shard(f, k);
    }
  }

  /** Normalising a normalised artifact changes nothing. */
  lemma NormalizeIsIdempotent(files: seq<string>, entrypoint: string)
    requires Normalize(files, entrypoint).Ok?
    ensures var spec := Normalize(files, entrypoint).value;
            Normalize(spec.files, spec.entrypoint) == Ok(spec)
  {
    hide IsFamily, FamilyFiles, Shard, Normalize, IsStandalone;
    var spec := Normalize(files, entrypoint).value;
    NormalizeIff(files, entrypoint, spec);
    NormalizeIff(spec.files, spec.entrypoint, spec);
    if !(IsStandalone(files, entrypoint) && spec == Spec(files, entrypoint)) {
      var f :| IsFamily(files, f) && entrypoint == Shard(f, 1) && spec == Spec(FamilyFiles(f), Shard(f, 1));
      CanonicalIsFamily(files, f);
    }
  }

  /** The hashed payload of an artifact; as a constructor it is injective. */
  datatype Identity = Identity(repo: string, revision: string, files: seq<string>, entrypoint: string, aliasName: string)

  function ArtifactIdentity(repo: string, revision: string, spec: Spec, aliasName: string): Identity {
    Identity(repo, revision, spec.files, spec.entrypoint, aliasName)
  }

  /** Artifacts with one identity are the same artifact. */
  lemma IdentityIsExact(a: Spec, b: Spec, repo: string, revision: string, aliasName: string, repo': string, revision': string, aliasName': string)
    requires ArtifactIdentity(repo, revision, a, aliasName) == ArtifactIdentity(repo', revision', b, aliasName')
    ensures a == b && repo == repo' && revision == revision' && aliasName == aliasName'
  {
  }

  /** So an artifact's identity depends on which files it has, not on how they were
      listed. */
  lemma IdentityIgnoresOrder(a: seq<string>, b: seq<string>, entrypoint: string, repo: string, revision: string, aliasName: string)
    requires multiset(a) == multiset(b) && Normalize(a, entrypoint).Ok?
    ensures Normalize(b, entrypoint).Ok?
    ensures ArtifactIdentity(repo, revision, Normalize(a, entrypoint).value, aliasName) ==
            ArtifactIdentity(repo, revision, Normalize(b, entrypoint).value, aliasName)
  {
    NormalizeIgnoresOrder(a, b, entrypoint);
  }
}
