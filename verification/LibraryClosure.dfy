/** Bundling the shared libraries of a runtime: a worklist over `ldd` output that
    must end with a self-contained set. */
module LibraryClosure {
  import opened Wrappers

  /** One `name => /path` line. The file stands for its content, which is what
      decides its own dependencies wherever it is copied to. */
  datatype Dependency<File> = Dependency(name: string, file: File)

  /** What running `ldd` on a file shows. */
  datatype Inspection<File> = Inspection(
    unresolved: bool,              // the output says "not found"
    failed: bool,                  // nonzero exit status
    notDynamic: bool,              // "not a dynamic executable" or "statically linked"
    dependencies: seq<Dependency<File>>)

  const PLATFORM := [
    "libc.so", "libm.so", "libpthread.so", "libdl.so", "librt.so", "libresolv.so",
    "ld-linux", "libcuda.so", "libnvidia-"]

  /** Libraries that stay with the node: libc, the loader and the drivers. */
  predicate IsPlatform(name: string) {
    exists i | 0 <= i < |PLATFORM| :: PLATFORM[i] <= name
  }

  /** The names that the pattern for platform libraries matches at the start. */
  lemma PlatformIff(name: string)
    ensures IsPlatform(name) <==>
            || "libc.so" <= name || "libm.so" <= name || "libpthread.so" <= name || "libdl.so" <= name
            || "librt.so" <= name || "libresolv.so" <= name || "ld-linux" <= name || "libcuda.so" <= name || "libnvidia-" <= name
  {
    assert PLATFORM[0] == "libc.so" && PLATFORM[1] == "libm.so" && PLATFORM[2] == "libpthread.so";
    assert PLATFORM[3] == "libdl.so" && PLATFORM[4] == "librt.so" && PLATFORM[5] == "libresolv.so";
    assert PLATFORM[6] == "ld-linux" && PLATFORM[7] == "libcuda.so" && PLATFORM[8] == "libnvidia-";
  }

  predicate IsSoname(name: string) {
    name != "" && name != "." && '/' !in name
  }

  datatype Failure<File> = Unresolved(file: File) | NotInspectable(file: File) | InvalidSoname(file: File, name: string)

  /** A dependency of `from` that has to be bundled. */
  ghost predicate Needs<File>(ldd: File -> Inspection<File>, from: File, d: Dependency<File>) {
    d in ldd(from).dependencies && !IsPlatform(d.name)
  }

  ghost predicate Leads<File(!new)>(ldd: File -> Inspection<File>, a: File, b: File) {
    exists name :: Needs(ldd, a, Dependency(name, b))
  }

  /** A chain of dependencies that have to be bundled, from a starting binary. */
  ghost predicate Chain<File(!new)>(ldd: File -> Inspection<File>, binaries: seq<File>, chain: seq<File>) {
    && chain != [] && chain[0] in binaries
    && forall i | 0 < i < |chain| :: Leads(ldd, chain[i - 1], chain[i])
  }

  ghost predicate Reachable<File(!new)>(ldd: File -> Inspection<File>, binaries: seq<File>, file: File) {
    exists chain :: Chain(ldd, binaries, chain) && chain[|chain| - 1] == file
  }

  lemma ReachesNext<File(!new)>(ldd: File -> Inspection<File>, binaries: seq<File>, from: File, d: Dependency<File>)
    requires Reachable(ldd, binaries, from) && Needs(ldd, from, d)
    ensures Reachable(ldd, binaries, d.file)
  {
    hide Needs;
    var chain :| Chain(ldd, binaries, chain) && chain[|chain| - 1] == from;
    assert Needs(ldd, from, Dependency(d.name, d.file));
    assert Leads(ldd, from, d.file);
    assert Chain(ldd, binaries, chain + [d.file]);
  }

  lemma ReachesStart<File(!new)>(ldd: File -> Inspection<File>, binaries: seq<File>, file: File)
    requires file in binaries
    ensures Reachable(ldd, binaries, file)
  {
    assert Chain(ldd, binaries, [file]);
  }

  /** The file is a starting binary or a bundled one. */
  ghost predicate Present<File>(file: File, binaries: seq<File>, bundle: map<string, File>) {
    file in binaries || exists m :: m in bundle && bundle[m] == file
  }

  /** The name holds the very file that `ldd` shows for it, for a starting binary or for
      another bundled file. */
  ghost predicate Wanted<File(!new)>(ldd: File -> Inspection<File>, binaries: seq<File>, bundle: map<string, File>, n: string)
    requires n in bundle
  {
    exists g :: Present(g, binaries, bundle) && Needs(ldd, g, Dependency(n, bundle[n]))
  }

  /** Every dependency of `file` that has to be bundled is bundled. */
  ghost predicate Satisfied<File>(ldd: File -> Inspection<File>, file: File, names: set<string>) {
    forall i | 0 <= i < |ldd(file).dependencies| ::
      IsPlatform(ldd(file).dependencies[i].name) || ldd(file).dependencies[i].name in names
  }

  lemma SatisfiedGrows<File(!new)>(ldd: File -> Inspection<File>, a: set<string>, b: set<string>)
    requires a <= b
    ensures forall file :: Satisfied(ldd, file, a) ==> Satisfied(ldd, file, b)
  {
  }

  /** The loader finds everything the file names, as far as `ldd` can tell. */
  predicate Loads<File>(ldd: File -> Inspection<File>, file: File) {
    !ldd(file).unresolved && (ldd(file).failed ==> ldd(file).notDynamic)
  }

  /** The names `file` depends on, in a finite graph. */
  ghost predicate Within<File(!new)>(ldd: File -> Inspection<File>, universe: set<string>) {
    forall file, i | 0 <= i < |ldd(file).dependencies| :: ldd(file).dependencies[i].name in universe
  }

  /** The inner loop over one file's dependencies. */
  method BundleDependencies<File(!new)>(
    ldd: File -> Inspection<File>, from: File, bundle: map<string, File>, copied: seq<string>,
    ghost binaries: seq<File>, ghost universe: set<string>)
    returns (ok: bool, bad: string, grown: map<string, File>, names: seq<string>, added: seq<File>)
    requires Within(ldd, universe) && bundle.Keys <= universe && Reachable(ldd, binaries, from)
    requires forall n | n in bundle :: Reachable(ldd, binaries, bundle[n]) && !IsPlatform(n)
    requires NamesOf(bundle, copied)
    ensures bundle.Keys <= grown.Keys <= universe && NamesOf(grown, names)
    ensures forall n | n in bundle :: grown[n] == bundle[n]
    ensures forall n | n in grown :: Reachable(ldd, binaries, grown[n]) && !IsPlatform(n)
    ensures ok ==> Satisfied(ldd, from, grown.Keys)
    ensures forall n | n in grown && n !in bundle :: grown[n] in added && Needs(ldd, from, Dependency(n, grown[n])) && IsSoname(n)
    ensures forall f | f in added :: Reachable(ldd, binaries, f) && exists n :: n in grown && grown[n] == f
    ensures added != [] ==> universe - grown.Keys < universe - bundle.Keys
    ensures !ok ==> !IsSoname(bad) && !IsPlatform(bad) && exists f :: Dependency(bad, f) in ldd(from).dependencies
  {
    hide Reachable, IsPlatform, IsSoname;
    var dependencies := ldd(from).dependencies;
    ok, bad, grown, names, added := true, "", bundle, copied, [];
    for i := 0 to |dependencies|
      invariant bundle.Keys <= grown.Keys <= universe && NamesOf(grown, names)
      invariant forall n | n in bundle :: grown[n] == bundle[n]
      invariant forall n | n in grown :: Reachable(ldd, binaries, grown[n]) && !IsPlatform(n)
      invariant forall j | 0 <= j < i :: IsPlatform(dependencies[j].name) || dependencies[j].name in grown
      invariant forall n | n in grown && n !in bundle :: grown[n] in added && Needs(ldd, from, Dependency(n, grown[n])) && IsSoname(n)
      invariant forall f | f in added :: Reachable(ldd, binaries, f) && exists n :: n in grown && grown[n] == f
      invariant added != [] ==> exists n :: n in grown && n !in bundle
    {
      var d := dependencies[i];
      if IsPlatform(d.name) || d.name in grown {
        continue;
      }
      if !IsSoname(d.name) {
        assert Dependency(d.name, d.file) in ldd(from).dependencies;
        ok, bad := false, d.name;
        break;
      }
      assert Dependency(d.name, d.file) == d;
      ReachesNext(ldd, binaries, from, d);
      grown, names, added := grown[d.name := d.file], names + [d.name], added + [d.file];
      assert d.name in grown && d.name !in bundle;
    }
  }

  /** The copies made, each name once. */
  ghost predicate NamesOf<File>(bundle: map<string, File>, copied: seq<string>) {
    && (forall n :: n in copied <==> n in bundle)
    && forall i, j | 0 <= i < j < |copied| :: copied[i] != copied[j]
  }

  /** `bundle_libraries` on any finite dependency graph. It terminates; what it
      bundles is closed, holds each name once, and holds nothing that no starting
      binary leads to; under each name is the file that `ldd` shows for it; every file of
      it and every starting binary was inspected and has nothing unresolved; and it fails
      only over a file that a starting binary leads to. */
  method BundleLibraries<File(!new)>(binaries: seq<File>, ldd: File -> Inspection<File>, ghost universe: set<string>)
    returns (result: Result<map<string, File>, Failure<File>>, copied: seq<string>)
    requires Within(ldd, universe)
    ensures result.Ok? ==>
              && (forall b | b in binaries :: Satisfied(ldd, b, result.value.Keys) && Loads(ldd, b))
              && (forall n | n in result.value ::
                    Satisfied(ldd, result.value[n], result.value.Keys) && Loads(ldd, result.value[n]))
              && (forall n | n in result.value :: !IsPlatform(n) && '/' !in n && Reachable(ldd, binaries, result.value[n]))
              && (forall n | n in result.value :: Wanted(ldd, binaries, result.value, n))
              && NamesOf(result.value, copied)
    ensures result.Err? ==>
              var seen := ldd(result.error.file);
              && Reachable(ldd, binaries, result.error.file)
              && match result.error
                 case Unresolved(_) => seen.unresolved
                 case NotInspectable(_) => seen.failed && !seen.notDynamic
                 case InvalidSoname(_, name) => !IsSoname(name) && exists f :: Dependency(name, f) in seen.dependencies
  {
    hide Reachable, IsPlatform, IsSoname, Satisfied, Within, NamesOf, Wanted, Needs, Present;
    NothingCopied<File>();
    var pending := binaries;
    var bundle: map<string, File> := map[];
    copied := [];
    ghost var done: set<string> := {};
    forall b | b in binaries ensures Reachable(ldd, binaries, b) && Present(b, binaries, bundle) {
      ReachesStart(ldd, binaries, b);
      StartsPresent(b, binaries, bundle);
    }
    while pending != []
      invariant bundle.Keys <= universe && NamesOf(bundle, copied)
      invariant forall n | n in bundle :: Reachable(ldd, binaries, bundle[n]) && !IsPlatform(n)
      invariant forall f | f in pending :: Reachable(ldd, binaries, f) && Present(f, binaries, bundle)
      invariant forall n | n in bundle :: Wanted(ldd, binaries, bundle, n) && IsSoname(n)
      invariant forall b | b in binaries :: b in pending || (Satisfied(ldd, b, bundle.Keys) && Loads(ldd, b))
      invariant forall n | n in bundle ::
        bundle[n] in pending || (Satisfied(ldd, bundle[n], bundle.Keys) && Loads(ldd, bundle[n]))
      decreases universe - bundle.Keys, |pending|
    {
      var n := |pending| - 1;
      var binary := pending[n];
      assert pending == pending[..n] + [binary];
      pending := pending[..n];
      var seen := ldd(binary);
      if seen.unresolved {
        return Err(Unresolved(binary)), copied;
      }
      if seen.failed && !seen.notDynamic {
        return Err(NotInspectable(binary)), copied;
      }
      var ok, bad, grown, names, added := BundleDependencies(ldd, binary, bundle, copied, binaries, universe);
      if !ok {
        return Err(InvalidSoname(binary, bad)), names;
      }
      SatisfiedGrows(ldd, bundle.Keys, grown.Keys);
      WantedGrows(ldd, binaries, binary, bundle, grown, added);
      bundle, copied, pending := grown, names, pending + added;
    }
    SonamesAreNames(bundle);
    result := Ok(bundle);
  }

  lemma SonamesAreNames<File>(bundle: map<string, File>)
    requires forall n | n in bundle :: IsSoname(n)
    ensures forall n | n in bundle :: '/' !in n
  {
  }

  lemma StartsPresent<File>(file: File, binaries: seq<File>, bundle: map<string, File>)
    requires file in binaries
    ensures Present(file, binaries, bundle)
  {
  }

  lemma WantedGrows<File(!new)>(
    ldd: File -> Inspection<File>, binaries: seq<File>, from: File,
    bundle: map<string, File>, grown: map<string, File>, added: seq<File>)
    requires Present(from, binaries, bundle) && bundle.Keys <= grown.Keys && forall n | n in bundle :: grown[n] == bundle[n]
    requires forall n | n in bundle :: Wanted(ldd, binaries, bundle, n)
    requires forall n | n in grown && n !in bundle :: Needs(ldd, from, Dependency(n, grown[n]))
    requires forall f | f in added :: exists n :: n in grown && grown[n] == f
    ensures forall n | n in grown :: Wanted(ldd, binaries, grown, n)
    ensures forall f | Present(f, binaries, bundle) :: Present(f, binaries, grown)
    ensures forall f | f in added :: Present(f, binaries, grown)
  {
    hide Needs;
    forall f | Present(f, binaries, bundle) ensures Present(f, binaries, grown) {
      if f !in binaries {
        var m :| m in bundle && bundle[m] == f;
        assert m in grown && grown[m] == f;
      }
    }
    forall n | n in grown ensures Wanted(ldd, binaries, grown, n) {
      if n in bundle {
        var g :| Present(g, binaries, bundle) && Needs(ldd, g, Dependency(n, bundle[n]));
        assert Present(g, binaries, grown);
      }
    }
  }

  /** A set of names that holds what the binaries need, and what the file of each of its
      names needs, when a name always leads to one file. */
  ghost predicate ClosedNames<File(!new)>(
    ldd: File -> Inspection<File>, binaries: seq<File>, fileOf: string -> File, names: set<string>)
  {
    && (forall b | b in binaries :: Satisfied(ldd, b, names))
    && (forall n | n in names :: Satisfied(ldd, fileOf(n), names))
  }

  lemma {:induction false} ChainStaysInside<File(!new)>(
    ldd: File -> Inspection<File>, binaries: seq<File>, fileOf: string -> File, names: set<string>, chain: seq<File>)
    requires ClosedNames(ldd, binaries, fileOf, names) && Chain(ldd, binaries, chain)
    requires forall g, d | Needs(ldd, g, d) :: d.file == fileOf(d.name)
    ensures Satisfied(ldd, chain[|chain| - 1], names)
  {
    hide IsPlatform;
    var n := |chain| - 1;
    if n > 0 {
      assert Chain(ldd, binaries, chain[..n]);
      ChainStaysInside(ldd, binaries, fileOf, names, chain[..n]);
      assert Leads(ldd, chain[n - 1], chain[n]);
      var name :| Needs(ldd, chain[n - 1], Dependency(name, chain[n]));
      var i :| 0 <= i < |ldd(chain[n - 1]).dependencies| && ldd(chain[n - 1]).dependencies[i] == Dependency(name, chain[n]);
      assert name in names;
    }
  }

  /** So the bundle is the least closed set: any closed set of names holds all of its. */
  lemma BundleIsLeast<File(!new)>(
    ldd: File -> Inspection<File>, binaries: seq<File>, bundle: map<string, File>, fileOf: string -> File, names: set<string>)
    requires forall g, d | Needs(ldd, g, d) :: d.file == fileOf(d.name)
    requires forall n | n in bundle :: Wanted(ldd, binaries, bundle, n) && Reachable(ldd, binaries, bundle[n])
    requires ClosedNames(ldd, binaries, fileOf, names)
    ensures bundle.Keys <= names
  {
    hide IsPlatform, Satisfied;
    forall n | n in bundle ensures n in names {
      var g :| Present(g, binaries, bundle) && Needs(ldd, g, Dependency(n, bundle[n]));
      if g in binaries {
        ReachesStart(ldd, binaries, g);
      }
      var chain :| Chain(ldd, binaries, chain) && chain[|chain| - 1] == g;
      ChainStaysInside(ldd, binaries, fileOf, names, chain);
      NeededIsInside(ldd, g, Dependency(n, bundle[n]), names);
    }
  }

  lemma NeededIsInside<File>(ldd: File -> Inspection<File>, g: File, d: Dependency<File>, names: set<string>)
    requires Needs(ldd, g, d) && Satisfied(ldd, g, names)
    ensures d.name in names
  {
    var i :| 0 <= i < |ldd(g).dependencies| && ldd(g).dependencies[i] == d;
  }

  /** And it is closed itself. */
  lemma BundleIsClosed<File(!new)>(
    ldd: File -> Inspection<File>, binaries: seq<File>, bundle: map<string, File>, fileOf: string -> File)
    requires forall g, d | Needs(ldd, g, d) :: d.file == fileOf(d.name)
    requires forall n | n in bundle :: Wanted(ldd, binaries, bundle, n) && Satisfied(ldd, bundle[n], bundle.Keys)
    requires forall b | b in binaries :: Satisfied(ldd, b, bundle.Keys)
    ensures ClosedNames(ldd, binaries, fileOf, bundle.Keys)
  {
    hide Needs, Satisfied, Present;
    forall n | n in bundle.Keys ensures Satisfied(ldd, fileOf(n), bundle.Keys) {
      var g :| Present(g, binaries, bundle) && Needs(ldd, g, Dependency(n, bundle[n]));
      assert Dependency(n, bundle[n]).file == fileOf(Dependency(n, bundle[n]).name);
    }
  }

  lemma NothingCopied<File>()
    ensures NamesOf<File>(map[], [])
  {
  }
}
