/** Repository-relative GGUF paths and the fixed-width names of split shards. */
module GgufPaths {
  import opened Wrappers

  /** The parts of a path between its slashes. */
  function Components(path: string): seq<string> {
    if path == "" then [""]
    else
      var rest := Components(path[1..]);
      if path[0] == '/' then [""] + rest
      else if rest == [] then [path]
      else [[path[0]] + rest[0]] + rest[1..]
  }

  /** Where the last component begins. */
  function NameStart(path: string): (start: nat)
    ensures start <= |path| && '/' !in path[start..]
    ensures start > 0 ==> path[start - 1] == '/'
  {
    if path == "" then 0
    else
      var n := |path| - 1;
      if path[n] == '/' then n + 1
      else
        assert path[..n][NameStart(path[..n])..] + [path[n]] == path[NameStart(path[..n])..];
        NameStart(path[..n])
  }

  function Name(path: string): string {
    path[NameStart(path)..]
  }

  /** The parent directory, "." for a bare name. */
  function Parent(path: string): string {
    if NameStart(path) == 0 then "." else path[..NameStart(path) - 1]
  }

  const SUFFIX := ".gguf"

  /** `_validated_relative_gguf_path`: a canonical relative POSIX path whose name
      has the suffix .gguf and something before it. */
  predicate ValidPath(path: string) {
    && path != "" && '\\' !in path
    && (forall c | c in Components(path) :: c != "" && c != "." && c != "..")
    && |Name(path)| > |SUFFIX| && Name(path)[|Name(path)| - |SUFFIX|..] == SUFFIX
  }

  // ------------------------------------------------------------ shard numbers

  predicate IsDigit(c: char) {
    '0' <= c <= '9'
  }

  function Digit(n: nat): (c: char)
    requires n < 10
    ensures IsDigit(c)
  {
    '0' + n as char
  }

  function DigitValue(c: char): (n: nat)
    requires IsDigit(c)
    ensures n < 10 && Digit(n) == c
  {
    (c - '0') as nat
  }

  predicate FiveDigits(s: string) {
    |s| == 5 && forall i | 0 <= i < 5 :: IsDigit(s[i])
  }

  function Number(s: string): (n: nat)
    requires FiveDigits(s)
    ensures n < 100_000
  {
    DigitValue(s[0]) * 10000 + DigitValue(s[1]) * 1000 + DigitValue(s[2]) * 100 + DigitValue(s[3]) * 10 + DigitValue(s[4])
  }

  /** The last five decimal digits of a number. */
  function Numeral(n: nat): (s: string)
    ensures FiveDigits(s)
  {
    [Digit(n / 10000 % 10), Digit(n / 1000 % 10), Digit(n / 100 % 10), Digit(n / 10 % 10), Digit(n % 10)]
  }

  lemma NumeralOfNumber(s: string)
    requires FiveDigits(s)
    ensures Numeral(Number(s)) == s
  {
    var a, b, c, d, e := DigitValue(s[0]), DigitValue(s[1]), DigitValue(s[2]), DigitValue(s[3]), DigitValue(s[4]);
    var n := Number(s);
    LastDigit(n, a * 1000 + b * 100 + c * 10 + d, e);
    LastDigit(n / 10, a * 100 + b * 10 + c, d);
    LastDigit(n / 100, a * 10 + b, c);
    LastDigit(n / 1000, a, b);
    LastDigit(n / 10000, 0, a);
  }

  /** Splitting off the last digit, at any of the powers of ten that Numeral uses. */
  lemma LastDigit(n: nat, front: nat, digit: nat)
    requires n == front * 10 + digit && digit < 10
    ensures n / 10 == front && n % 10 == digit
    ensures n / 100 == front / 10 && n / 1000 == front / 100 && n / 10000 == front / 1000
  {
  }

  // ------------------------------------------------------------------- shards

  /** A split family: everything its shards' names share. */
  datatype Family = Family(parent: string, prefix: string, total: nat)

  datatype Part = Part(family: Family, index: nat)

  /** The fixed-width end of a shard's name, "-iiiii-of-ttttt.gguf". */
  predicate IsTail(s: string) {
    && |s| == 20 && s[0] == '-' && FiveDigits(s[1..6]) && s[6..10] == "-of-" && FiveDigits(s[10..15]) && s[15..] == SUFFIX
  }

  function Tail(index: nat, total: nat): string {
    "-" + Numeral(index) + "-of-" + Numeral(total) + SUFFIX
  }

  /** `_split_part`: the name is a prefix of at least one character, none of them a
      newline, and the fixed-width end. */
  function SplitPart(path: string): Option<Part> {
    var name := Name(path);
    if |name| > 20 && IsTail(name[|name| - 20..]) && '\n' !in name[..|name| - 20] then
      var tail := name[|name| - 20..];
      Some(Part(Family(Parent(path), name[..|name| - 20], Number(tail[10..15])), Number(tail[1..6])))
    else None
  }

  function Directory(parent: string): string {
    if parent == "." then "" else parent + "/"
  }

  /** The path of one shard. */
  function Shard(f: Family, index: nat): string {
    Directory(f.parent) + f.prefix + Tail(index, f.total)
  }

  lemma TailOfParts(s: string)
    requires IsTail(s)
    ensures Tail(Number(s[1..6]), Number(s[10..15])) == s
  {
    NumeralOfNumber(s[1..6]);
    NumeralOfNumber(s[10..15]);
    assert s == s[..1] + s[1..6] + s[6..10] + s[10..15] + s[15..];
    assert s[..1] == "-";
  }

  /** A path that begins with "./" has a component ".". */
  lemma DotComponent(path: string)
    requires |path| >= 2 && path[0] == '.' && path[1] == '/'
    ensures "." in Components(path)
  {
    var rest := Components(path[1..]);
    assert path[1..][0] == '/';
    assert rest == [""] + Components(path[1..][1..]) && rest[0] == "";
    assert [path[0]] + rest[0] == ".";
    assert Components(path)[0] == ".";
  }

  /** A valid path is its parent and its name. */
  lemma PathOfName(path: string)
    requires ValidPath(path)
    ensures path == Directory(Parent(path)) + Name(path)
  {
    var start := NameStart(path);
    assert path == path[..start] + Name(path);
    if start > 0 {
      assert path[..start] == path[..start - 1] + "/";
      if Parent(path) == "." {
        assert path[0] == '.' && path[1] == '/';
        DotComponent(path);
      }
    }
  }

  /** A valid path with a shard name is the path of that shard: the parse loses
      nothing. */
  lemma ShardOfPart(path: string)
    requires ValidPath(path) && SplitPart(path).Some?
    ensures Shard(SplitPart(path).value.family, SplitPart(path).value.index) == path
  {
    hide Name, Parent, Tail, IsTail;
    var name := Name(path);
    var n := |name| - 20;
    TailOfParts(name[n..]);
    PathOfName(path);
    assert name == name[..n] + name[n..];
    assert Directory(Parent(path)) + (name[..n] + name[n..]) == Directory(Parent(path)) + name[..n] + name[n..];
  }

  lemma NumberOfNumeral(n: nat)
    requires n < 100_000
    ensures Number(Numeral(n)) == n
  {
    var s := Numeral(n);
    DigitBack(n / 10000 % 10);
    DigitBack(n / 1000 % 10);
    DigitBack(n / 100 % 10);
    DigitBack(n / 10 % 10);
    DigitBack(n % 10);
    DigitSum(n);
  }

  lemma DigitSum(n: nat)
    requires n < 100_000
    ensures n == n / 10000 % 10 * 10000 + n / 1000 % 10 * 1000 + n / 100 % 10 * 100 + n / 10 % 10 * 10 + n % 10
  {
    TenTimes(n);
    TenTimes(n / 10);
    TenTimes(n / 100);
    TenTimes(n / 1000);
  }

  lemma TenTimes(n: nat)
    ensures n == n / 10 * 10 + n % 10
    ensures n / 10 / 10 == n / 100 && n / 100 / 10 == n / 1000 && n / 1000 / 10 == n / 10000
  {
  }

  lemma DigitBack(n: nat)
    requires n < 10
    ensures DigitValue(Digit(n)) == n
  {
  }

  /** The last slash decides what the name is. */
  lemma NameIsLast(directory: string, name: string)
    requires '/' !in name && (directory == "" || directory[|directory| - 1] == '/')
    ensures NameStart(directory + name) == |directory| && Name(directory + name) == name
  {
    var path := directory + name;
    assert path[|directory|..] == name;
  }

  lemma TailIsTail(index: nat, total: nat)
    requires index < 100_000 && total < 100_000
    ensures IsTail(Tail(index, total)) && '/' !in Tail(index, total)
    ensures Number(Tail(index, total)[1..6]) == index && Number(Tail(index, total)[10..15]) == total
  {
    var tail := Tail(index, total);
    NumberOfNumeral(index);
    NumberOfNumeral(total);
    assert tail[1..6] == Numeral(index) && tail[6..10] == "-of-" && tail[10..15] == Numeral(total) && tail[15..] == SUFFIX;
    assert tail == tail[..1] + tail[1..6] + tail[6..10] + tail[10..15] + tail[15..];
  }

  /** And the parse misses nothing: the path of any shard, with five-digit numbers and
      a prefix that is not empty, is parsed back into its family and its index. */
  lemma PartOfShard(f: Family, index: nat)
    requires f.total < 100_000 && index < 100_000
    requires f.prefix != "" && '/' !in f.prefix && '\n' !in f.prefix
    ensures SplitPart(Shard(f, index)) == Some(Part(f, index))
  {
    hide Tail, IsTail, Number, Shard, Name, Parent;
    var tail := Tail(index, f.total);
    TailIsTail(index, f.total);
    TailLength(index, f.total);
    ShardName(f, index);
    var name := f.prefix + tail;
    assert name[|name| - 20..] == tail && name[..|name| - 20] == f.prefix;
  }

  lemma ShardName(f: Family, index: nat)
    requires '/' !in f.prefix && '/' !in Tail(index, f.total)
    ensures Name(Shard(f, index)) == f.prefix + Tail(index, f.total) && Parent(Shard(f, index)) == f.parent
  {
    hide Tail;
    var directory, name := Directory(f.parent), f.prefix + Tail(index, f.total);
    NameIsLast(directory, name);
    assert Shard(f, index) == directory + name;
    assert f.parent != "." ==> (directory + name)[..|directory| - 1] == f.parent;
  }

  lemma TailLength(index: nat, total: nat)
    ensures |Tail(index, total)| == 20
  {
  }

  // -------------------------------------------------------------- canonical paths

  function Join(components: seq<string>): string
    requires components != []
  {
    if |components| == 1 then components[0] else components[0] + "/" + Join(components[1..])
  }

  /** A path segment as a canonical relative POSIX path may have it. */
  predicate Segment(c: string) {
    c != "" && c != "." && c != ".." && '/' !in c && '\\' !in c
  }

  predicate GgufSegments(components: seq<string>) {
    && components != [] && (forall c | c in components :: Segment(c))
    && var name := components[|components| - 1];
       |name| > 5 && name[|name| - 5..] == ".gguf"
  }

  lemma {:induction false} ComponentsOfSegment(c: string, rest: string)
    requires '/' !in c
    ensures Components(c) == [c]
    ensures Components(c + "/" + rest) == [c] + Components(rest)
  {
    if c == "" {
      assert (c + "/" + rest)[1..] == rest && (c + "/" + rest)[0] == '/';
    } else {
      assert c == [c[0]] + c[1..];
      ComponentsOfSegment(c[1..], rest);
      var path := c + "/" + rest;
      assert path[1..] == c[1..] + "/" + rest && path[0] == c[0];
    }
  }

  lemma {:induction false} ComponentsOfJoin(components: seq<string>)
    requires components != [] && forall c | c in components :: '/' !in c
    ensures Components(Join(components)) == components
  {
    ComponentsOfSegment(components[0], if |components| > 1 then Join(components[1..]) else "");
    if |components| > 1 {
      ComponentsOfJoin(components[1..]);
    }
  }

  lemma {:induction false} JoinOfComponents(path: string)
    ensures Components(path) != [] && Join(Components(path)) == path
    ensures forall c | c in Components(path) :: '/' !in c && ('\\' !in path ==> '\\' !in c)
  {
    if path != "" {
      assert path == [path[0]] + path[1..];
      JoinOfComponents(path[1..]);
      var rest := Components(path[1..]);
      if path[0] == '/' {
        assert ([""] + rest)[1..] == rest;
      } else {
        var all := [[path[0]] + rest[0]] + rest[1..];
        assert all[1..] == rest[1..];
        assert forall c | c in all :: c == [path[0]] + rest[0] || c in rest;
      }
    }
  }

  lemma {:induction false} NameOfJoin(components: seq<string>)
    requires components != [] && forall c | c in components :: '/' !in c
    ensures Name(Join(components)) == components[|components| - 1]
  {
    hide Name;
    if |components| == 1 {
      NameIsLast("", components[0]);
      assert "" + components[0] == components[0];
    } else {
      NameOfJoin(components[1..]);
      var rest := Join(components[1..]);
      NameBehind(components[0] + "/", rest);
    }
  }

  lemma NameBehind(directory: string, path: string)
    requires directory != "" && directory[|directory| - 1] == '/'
    ensures Name(directory + path) == Name(path)
  {
    var start := NameStart(path);
    var longer := directory + path[..start];
    assert longer[|longer| - 1] == '/';
    NameIsLast(longer, Name(path));
    assert longer + Name(path) == directory + path;
  }

  lemma {:induction false} BackslashOfJoin(components: seq<string>)
    requires components != []
    ensures '\\' in Join(components) <==> exists c :: c in components && '\\' in c
  {
    if |components| > 1 {
      BackslashOfJoin(components[1..]);
      assert components == [components[0]] + components[1..];
    }
  }

  /** The accepted paths are exactly the segments joined by slashes, with a name that
      ends in .gguf behind at least one character. */
  lemma ValidPathIff(path: string)
    ensures ValidPath(path) <==> exists components :: GgufSegments(components) && Join(components) == path
  {
    hide Components, Name, Join;
    if ValidPath(path) {
      JoinOfComponents(path);
      NameOfJoin(Components(path));
      assert GgufSegments(Components(path));
    }
    if components :| GgufSegments(components) && Join(components) == path {
      ComponentsOfJoin(components);
      NameOfJoin(components);
      BackslashOfJoin(components);
      assert path != "" by { NameOfNothing(); }
    }
  }

  lemma NameOfNothing()
    ensures Name("") == ""
  {
  }

  /** Two valid paths with the same parse are one path. */
  lemma SamePartSamePath(a: string, b: string)
    requires ValidPath(a) && ValidPath(b) && SplitPart(a).Some? && SplitPart(a) == SplitPart(b)
    ensures a == b
  {
    ShardOfPart(a);
    ShardOfPart(b);
  }
}
