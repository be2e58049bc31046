/** UTF-8 as section 3 of RFC 3629 defines it, and the strict decoder's verdict
    on a byte string: clean, cut off inside a character, or malformed. */
module Utf8 {
  import opened PrefixRange

  /** The Unicode scalar values: every code point but the surrogates. */
  type Scalar = c: nat | c < 0xD800 || 0xE000 <= c <= 0x10FFFF

  function Encode(c: Scalar): Bytes {
    if c < 0x80 then [c as Byte]
    else if c < 0x800 then [(0xC0 + c / 64) as Byte, (0x80 + c % 64) as Byte]
    else if c < 0x10000 then [(0xE0 + c / 4096) as Byte, (0x80 + c / 64 % 64) as Byte, (0x80 + c % 64) as Byte]
    else [(0xF0 + c / 4096 / 64) as Byte, (0x80 + c / 4096 % 64) as Byte, (0x80 + c / 64 % 64) as Byte, (0x80 + c % 64) as Byte]
  }

  function EncodeAll(text: seq<Scalar>): Bytes {
    if text == [] then [] else Encode(text[0]) + EncodeAll(text[1..])
  }

  /** A byte string is valid UTF-8 when it encodes some text. */
  ghost predicate Valid(b: Bytes) {
    exists text :: b == EncodeAll(text)
  }

  // ------------------------------------------------------------------ decoder

  predicate Continues(b: Byte) {
    0x80 <= b < 0xC0
  }

  /** Whether `second` may follow `lead`, which rules out overlong forms,
      surrogates and values beyond U+10FFFF. */
  predicate Follows(lead: Byte, second: Byte) {
    && Continues(second)
    && (lead == 0xE0 ==> second >= 0xA0)
    && (lead == 0xED ==> second < 0xA0)
    && (lead == 0xF0 ==> second >= 0x90)
    && (lead == 0xF4 ==> second < 0x90)
  }

  /** The length a lead byte announces; 0 for a byte that cannot start a character. */
  function Announced(lead: Byte): nat {
    if lead < 0x80 then 1
    else if 0xC2 <= lead < 0xE0 then 2
    else if 0xE0 <= lead < 0xF0 then 3
    else if 0xF0 <= lead < 0xF5 then 4
    else 0
  }

  datatype Lead = Whole(width: nat) | Partial | Broken

  /** What the decoder makes of the first character of a non-empty string. */
  function First(b: Bytes): Lead
    requires b != []
  {
    var n := Announced(b[0]);
    if n == 0 then Broken
    else if n == 1 then Whole(1)
    else if |b| < 2 then Partial
    else if !Follows(b[0], b[1]) then Broken
    else if n == 2 then Whole(2)
    else if |b| < 3 then Partial
    else if !Continues(b[2]) then Broken
    else if n == 3 then Whole(3)
    else if |b| < 4 then Partial
    else if !Continues(b[3]) then Broken
    else Whole(4)
  }

  datatype Verdict = Clean | Truncated(start: nat) | Malformed(start: nat)

  function Shifted(v: Verdict, offset: nat): Verdict {
    match v
    case Clean => Clean
    case Truncated(start) => Truncated(start + offset)
    case Malformed(start) => Malformed(start + offset)
  }

  /** The first error of a strict decode, if any; "unexpected end of data" is
      Truncated, at the start of the character that is cut off. */
  function Decode(b: Bytes): Verdict
    decreases |b|
  {
    if b == [] then Clean
    else
      match First(b)
      case Whole(n) => Shifted(Decode(b[n..]), n)
      case Partial => Truncated(0)
      case Broken => Malformed(0)
  }

  // -------------------------------------------- the decoder meets the standard

  lemma EncodeIsWhole(c: Scalar, rest: Bytes)
    ensures First(Encode(c) + rest) == Whole(|Encode(c)|)
  {
    var b := Encode(c) + rest;
    if c >= 0x10000 {
      var high := c / 4096;
      assert 16 <= high <= 0x10F && high == high / 64 * 64 + high % 64;
    } else if c >= 0x800 {
      var high := c / 64;
      assert high / 64 == c / 4096 && high == high / 64 * 64 + high % 64;
    }
  }

  /** The character of a well-formed two to four byte sequence. */
  lemma Decodes(b: Bytes) returns (c: Scalar)
    requires b != [] && First(b).Whole?
    ensures 0 < First(b).width <= |b| && Encode(c) == b[..First(b).width]
  {
    var n := First(b).width;
    var b0 := b[0] as nat;
    if n == 1 {
      c := b0;
    } else if n == 2 {
      c := (b0 - 0xC0) * 64 + (b[1] as nat - 0x80);
    } else if n == 3 {
      c := Decoded3(b0 - 0xE0, b[1] as nat - 0x80, b[2] as nat - 0x80);
    } else {
      c := Decoded4(b0 - 0xF0, b[1] as nat - 0x80, b[2] as nat - 0x80, b[3] as nat - 0x80);
    }
  }

  lemma Decoded3(x: nat, y: nat, z: nat) returns (c: Scalar)
    requires x < 16 && y < 64 && z < 64 && (x == 0 ==> y >= 32) && (x == 13 ==> y < 32)
    ensures Encode(c) == [(0xE0 + x) as Byte, (0x80 + y) as Byte, (0x80 + z) as Byte]
  {
    c := x * 4096 + y * 64 + z;
    assert c / 64 == x * 64 + y && c % 64 == z;
    assert c / 4096 == x && (x * 64 + y) % 64 == y;
  }

  lemma Decoded4(w: nat, x: nat, y: nat, z: nat) returns (c: Scalar)
    requires w < 5 && x < 64 && y < 64 && z < 64 && (w == 0 ==> x >= 16) && (w == 4 ==> x < 16)
    ensures Encode(c) == [(0xF0 + w) as Byte, (0x80 + x) as Byte, (0x80 + y) as Byte, (0x80 + z) as Byte]
  {
    c := w * 262144 + x * 4096 + y * 64 + z;
    assert c / 64 == w * 4096 + x * 64 + y && c % 64 == z;
    assert c / 4096 == w * 64 + x && (w * 4096 + x * 64 + y) % 64 == y;
    assert (w * 64 + x) / 64 == w && (w * 64 + x) % 64 == x;
  }

  lemma {:induction false} EncodedIsClean(text: seq<Scalar>)
    ensures Decode(EncodeAll(text)) == Clean
  {
    if text != [] {
      var b := EncodeAll(text);
      EncodeIsWhole(text[0], EncodeAll(text[1..]));
      assert b[|Encode(text[0])|..] == EncodeAll(text[1..]);
      EncodedIsClean(text[1..]);
    }
  }

  lemma {:induction false} CleanIsEncoded(b: Bytes) returns (text: seq<Scalar>)
    requires Decode(b) == Clean
    ensures b == EncodeAll(text)
    decreases |b|
  {
    hide First, Encode;
    if b == [] {
      text := [];
    } else {
      var n := First(b).width;
      var c := Decodes(b);
      var rest := CleanIsEncoded(b[n..]);
      text := [c] + rest;
      assert text[1..] == rest;
    }
  }

  /** The decoder accepts exactly the byte strings the standard allows. */
  lemma CleanIffValid(b: Bytes)
    ensures Decode(b) == Clean <==> Valid(b)
  {
    if Decode(b) == Clean {
      var text := CleanIsEncoded(b);
    }
    if Valid(b) {
      var text :| b == EncodeAll(text);
      EncodedIsClean(text);
    }
  }

  // ------------------------------------------------------ cutting a clean stream

  /** Decoding continues after a clean prefix as if it started there. */
  lemma {:induction false} DecodeConcat(a: Bytes, b: Bytes)
    requires Decode(a) == Clean
    ensures Decode(a + b) == Shifted(Decode(b), |a|)
    decreases |a|
  {
    if a == [] {
      assert a + b == b;
    } else {
      var n := First(a).width;
      assert First(a + b) == First(a);
      assert (a + b)[n..] == a[n..] + b;
      DecodeConcat(a[n..], b);
    }
  }

  /** What follows matters only to a character that is cut off. */
  lemma FirstStays(a: Bytes, b: Bytes)
    requires a != []
    ensures !First(a).Partial? ==> First(a + b) == First(a)
  {
  }

  /** A verdict of truncation means clean up to the character that is cut. */
  lemma {:induction false} TruncatedPrefix(b: Bytes)
    ensures match Decode(b)
            case Truncated(s) => s < |b| && Decode(b[..s]) == Clean && First(b[s..]).Partial?
            case _ => true
    decreases |b|
  {
    hide First;
    if b != [] && First(b).Whole? {
      var n := First(b).width;
      FirstIsClean(b, n);
      TruncatedPrefix(b[n..]);
      if Decode(b[n..]).Truncated? {
        var s := Decode(b[n..]).start;
        assert b[n..][s..] == b[n + s..];
        assert b[..n + s] == b[..n] + b[n..][..s];
        DecodeConcat(b[..n], b[n..][..s]);
      }
    } else if b != [] {
      assert b[0..] == b && b[..0] == [];
    }
  }

  lemma {:induction false} PrefixIsNotMalformed(a: Bytes, b: Bytes)
    requires Decode(a + b) == Clean
    ensures !Decode(a).Malformed?
    decreases |a|
  {
    hide First;
    if a != [] {
      FirstStays(a, b);
      if First(a).Whole? {
        var n := First(a).width;
        FirstIsClean(a, n);
        assert (a + b)[n..] == a[n..] + b;
        PrefixIsNotMalformed(a[n..], b);
      }
    }
  }

  /** A prefix of a clean string is clean up to a character it may cut. */
  lemma PrefixVerdict(a: Bytes, b: Bytes)
    requires Decode(a + b) == Clean
    ensures match Decode(a)
            case Clean => true
            case Truncated(s) => s < |a| && Decode(a[..s]) == Clean && First(a[s..]).Partial?
            case Malformed(_) => false
  {
    hide Decode, First;
    TruncatedPrefix(a);
    PrefixIsNotMalformed(a, b);
  }

  lemma FirstIsClean(a: Bytes, n: nat)
    requires a != [] && First(a) == Whole(n)
    ensures 0 < n <= |a| && Decode(a[..n]) == Clean
  {
    assert First(a[..n]) == Whole(n);
    assert a[..n][n..] == [];
  }
}
