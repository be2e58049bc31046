/** Byte strings in etcd's key order, and the exclusive range end that turns a
    prefix query into a range query. */
module PrefixRange {

  newtype Byte = b: int | 0 <= b < 256

  type Bytes = seq<Byte>

  /** Strict lexicographic order, the order in which etcd keeps its keys. */
  predicate Less(a: Bytes, b: Bytes) {
    if b == [] then false
    else if a == [] then true
    else if a[0] != b[0] then a[0] < b[0]
    else Less(a[1..], b[1..])
  }

  /** The range end that etcd reads as "no upper bound". */
  const UNBOUNDED: Bytes := [0]

  /** The keys a range request for [start, end) returns. */
  predicate InRange(key: Bytes, start: Bytes, end: Bytes) {
    !Less(key, start) && (end == UNBOUNDED || Less(key, end))
  }

  predicate StartsWith(key: Bytes, prefix: Bytes) {
    prefix <= key
  }

  /** Successor of a prefix that ends in a byte below 0xFF. */
  ghost predicate IsSuccessor(prefix: Bytes, end: Bytes) {
    && 0 < |end| <= |prefix|
    && end[..|end| - 1] == prefix[..|end| - 1]
    && prefix[|end| - 1] < 0xFF
    && end[|end| - 1] == prefix[|end| - 1] + 1
    && forall i | |end| <= i < |prefix| :: prefix[i] == 0xFF
  }

  lemma {:induction false} AtLeastPrefix(key: Bytes, prefix: Bytes)
    ensures StartsWith(key, prefix) ==> !Less(key, prefix)
  {
    if prefix != [] && key != [] && key[0] == prefix[0] {
      AtLeastPrefix(key[1..], prefix[1..]);
    }
  }

  /** With nothing but 0xFF bytes, being at least the prefix already means
      starting with it. */
  lemma {:induction false} AllOnes(key: Bytes, prefix: Bytes)
    requires forall i | 0 <= i < |prefix| :: prefix[i] == 0xFF
    ensures !Less(key, prefix) <==> StartsWith(key, prefix)
  {
    AtLeastPrefix(key, prefix);
    if prefix != [] && key != [] && key[0] == prefix[0] {
      AllOnes(key[1..], prefix[1..]);
      assert key == [key[0]] + key[1..] && prefix == [prefix[0]] + prefix[1..];
    }
  }

  lemma {:induction false} BelowSuccessor(key: Bytes, prefix: Bytes, end: Bytes)
    requires IsSuccessor(prefix, end)
    ensures !Less(key, prefix) && Less(key, end) <==> StartsWith(key, prefix)
    decreases |end|
  {
    AtLeastPrefix(key, prefix);
    if key != [] {
      assert key == [key[0]] + key[1..] && prefix == [prefix[0]] + prefix[1..];
      if |end| == 1 {
        assert forall i | 0 <= i < |prefix[1..]| :: prefix[1..][i] == prefix[i + 1];
        AllOnes(key[1..], prefix[1..]);
      } else {
        assert prefix[0] == prefix[..|end| - 1][0] == end[..|end| - 1][0] == end[0];
        var p, e := prefix[1..], end[1..];
        assert IsSuccessor(p, e) by {
          assert e[..|e| - 1] == end[..|end| - 1][1..];
          assert p[..|e| - 1] == prefix[..|end| - 1][1..];
          assert forall i | |e| <= i < |p| :: p[i] == prefix[i + 1];
        }
        BelowSuccessor(key[1..], p, e);
      }
    }
  }

  /** `_prefix_range_end`: the loop walks back over trailing 0xFF bytes. The
      contract is the law the range end exists for, over every key. */
  method PrefixRangeEnd(prefix: Bytes) returns (end: Bytes)
    ensures forall key :: InRange(key, prefix, end) <==> StartsWith(key, prefix)
    ensures end == UNBOUNDED <==> forall i | 0 <= i < |prefix| :: prefix[i] == 0xFF
  {
    var buffer := new Byte[|prefix|](i requires 0 <= i < |prefix| => prefix[i]);
    assert buffer[..] == prefix;
    var index := |prefix| - 1;
    while index >= 0
      invariant -1 <= index < |prefix|
      invariant buffer[..] == prefix
      invariant forall i | index < i < |prefix| :: prefix[i] == 0xFF
    {
      if buffer[index] < 0xFF {
        assert buffer[index] == buffer[..][index];
        buffer[index] := buffer[index] + 1;
        end := buffer[..index + 1];
        assert end[..|end| - 1] == prefix[..|end| - 1] by {
          assert forall i | 0 <= i < index :: end[i] == prefix[i];
        }
        assert IsSuccessor(prefix, end);
        forall key ensures InRange(key, prefix, end) <==> StartsWith(key, prefix) {
          BelowSuccessor(key, prefix, end);
        }
        return;
      }
      assert buffer[..][index] == 0xFF;
      index := index - 1;
    }
    end := UNBOUNDED;
    forall key ensures InRange(key, prefix, end) <==> StartsWith(key, prefix) {
      AllOnes(key, prefix);
    }
  }
}
