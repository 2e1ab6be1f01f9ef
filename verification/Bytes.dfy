/** Little-endian words in byte sequences. */
module Bytes {
  import opened Prelude

  type Byte = b: int | 0 <= b < 256

  /** The number that little-endian bytes denote. */
  function Value(s: seq<Byte>): nat {
    if s == [] then 0 else s[0] + 256 * Value(s[1..])
  }

  /** The `n` low bytes of `v`, lowest first. */
  function Encode(v: nat, n: nat): (s: seq<Byte>)
    ensures |s| == n
  {
    if n == 0 then [] else [v % 256] + Encode(v / 256, n - 1)
  }

  function Limit(n: nat): (r: nat)
    ensures r >= 1
  {
    if n == 0 then 1 else 256 * Limit(n - 1)
  }

  lemma Limits()
    ensures Limit(2) == 0x1_0000 && Limit(4) == 0x1_0000_0000 && Limit(8) == 0x1_0000_0000_0000_0000
  {
    assert Limit(2) == 0x1_0000;
    assert Limit(4) == 0x1_0000_0000;
    assert Limit(6) == 0x1_0000_0000_0000;
  }

  lemma {:induction false} ValueOfEncode(v: nat, n: nat)
    requires v < Limit(n)
    ensures Value(Encode(v, n)) == v
  {
    if n > 0 {
      ValueOfEncode(v / 256, n - 1);
      assert Encode(v, n)[1..] == Encode(v / 256, n - 1);
    }
  }

  lemma {:induction false} EncodeOfValue(s: seq<Byte>)
    ensures Value(s) < Limit(|s|) && Encode(Value(s), |s|) == s
  {
    if s != [] {
      EncodeOfValue(s[1..]);
      assert s == [s[0]] + s[1..];
    }
  }

  /** A read of `n` bytes, which fails past the end. */
  function Read(bytes: seq<Byte>, offset: nat, n: nat): Option<nat> {
    if offset + n <= |bytes| then Some(Value(bytes[offset..offset + n])) else None
  }

  /** `part` stands in `bytes` at `offset`. */
  predicate At(bytes: seq<Byte>, offset: nat, part: seq<Byte>) {
    offset + |part| <= |bytes| && bytes[offset..offset + |part|] == part
  }

  lemma AtConcat(bytes: seq<Byte>, offset: nat, a: seq<Byte>, b: seq<Byte>)
    ensures At(bytes, offset, a + b) <==> At(bytes, offset, a) && At(bytes, offset + |a|, b)
  {
    if offset + |a| + |b| <= |bytes| {
      var whole := bytes[offset..offset + |a| + |b|];
      assert whole[..|a|] == bytes[offset..offset + |a|];
      assert whole[|a|..] == bytes[offset + |a|..offset + |a| + |b|];
      assert whole == whole[..|a|] + whole[|a|..];
      assert (a + b)[..|a|] == a && (a + b)[|a|..] == b;
    }
  }

  lemma AtLength(bytes: seq<Byte>, offset: nat, part: seq<Byte>)
    requires At(bytes, offset, part)
    ensures offset + |part| <= |bytes|
  {}

  lemma AtIndex(bytes: seq<Byte>, offset: nat, part: seq<Byte>, i: nat)
    requires At(bytes, offset, part) && i < |part|
    ensures bytes[offset + i] == part[i]
  {
    assert bytes[offset..offset + |part|][i] == bytes[offset + i];
  }

  lemma AtRest(bytes: seq<Byte>, offset: nat, part: seq<Byte>)
    requires At(bytes, offset, part)
    ensures bytes[offset..] == part + bytes[offset + |part|..]
  {
    assert bytes[offset..] == bytes[offset..offset + |part|] + bytes[offset + |part|..];
  }

  lemma ReadWritten(bytes: seq<Byte>, offset: nat, v: nat, n: nat)
    requires At(bytes, offset, Encode(v, n)) && v < Limit(n)
    ensures Read(bytes, offset, n) == Some(v)
  {
    ValueOfEncode(v, n);
  }

  lemma {:induction false} ValueOfConcat(a: seq<Byte>, b: seq<Byte>)
    ensures Value(a + b) == Value(a) + Limit(|a|) * Value(b)
  {
    if a == [] {
      assert a + b == b;
    } else {
      assert (a + b)[1..] == a[1..] + b;
      ValueOfConcat(a[1..], b);
      assert 256 * (Limit(|a| - 1) * Value(b)) == Limit(|a|) * Value(b);
    }
  }
}
