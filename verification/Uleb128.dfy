/** Unsigned LEB128 (section 7.6 of DWARF version 5), as the trie reader decodes it into a u64. */
module Uleb128 {
  import opened Prelude
  import opened Bits
  import opened Bytes

  /** Index of the first byte whose continuation bit is clear. */
  function Terminator(bytes: seq<Byte>): (r: Option<nat>)
    ensures r.Some? ==> r.value < |bytes| && bytes[r.value] < 128
    ensures forall j :: 0 <= j < (if r.Some? then r.value else |bytes|) ==> bytes[j] >= 128
  {
    if bytes == [] then None
    else if bytes[0] < 128 then Some(0)
    else
      match Terminator(bytes[1..])
      case None => None
      case Some(i) => Some(i + 1)
  }

  /** The number whose base-128 digits, lowest first, are the low seven bits of the bytes. */
  function Sum128(bytes: seq<Byte>): nat {
    if bytes == [] then 0 else bytes[0] % 128 + 128 * Sum128(bytes[1..])
  }

  /**
   What decoding means: the bytes up to the first clear continuation bit, at most ten of them, give
   their base-128 sum modulo two to the 64, and their number.
   */
  function Decode(bytes: seq<Byte>): (r: Option<(nat, nat)>)
    ensures r.Some? ==> 1 <= r.value.1 <= |bytes| && r.value.1 <= 10 && r.value.0 < U64
  {
    match Terminator(bytes)
    case Some(i) => if i < 10 then Some((Sum128(bytes[..i + 1]) % U64, i + 1)) else None
    case None => None
  }

  lemma {:induction false} Sum128Push(s: seq<Byte>, b: Byte)
    ensures Sum128(s + [b]) == Sum128(s) + Pow2(7 * |s|) * (b % 128)
  {
    hide Pow2;
    Pow2Step(0);
    if s == [] {
      assert Sum128([b]) == b % 128 + 128 * Sum128([]);
      assert [] + [b] == [b];
    } else {
      var rest := s[1..];
      assert (s + [b])[1..] == rest + [b];
      Sum128Push(rest, b);
      DigitRoom(|s|);
      Assoc(128, Pow2(7 * |rest|), b % 128);
    }
  }

  lemma {:induction false} Sum128Bound(s: seq<Byte>)
    ensures Sum128(s) < Pow2(7 * |s|)
  {
    hide Pow2;
    Pow2Step(0);
    if s != [] {
      Sum128Bound(s[1..]);
      DigitRoom(|s|);
    }
  }

  /** Scaling a division by `p` when the scaled divisor is the word size. */
  lemma Scaled(x: nat, p: nat, m: nat)
    requires m > 0 && p * m == U64
    ensures p * x == U64 * (x / m) + p * (x % m)
  {
    assert x == m * (x / m) + x % m;
    Assoc(p, m, x / m);
    Distribute(p, m * (x / m), x % m);
  }

  lemma ScaledMod(low: nat, x: nat, p: nat, m: nat)
    requires m > 0 && p * m == U64 && low < p
    ensures (low + p * x) % U64 == low + p * (x % m)
  {
    Scaled(x, p, m);
    RoomBelow(low, x % m, p, m);
    DivModUnique(low + p * x, U64, x / m, low + p * (x % m));
  }

  /** A word shifted left loses what leaves the 64 bits, and keeps clear of the lower bits. */
  lemma ShiftedIn(low: nat, x: nat, k: nat)
    requires low < Pow2(k) && k <= 63
    ensures Or(low, Shl64(x, k)) == (low + Pow2(k) * x) % U64
  {
    hide Or, Pow2;
    var p, m := Pow2(k), Pow2(64 - k);
    Pow2Add(k, 64 - k);
    Pow2Words();
    ScaledMod(0, x, p, m);
    ScaledMod(low, x, p, m);
    OrDisjoint(low, x % m, k);
    Commute(x, p);
  }

  /** The decoder's loop. */
  method ReadUleb128(bytes: seq<Byte>) returns (r: Option<(nat, nat)>)
    ensures r == Decode(bytes)
  {
    var result, shift := 0, 0;
    for i := 0 to |bytes|
      invariant i <= 9 && shift == 7 * i
      invariant forall j :: 0 <= j < i ==> bytes[j] >= 128
      invariant result == Sum128(bytes[..i])
    {
      var b := bytes[i];
      DigitIn(bytes, i, result);
      result := Or(result, Shl64(And(b, 0x7f), shift));
      if And(b, 0x80) == 0 {
        TerminatorIs(bytes, i);
        return Some((result, i + 1));
      }
      shift := shift + 7;
      if shift >= 64 {
        return None;
      }
    }
    return None;
  }

  lemma HighBit(b: Byte)
    ensures And(b, 0x7f) == b % 128 && (And(b, 0x80) == 0 <==> b < 128)
  {
    Pow2Constants();
    AndLowMask(b, 7);
    AndHighMask(b, 7, 8);
    ModEdges(b, 128);
  }

  lemma BelowWord(n: nat)
    requires n <= 9
    ensures Pow2(7 * n) <= U64
  {
    Pow2Monotone(7 * n, 64);
    Pow2Constants();
  }

  lemma DigitIn(bytes: seq<Byte>, i: nat, result: nat)
    requires i < |bytes| && i <= 9 && result == Sum128(bytes[..i])
    ensures Or(result, Shl64(And(bytes[i], 0x7f), 7 * i)) == Sum128(bytes[..i + 1]) % U64
    ensures i < 9 ==> Sum128(bytes[..i + 1]) % U64 == Sum128(bytes[..i + 1])
    ensures And(bytes[i], 0x80) == 0 <==> bytes[i] < 128
  {
    HighBit(bytes[i]);
    assert bytes[..i + 1] == bytes[..i] + [bytes[i]];
    Sum128Push(bytes[..i], bytes[i]);
    Sum128Bound(bytes[..i]);
    ShiftedIn(result, bytes[i] % 128, 7 * i);
    Sum128Bound(bytes[..i + 1]);
    if i < 9 {
      BelowWord(i + 1);
      ModEdges(Sum128(bytes[..i + 1]), U64);
    }
  }

  lemma {:induction false} TerminatorIs(bytes: seq<Byte>, i: nat)
    requires i < |bytes| && bytes[i] < 128 && forall j :: 0 <= j < i ==> bytes[j] >= 128
    ensures Terminator(bytes) == Some(i)
  {
    if i > 0 {
      TerminatorIs(bytes[1..], i - 1);
    }
  }

  // ----- encoders -----

  lemma DigitRoom(n: nat)
    requires n >= 1
    ensures Pow2(7 * n) == 128 * Pow2(7 * (n - 1))
  {
    hide Pow2;
    Pow2Add(7, 7 * (n - 1));
    Pow2Small();
  }

  /** The shortest encoding. */
  function Encode(v: nat): (s: seq<Byte>)
    ensures |s| >= 1
  {
    if v < 128 then [v] else [128 + v % 128] + Encode(v / 128)
  }

  /** An encoding of exactly `n` bytes, which leaves room to fill in an offset later. */
  function EncodePadded(v: nat, n: nat): (s: seq<Byte>)
    requires n >= 1
    ensures |s| == n
  {
    if n == 1 then [v % 128] else [128 + v % 128] + EncodePadded(v / 128, n - 1)
  }

  lemma {:induction false} EncodeDigits(v: nat, n: nat)
    requires n >= 1 && v < Pow2(7 * n)
    ensures |Encode(v)| <= n
    ensures Sum128(Encode(v)) == v
    ensures forall j :: 0 <= j < |Encode(v)| ==> (Encode(v)[j] < 128 <==> j == |Encode(v)| - 1)
    decreases n
  {
    hide Pow2;
    DigitRoom(n);
    Pow2Small();
    if v >= 128 {
      EncodeDigits(v / 128, n - 1);
      assert Encode(v)[1..] == Encode(v / 128);
      assert v == v % 128 + 128 * (v / 128);
    } else {
      assert Sum128([v]) == v % 128 + 128 * Sum128([]);
    }
  }

  lemma {:induction false} PaddedDigits(v: nat, n: nat)
    requires n >= 1 && v < Pow2(7 * n)
    ensures Sum128(EncodePadded(v, n)) == v
    ensures forall j :: 0 <= j < n ==> (EncodePadded(v, n)[j] < 128 <==> j == n - 1)
    decreases n
  {
    hide Pow2;
    DigitRoom(n);
    Pow2Small();
    if n > 1 {
      PaddedDigits(v / 128, n - 1);
      assert EncodePadded(v, n)[1..] == EncodePadded(v / 128, n - 1);
    } else {
      assert Sum128([v % 128]) == v % 128 + 128 * Sum128([]);
    }
  }

  lemma DecodeDigits(digits: seq<Byte>, suffix: seq<Byte>)
    requires 1 <= |digits| <= 10 && Sum128(digits) < U64
    requires forall j :: 0 <= j < |digits| ==> (digits[j] < 128 <==> j == |digits| - 1)
    ensures Decode(digits + suffix) == Some((Sum128(digits), |digits|))
  {
    var bytes := digits + suffix;
    TerminatorIs(bytes, |digits| - 1);
    assert bytes[..|digits|] == digits;
    ModEdges(Sum128(digits), U64);
  }

  /** Decoding an encoding, whatever follows it, gives the value back and consumes exactly the encoding. */
  lemma {:induction false} RoundTrip(v: nat, suffix: seq<Byte>)
    requires v < U64
    ensures Decode(Encode(v) + suffix) == Some((v, |Encode(v)|))
  {
    Pow2Constants();
    Pow2Monotone(64, 70);
    EncodeDigits(v, 10);
    DecodeDigits(Encode(v), suffix);
  }

  lemma {:induction false} PaddedRoundTrip(v: nat, n: nat, suffix: seq<Byte>)
    requires 1 <= n <= 10 && v < U64 && v < Pow2(7 * n)
    ensures Decode(EncodePadded(v, n) + suffix) == Some((v, n))
  {
    PaddedDigits(v, n);
    DecodeDigits(EncodePadded(v, n), suffix);
  }
}
