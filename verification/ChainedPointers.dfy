/** The 64-bit words of fixup chains: bit layouts, as the linker's accessors read them, and their encoders. */
module ChainedPointers {
  import opened Prelude
  import opened Bits

  /** The pointer formats the linker supports; the two named pairs of each row share a layout. */
  datatype Format =
    | Ptr64        // DYLD_CHAINED_PTR_64, DYLD_CHAINED_PTR_64_OFFSET
    | Arm64e       // DYLD_CHAINED_PTR_ARM64E, DYLD_CHAINED_PTR_ARM64E_USERLAND
    | Userland24   // DYLD_CHAINED_PTR_ARM64E_USERLAND24

  /** What a word asks for; `ordinal` indexes the import table. */
  datatype Entry =
    | RebaseTo(target: nat)
    | BindTo(ordinal: nat, addend: nat, isAuth: bool)

  /** A decoded word: the distance in bytes to the next one (0 ends the chain), and its entry. */
  datatype Link = Link(next: nat, entry: Entry)

  function Stride(f: Format): nat {
    if f.Ptr64? then 4 else 8
  }

  function NextLimit(f: Format): nat {
    if f.Ptr64? then 0x1000 else 0x800
  }

  function Decode64(v: nat): Link {
    var next := And(Shr(v, 51), 0xFFF) * 4;
    if And(Shr(v, 63), 1) == 1 then
      Link(next, BindTo(And(v, 0x00FF_FFFF), And(Shr(v, 24), 0xFF), false))
    else
      var high8 := Shl64(And(Shr(v, 36), 0xFF), 56);
      Link(next, RebaseTo(Or(And(v, 0x0000_000F_FFFF_FFFF), high8)))
  }

  function DecodeArm64e(v: nat): Link {
    var next := And(Shr(v, 51), 0x7FF) * 8;
    var auth := And(Shr(v, 63), 1) == 1;
    if And(Shr(v, 62), 1) == 1 then
      if auth then Link(next, BindTo(And(v, 0xFFFF), 0, true))
      else Link(next, BindTo(And(v, 0xFFFF), And(Shr(v, 32), 0x7FFFF), false))
    else if auth then Link(next, RebaseTo(And(v, 0xFFFF_FFFF)))
    else
      var high8 := Shl64(And(Shr(v, 43), 0xFF), 56);
      Link(next, RebaseTo(Or(And(v, 0x0000_07FF_FFFF_FFFF), high8)))
  }

  function DecodeUserland24(v: nat): Link {
    var next := And(Shr(v, 51), 0x7FF) * 8;
    if And(Shr(v, 62), 1) == 1 then
      if And(Shr(v, 63), 1) == 1 then Link(next, BindTo(And(v, 0x00FF_FFFF), 0, true))
      else Link(next, BindTo(And(v, 0x00FF_FFFF), And(Shr(v, 32), 0x7FFFF), false))
    else DecodeArm64e(v)
  }

  function Decode(f: Format, v: nat): Link {
    match f
    case Ptr64 => Decode64(v)
    case Arm64e => DecodeArm64e(v)
    case Userland24 => DecodeUserland24(v)
  }

  // ----- encoders -----

  /** How a pointer is signed; the linker reads none of it. */
  datatype Signature = Signature(diversity: nat, addrDiv: bool, key: nat)

  /** The pointers that words can hold; `spare` fills bits that no accessor reads. */
  datatype Pointer =
    | PlainRebase(target: nat, spare: nat)
    | PlainBind(ordinal: nat, addend: nat, spare: nat)
    | SignedRebase(target: nat, signature: Signature)
    | SignedBind(ordinal: nat, signature: Signature, spare: nat)
  {
    /** What the linker makes of the pointer. */
    function Entry(): Entry {
      match this
      case PlainRebase(target, _) => RebaseTo(target)
      case PlainBind(ordinal, addend, _) => BindTo(ordinal, addend, false)
      case SignedRebase(target, _) => RebaseTo(target)
      case SignedBind(ordinal, _, _) => BindTo(ordinal, 0, true)
    }
  }

  const TOP_BYTE: nat := 0x0100_0000_0000_0000

  function TargetBits(f: Format): nat {
    if f.Ptr64? then 36 else 43
  }

  function OrdinalBits(f: Format): nat {
    if f.Arm64e? then 16 else 24
  }

  /** How many bits of a bind no accessor reads. */
  function SpareBits(f: Format): nat {
    if f.Ptr64? then 19 else 32 - OrdinalBits(f)
  }

  predicate SignatureFits(s: Signature) {
    s.diversity < 0x1_0000 && s.key < 4
  }

  /** The pointers a format can hold: a target has its low bits and a top byte, and nothing between. */
  predicate Encodable(f: Format, p: Pointer) {
    match p
    case PlainRebase(target, spare) =>
      && target < U64 && target % TOP_BYTE < Pow2(TargetBits(f))
      && spare < (if f.Ptr64? then 0x80 else 1)
    case PlainBind(ordinal, addend, spare) =>
      && ordinal < Pow2(OrdinalBits(f)) && spare < Pow2(SpareBits(f))
      && addend < (if f.Ptr64? then 0x100 else 0x8_0000)
    case SignedRebase(target, signature) =>
      !f.Ptr64? && target < 0x1_0000_0000 && SignatureFits(signature)
    case SignedBind(ordinal, signature, spare) =>
      && !f.Ptr64? && SignatureFits(signature)
      && ordinal < Pow2(OrdinalBits(f)) && spare < Pow2(SpareBits(f))
  }

  /** Four adjacent fields, lowest first, from their widths. */
  function Pack(a: nat, aBits: nat, b: nat, bBits: nat, c: nat, cBits: nat, d: nat): nat {
    Join(a, aBits, Join(b, bBits, Join(c, cBits, d)))
  }

  /** Diversity, address diversity and key, as they stand above the low 32 bits. */
  function Stamp(s: Signature): nat {
    Join(s.diversity, 16, (if s.addrDiv then 1 else 0) + 2 * s.key)
  }

  /** The word for a pointer whose successor lies `steps` strides on. */
  function Encode(f: Format, p: Pointer, steps: nat): nat {
    match p
    case PlainRebase(target, spare) =>
      var low, high8 := target % TOP_BYTE, target / TOP_BYTE;
      if f.Ptr64? then Pack(low, 36, Join(high8, 8, spare), 15, steps, 12, 0) else Pack(low, 43, high8, 8, steps, 11, 0)
    case PlainBind(ordinal, addend, spare) =>
      if f.Ptr64? then Pack(ordinal, 24, Join(addend, 8, spare), 27, steps, 12, 1)
      else Pack(Join(ordinal, OrdinalBits(f), spare), 32, addend, 19, steps, 11, 1)
    case SignedRebase(target, signature) => Pack(target, 32, Stamp(signature), 19, steps, 11, 2)
    case SignedBind(ordinal, signature, spare) =>
      Pack(Join(ordinal, OrdinalBits(f), spare), 32, Stamp(signature), 19, steps, 11, 3)
  }

  // ----- the encoders are inverse to the accessors -----

  lemma Widths()
    ensures Pow2(0) == 1 && Pow2(1) == 2 && Pow2(8) == 0x100 && Pow2(11) == 0x800 && Pow2(12) == 0x1000
          && Pow2(15) == 0x8000
    ensures Pow2(16) == 0x1_0000 && Pow2(19) == 0x8_0000 && Pow2(24) == 0x100_0000 && Pow2(27) == 0x800_0000
    ensures Pow2(32) == 0x1_0000_0000 && Pow2(36) == 0x10_0000_0000 && Pow2(43) == 0x800_0000_0000
    ensures Pow2(51) == 0x8_0000_0000_0000 && Pow2(56) == TOP_BYTE && Pow2(62) == 0x4000_0000_0000_0000
    ensures Pow2(63) == 0x8000_0000_0000_0000 && Pow2(64) == U64
  {
    Pow2Words();
    Pow2Small();
    Pow2Add(8, 3);
    Pow2Add(8, 4);
    Pow2Add(8, 7);
    Pow2Add(16, 3);
    Pow2Add(16, 8);
    Pow2Add(24, 3);
    Pow2Add(32, 4);
    Pow2Add(32, 11);
    Pow2Add(32, 19);
    Pow2Add(32, 24);
    assert Pow2(64) == 2 * Pow2(63);
    assert Pow2(63) == 2 * Pow2(62);
    assert Pow2(1) == 2;
  }

  /** The four fields of a packed word, each read by shift and mask. */
  lemma PackFields(a: nat, aBits: nat, b: nat, bBits: nat, c: nat, cBits: nat, d: nat)
    requires a < Pow2(aBits) && b < Pow2(bBits) && c < Pow2(cBits)
    ensures var v := Pack(a, aBits, b, bBits, c, cBits, d);
      && And(v, Pow2(aBits) - 1) == a
      && And(Shr(v, aBits), Pow2(bBits) - 1) == b
      && And(Shr(v, aBits + bBits), Pow2(cBits) - 1) == c
      && Shr(v, aBits + bBits + cBits) == d
  {
    hide And, Shr, Pow2, Join;
    var v := Pack(a, aBits, b, bBits, c, cBits, d);
    var cd := Join(c, cBits, d);
    var bcd := Join(b, bBits, cd);
    LowField(a, bcd, aBits);
    LowField(b, cd, bBits);
    LowField(c, d, cBits);
    ShrMeaning(a, bcd, aBits);
    ShrMeaning(b, cd, bBits);
    ShrMeaning(c, d, cBits);
    ShrAdd(v, aBits, bBits);
    ShrAdd(v, aBits + bBits, cBits);
  }

  lemma LowField(a: nat, high: nat, bits: nat)
    requires a < Pow2(bits)
    ensures And(Join(a, bits, high), Pow2(bits) - 1) == a
  {
    hide And, Pow2;
    AndLowMask(Join(a, bits, high), bits);
    DivModUnique(Join(a, bits, high), Pow2(bits), high, a);
  }

  lemma {:induction false} ShrAdd(v: nat, j: nat, k: nat)
    ensures Shr(v, j + k) == Shr(Shr(v, j), k)
    decreases j
  {
    if j > 0 {
      ShrAdd(v / 2, j - 1, k);
    }
  }

  /** A field of two parts, below another field. */
  lemma {:induction false} Rejoin(a: nat, aBits: nat, b: nat, bBits: nat, c: nat)
    ensures Join(Join(a, aBits, b), aBits + bBits, c) == Join(a, aBits, Join(b, bBits, c))
  {
    hide Pow2;
    Pow2Add(aBits, bBits);
    Assoc(Pow2(aBits), Pow2(bBits), c);
    Distribute(Pow2(aBits), b, Pow2(bBits) * c);
  }

  lemma {:induction false} JoinBelow(a: nat, aBits: nat, b: nat, bBits: nat)
    requires a < Pow2(aBits) && b < Pow2(bBits)
    ensures Join(a, aBits, b) < Pow2(aBits + bBits)
  {
    hide Pow2;
    Pow2Add(aBits, bBits);
    RoomBelow(a, b, Pow2(aBits), Pow2(bBits));
  }

  /** The lower part of a field is read by a narrower mask. */
  lemma {:induction false} LowPart(a: nat, aBits: nat, b: nat, bBits: nat, c: nat)
    requires a < Pow2(aBits)
    ensures And(Join(Join(a, aBits, b), aBits + bBits, c), Pow2(aBits) - 1) == a
  {
    hide And, Pow2, Join;
    Rejoin(a, aBits, b, bBits, c);
    LowField(a, Join(b, bBits, c), aBits);
  }

  /** A target split into low bits and top byte is put together again. */
  lemma TopByteJoined(target: nat)
    requires target < U64
    ensures Or(target % TOP_BYTE, Shl64(target / TOP_BYTE, 56)) == target
  {
    hide Or, Pow2;
    Widths();
    var high8 := target / TOP_BYTE;
    OrDisjoint(target % TOP_BYTE, high8, 56);
    ModEdges(high8 * TOP_BYTE, U64);
  }

  lemma TopBits(d: nat)
    requires d < 4
    ensures And(Shr(d, 0), 1) == d % 2 && And(Shr(d, 1), 1) == d / 2
  {
    Pow2Small();
    AndLowMask(d, 1);
    AndLowMask(d / 2, 1);
    assert Pow2(1) == 2;
  }

  lemma {:induction false} StampFits(s: Signature)
    requires SignatureFits(s)
    ensures Stamp(s) < Pow2(19)
  {
    hide Pow2;
    Widths();
    Pow2Small();
  }

  lemma {:induction false} RoundTrip64(p: Pointer, steps: nat)
    requires Encodable(Ptr64, p) && steps < 0x1000
    ensures Decode64(Encode(Ptr64, p, steps)) == Link(steps * 4, p.Entry())
  {
    hide And, Shr, Or, Shl64, Pow2, Join;
    Widths();
    Pow2Small();
    var v := Encode(Ptr64, p, steps);
    match p
    case PlainRebase(target, spare) =>
      var low, high8 := target % TOP_BYTE, target / TOP_BYTE;
      JoinBelow(high8, 8, spare, 7);
      PackFields(low, 36, Join(high8, 8, spare), 15, steps, 12, 0);
      ShrMeaning(low, Join(Join(high8, 8, spare), 15, Join(steps, 12, 0)), 36);
      LowPart(high8, 8, spare, 7, Join(steps, 12, 0));
      TopByteJoined(target);
      TopBits(0);
      ShrAdd(v, 63, 0);
    case PlainBind(ordinal, addend, spare) =>
      JoinBelow(addend, 8, spare, 19);
      PackFields(ordinal, 24, Join(addend, 8, spare), 27, steps, 12, 1);
      ShrMeaning(ordinal, Join(Join(addend, 8, spare), 27, Join(steps, 12, 1)), 24);
      LowPart(addend, 8, spare, 19, Join(steps, 12, 1));
      TopBits(1);
      ShrAdd(v, 63, 0);
  }

  /** A bind of either kind, in the formats of signed pointers: its fields, its ordinal, its two top bits. */
  lemma {:induction false} BindFields(f: Format, ordinal: nat, spare: nat, b: nat, steps: nat, d: nat)
    requires !f.Ptr64? && ordinal < Pow2(OrdinalBits(f)) && spare < Pow2(SpareBits(f)) && b < Pow2(19)
    requires steps < 0x800 && d < 4
    ensures var v := Pack(Join(ordinal, OrdinalBits(f), spare), 32, b, 19, steps, 11, d);
      && And(v, Pow2(OrdinalBits(f)) - 1) == ordinal && And(Shr(v, 32), Pow2(19) - 1) == b
      && And(Shr(v, 51), Pow2(11) - 1) == steps && And(Shr(v, 62), 1) == d % 2 && And(Shr(v, 63), 1) == d / 2
  {
    hide And, Shr, Pow2, Join;
    Widths();
    var a := Join(ordinal, OrdinalBits(f), spare);
    var v := Pack(a, 32, b, 19, steps, 11, d);
    JoinBelow(ordinal, OrdinalBits(f), spare, SpareBits(f));
    PackFields(a, 32, b, 19, steps, 11, d);
    LowPart(ordinal, OrdinalBits(f), spare, SpareBits(f), Join(b, 19, Join(steps, 11, d)));
    TopBits(d);
    ShrAdd(v, 62, 0);
    ShrAdd(v, 62, 1);
  }

  /** A rebase, in the formats of signed pointers: its two top bits, the lower one 0. */
  lemma {:induction false} RebaseFields(a: nat, aBits: nat, b: nat, bBits: nat, steps: nat, d: nat)
    requires aBits + bBits == 51 && a < Pow2(aBits) && b < Pow2(bBits) && steps < 0x800 && d < 4
    ensures var v := Pack(a, aBits, b, bBits, steps, 11, d);
      && And(v, Pow2(aBits) - 1) == a && And(Shr(v, aBits), Pow2(bBits) - 1) == b
      && And(Shr(v, 51), Pow2(11) - 1) == steps && And(Shr(v, 62), 1) == d % 2 && And(Shr(v, 63), 1) == d / 2
  {
    hide And, Shr, Pow2, Join;
    Widths();
    var v := Pack(a, aBits, b, bBits, steps, 11, d);
    PackFields(a, aBits, b, bBits, steps, 11, d);
    TopBits(d);
    ShrAdd(v, 62, 0);
    ShrAdd(v, 62, 1);
  }

  lemma {:induction false} RoundTripArm64e(f: Format, p: Pointer, steps: nat)
    requires !f.Ptr64? && Encodable(f, p) && steps < 0x800 && (f.Userland24? ==> !p.Entry().BindTo?)
    ensures DecodeArm64e(Encode(f, p, steps)) == Link(steps * 8, p.Entry())
  {
    hide And, Shr, Or, Shl64, Pow2, Join, Stamp;
    Widths();
    match p
    case PlainRebase(target, _) =>
      RebaseFields(target % TOP_BYTE, 43, target / TOP_BYTE, 8, steps, 0);
      TopByteJoined(target);
    case PlainBind(ordinal, addend, spare) => BindFields(f, ordinal, spare, addend, steps, 1);
    case SignedRebase(target, signature) =>
      StampFits(signature);
      RebaseFields(target, 32, Stamp(signature), 19, steps, 2);
    case SignedBind(ordinal, signature, spare) =>
      StampFits(signature);
      BindFields(f, ordinal, spare, Stamp(signature), steps, 3);
  }

  lemma {:induction false} RoundTripUserland24(p: Pointer, steps: nat)
    requires Encodable(Userland24, p) && steps < 0x800
    ensures DecodeUserland24(Encode(Userland24, p, steps)) == Link(steps * 8, p.Entry())
  {
    hide And, Shr, Or, Shl64, Pow2, Join, Stamp, DecodeArm64e;
    Widths();
    match p
    case PlainRebase(target, _) =>
      RoundTripArm64e(Userland24, p, steps);
      RebaseFields(target % TOP_BYTE, 43, target / TOP_BYTE, 8, steps, 0);
    case PlainBind(ordinal, addend, spare) => BindFields(Userland24, ordinal, spare, addend, steps, 1);
    case SignedRebase(target, signature) =>
      StampFits(signature);
      RoundTripArm64e(Userland24, p, steps);
      RebaseFields(target, 32, Stamp(signature), 19, steps, 2);
    case SignedBind(ordinal, signature, spare) =>
      StampFits(signature);
      BindFields(Userland24, ordinal, spare, Stamp(signature), steps, 3);
  }

  /**
   Every pointer a format can hold, signed or not, with every distance its `next` field can hold, reads
   back as what it asks for.
   */
  lemma {:induction false} WordRoundTrip(f: Format, p: Pointer, steps: nat)
    requires Encodable(f, p) && steps < NextLimit(f)
    ensures Decode(f, Encode(f, p, steps)) == Link(steps * Stride(f), p.Entry())
    ensures Encode(f, p, steps) < U64
  {
    hide Decode64, DecodeArm64e, DecodeUserland24, Encode, Encodable;
    WordFits(f, p, steps);
    match f
    case Ptr64 => RoundTrip64(p, steps);
    case Arm64e => RoundTripArm64e(Arm64e, p, steps);
    case Userland24 => RoundTripUserland24(p, steps);
  }

  lemma {:induction false} WordFits(f: Format, p: Pointer, steps: nat)
    requires Encodable(f, p) && steps < NextLimit(f)
    ensures Encode(f, p, steps) < U64
  {
    hide Pow2;
    Widths();
    Pow2Small();
  }

  // ----- every word is an encoding -----

  /** The fields of a word, and what remains above them. */
  lemma {:induction false} Unpack(v: nat, aBits: nat, bBits: nat, cBits: nat) returns (a: nat, b: nat, c: nat, d: nat)
    ensures v == Pack(a, aBits, b, bBits, c, cBits, d)
    ensures a < Pow2(aBits) && b < Pow2(bBits) && c < Pow2(cBits) && d == v / Pow2(aBits + bBits + cBits)
  {
    hide Pow2, Join;
    var rest;
    a, rest := Peel(v, aBits);
    b, rest := Peel(rest, bBits);
    c, d := Peel(rest, cBits);
    PackTop(a, aBits, b, bBits, c, cBits, d);
  }

  lemma {:induction false} Peel(v: nat, bits: nat) returns (low: nat, high: nat)
    ensures v == Join(low, bits, high) && low < Pow2(bits) && high == v / Pow2(bits)
  {
    hide Pow2;
    low, high := v % Pow2(bits), v / Pow2(bits);
  }

  lemma {:induction false} PackTop(a: nat, aBits: nat, b: nat, bBits: nat, c: nat, cBits: nat, d: nat)
    requires a < Pow2(aBits) && b < Pow2(bBits) && c < Pow2(cBits)
    ensures Pack(a, aBits, b, bBits, c, cBits, d) / Pow2(aBits + bBits + cBits) == d
  {
    hide Pow2, Join;
    Rejoin(b, bBits, c, cBits, d);
    Rejoin(a, aBits, Join(b, bBits, c), bBits + cBits, d);
    JoinBelow(b, bBits, c, cBits);
    JoinBelow(a, aBits, Join(b, bBits, c), bBits + cBits);
    TopOf(Join(a, aBits, Join(b, bBits, c)), aBits + (bBits + cBits), d);
  }

  lemma {:induction false} TopOf(low: nat, bits: nat, high: nat)
    requires low < Pow2(bits)
    ensures Join(low, bits, high) / Pow2(bits) == high && Join(low, bits, high) % Pow2(bits) == low
  {
    hide Pow2;
    DivModUnique(Join(low, bits, high), Pow2(bits), high, low);
  }

  lemma {:induction false} Split(v: nat, bits: nat, more: nat) returns (low: nat, high: nat)
    requires v < Pow2(bits + more)
    ensures v == Join(low, bits, high) && low < Pow2(bits) && high < Pow2(more)
  {
    hide Pow2, Join;
    Pow2Add(bits, more);
    low, high := Peel(v, bits);
    DivBelow(v, Pow2(bits), Pow2(more));
  }

  lemma {:induction false} DivBelow(v: nat, p: nat, q: nat)
    requires p > 0 && v < p * q
    ensures v / p < q
  {
    if v / p >= q {
      MulMonotone(p, q, v / p);
    }
  }

  lemma {:induction false} SignatureOf(stamp: nat) returns (s: Signature)
    requires stamp < Pow2(19)
    ensures SignatureFits(s) && Stamp(s) == stamp
  {
    hide Pow2;
    Widths();
    Pow2Small();
    var diversity, rest := Split(stamp, 16, 3);
    s := Signature(diversity, rest % 2 == 1, rest / 2);
  }

  lemma {:induction false} TargetOf(low: nat, high8: nat)
    requires low < TOP_BYTE && high8 < 0x100
    ensures (low + TOP_BYTE * high8) % TOP_BYTE == low && (low + TOP_BYTE * high8) / TOP_BYTE == high8
    ensures low + TOP_BYTE * high8 < U64
  {
    DivModUnique(low + TOP_BYTE * high8, TOP_BYTE, high8, low);
  }

  lemma {:induction false} EveryWord64(v: nat) returns (p: Pointer, steps: nat)
    requires v < U64
    ensures Encodable(Ptr64, p) && steps < NextLimit(Ptr64) && v == Encode(Ptr64, p, steps)
  {
    hide Pow2, Join;
    Widths();
    Pow2Small();
    var a, b, c, d := Unpack(v, 36, 15, 12);
    if d == 0 {
      var high8, spare := Split(b, 8, 7);
      TargetOf(a, high8);
      p, steps := PlainRebase(a + TOP_BYTE * high8, spare), c;
    } else {
      a, b, c, d := Unpack(v, 24, 27, 12);
      var addend, spare := Split(b, 8, 19);
      p, steps := PlainBind(a, addend, spare), c;
    }
  }

  lemma {:induction false} EveryWordSigned(f: Format, v: nat) returns (p: Pointer, steps: nat)
    requires v < U64 && !f.Ptr64?
    ensures Encodable(f, p) && steps < NextLimit(f) && v == Encode(f, p, steps)
  {
    hide Pow2, Join, Stamp;
    Widths();
    Pow2Small();
    var a, b, c, d := Unpack(v, 32, 19, 11);
    var signature := SignatureOf(b);
    var ordinal, spare := Split(a, OrdinalBits(f), SpareBits(f));
    if d == 0 {
      a, b, c, d := Unpack(v, 43, 8, 11);
      TargetOf(a, b);
      p, steps := PlainRebase(a + TOP_BYTE * b, 0), c;
    } else if d == 1 {
      p, steps := PlainBind(ordinal, b, spare), c;
    } else if d == 2 {
      p, steps := SignedRebase(a, signature), c;
    } else {
      p, steps := SignedBind(ordinal, signature, spare), c;
    }
  }

  /**
   Conversely, every 64-bit word encodes some pointer and distance of its format: decoding is settled on all
   words.
   */
  lemma {:induction false} EveryWord(f: Format, v: nat) returns (p: Pointer, steps: nat)
    requires v < U64
    ensures Encodable(f, p) && steps < NextLimit(f) && v == Encode(f, p, steps)
    ensures Decode(f, v) == Link(steps * Stride(f), p.Entry())
  {
    hide Encode, Encodable, Decode;
    if f.Ptr64? {
      p, steps := EveryWord64(v);
    } else {
      p, steps := EveryWordSigned(f, v);
    }
    WordRoundTrip(f, p, steps);
  }

  /** The entries and distances that come out of decoding lie within what the fields can hold. */
  lemma {:induction false} DecodedEncodable(f: Format, v: nat)
    requires v < U64
    ensures var link := Decode(f, v);
      && link.next % Stride(f) == 0 && link.next / Stride(f) < NextLimit(f)
      && match link.entry
         case RebaseTo(target) => target < U64 && target % TOP_BYTE < Pow2(TargetBits(f))
         case BindTo(ordinal, addend, isAuth) =>
           && ordinal < Pow2(OrdinalBits(f)) && (isAuth ==> addend == 0 && !f.Ptr64?)
           && addend < (if f.Ptr64? then 0x100 else 0x8_0000)
  {
    hide Encode, Decode, Pow2;
    Widths();
    var p, steps := EveryWord(f, v);
    if p.SignedRebase? {
      ModEdges(p.target, TOP_BYTE);
    }
  }
}
