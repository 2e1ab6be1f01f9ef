/** Caches, byte by byte in memory, on which the translation of addresses goes wrong. */
module CacheWitnesses {
  import opened Prelude
  import opened Bits
  import opened Bytes
  import opened SharedCache

  /** A subcache of which one mapping covers the bytes from its base. */
  function Single(pointer: nat, base: nat, size: nat): SubCache {
    SubCache(pointer, size, base, HEADER_ROOM, [Mapping(base, size, 0)])
  }

  /** Room for a header and a table of one mapping. */
  const SMALLEST: nat := HEADER_ROOM + MAPPING_SIZE

  lemma {:induction false} SingleFinds(pointer: nat, base: nat, size: nat, address: nat)
    requires address >= base && size >= SMALLEST
    ensures RuntimeOffsetForVmAddress(Single(pointer, base, size), address)
         == Ok(if address < base + size then Some(address - base) else None)
    ensures Covers(Single(pointer, base, size), address) <==> address < base + size
  {
    var s := Single(pointer, base, size);
    assert EntryInside(s, 0);
    if address < base + size {
      assert s.mappings[0] in s.mappings && HasAddress(s.mappings[0], address);
    } else {
      assert MappingOf(s, 1, address) == Ok(None);
    }
  }

  lemma SingleStarts(pointer: nat, base: nat, size: nat)
    ensures StartsAtBase(Single(pointer, base, size))
  {}

  lemma {:induction false} LocateSkips(subs: seq<SubCache>, index: nat, address: nat, i: nat)
    requires index <= i < |subs|
          && forall j :: index <= j < i ==> RuntimeOffsetForVmAddress(subs[j], address) == Ok(None)
    ensures Locate(subs, index, address) == Locate(subs, i, address)
    decreases i - index
  {
    hide RuntimeOffsetForVmAddress;
    if index < i {
      LocateSkips(subs, index + 1, address, i);
    }
  }

  // ----- words of memory -----

  lemma {:induction false} WordIs(memory: Memory, at: nat, n: nat, v: nat)
    requires View(memory, at, n) == Encode(v, n) && v < Limit(n)
    ensures Word(memory, at, n) == v
  {
    ValueOfEncode(v, n);
  }

  lemma {:induction false} ZeroWord(memory: Memory, at: nat, n: nat)
    requires forall i :: at <= i < at + n ==> memory(i) == 0
    ensures Word(memory, at, n) == 0
    decreases n
  {
    if n > 0 {
      assert View(memory, at, n)[1..] == View(memory, at + 1, n - 1);
      ZeroWord(memory, at + 1, n - 1);
    }
  }

  lemma {:induction false} SmallWords()
    ensures Encode(1, 4) == [1, 0, 0, 0] && Encode(256, 4) == [0, 1, 0, 0]
    ensures Encode(552, 4) == [0x28, 0x02, 0, 0] && Encode(1000, 4) == [0xE8, 0x03, 0, 0]
  {}

  lemma {:induction false} WideWords()
    ensures Encode(1000, 8) == [0xE8, 0x03, 0, 0, 0, 0, 0, 0] && Encode(20000, 8) == [0x20, 0x4E, 0, 0, 0, 0, 0, 0]
  {}

  /** A header at `pointer` counts one mapping, right behind the header. */
  predicate HeadsOne(memory: Memory, pointer: nat, base: nat, size: nat) {
    && Word(memory, pointer + 16, 4) == 552 && Word(memory, pointer + 20, 4) == 1
    && Word(memory, pointer + 552, 8) == base && Word(memory, pointer + 560, 8) == size
    && Word(memory, pointer + 568, 8) == 0
  }

  lemma {:induction false} SingleRead(memory: Memory, pointer: nat, base: nat, size: nat)
    requires HeadsOne(memory, pointer, base, size) && size >= SMALLEST
    ensures TotalLength(memory, pointer) == Ok(size) && TableBase(memory, pointer) == base
          && UnslidBase(memory, pointer) == Ok(base)
    ensures FromRuntimeMapping(memory, pointer, size, base) == Ok(Single(pointer, base, size))
  {
    hide Word, MappedEnd, Minus;
    assert MappingAt(memory, pointer + 552) == Mapping(base, size, 0);
    assert Mappings(memory, pointer) == [Mapping(base, size, 0)];
    SingleEnd(base, size);
  }

  lemma {:induction false} SingleEnd(base: nat, size: nat)
    ensures MappedEnd([Mapping(base, size, 0)], base) == size
  {
    hide MappedEnd;
    MappedEndStep([Mapping(base, size, 0)], base, 0);
    assert [Mapping(base, size, 0)][..1] == [Mapping(base, size, 0)] && [Mapping(base, size, 0)][..0] == [];
    NothingMapped(base);
  }

  // ----- a cache built for another base -----

  /** A cache that was built for address 0, of one mapping of 1000 bytes. */
  function ZeroBased(pointer: nat): Memory {
    (at: nat) =>
      if at == pointer + 16 then 0x28 else if at == pointer + 17 then 0x02
      else if at == pointer + 20 then 1
      else if at == pointer + 560 then 0xE8 else if at == pointer + 561 then 0x03
      else 0
  }

  lemma {:induction false} ZeroBasedHeads(pointer: nat)
    ensures HeadsOne(ZeroBased(pointer), pointer, 0, 1000) && SubCacheCount(ZeroBased(pointer), pointer) == 0
  {
    hide Word, Value, Encode, Limit;
    var m := ZeroBased(pointer);
    Limits();
    SmallWords();
    WideWords();
    WordIs(m, pointer + 16, 4, 552);
    WordIs(m, pointer + 20, 4, 1);
    WordIs(m, pointer + 560, 8, 1000);
    ZeroWord(m, pointer + 396, 4);
    ZeroWord(m, pointer + 552, 8);
    ZeroWord(m, pointer + 568, 8);
  }

  lemma {:induction false} ZeroBasedAttached(pointer: nat)
    ensures Attach(ZeroBased(pointer), pointer) == ([Single(pointer, 0, 1000)], Ok(()))
    ensures TableBase(ZeroBased(pointer), pointer) == 0
  {
    hide Attach, AttachFrom, SubCacheCount, ZeroBased, HeadsOne, TableBase;
    var memory, main := ZeroBased(pointer), Single(pointer, 0, 1000);
    ZeroBasedHeads(pointer);
    SingleRead(memory, pointer, 0, 1000);
    AttachStep(memory, main, 0);
    AttachedAll(memory, pointer, 0, 1000, []);
    assert [main] + [] == [main];
  }

  /** A cache built for address 0 attaches, and for address 0 the two routes differ by the assumed constant. */
  lemma {:induction false} BaseMatters()
    ensures var pointer := LIKELY_UNSLID_ADDRESS;
      var c := AttachedCache(ZeroBased(pointer), pointer);
      && Attach(ZeroBased(pointer), pointer).1.Ok? && AllStartAtBase(c.subCaches)
      && TableBase(ZeroBased(pointer), pointer) == 0
      && Locate(c.subCaches, 0, 0) == Ok(Some((0, 0))) && c.subCaches[0].pointer == pointer
      && Translate(c, 0) == Ok(0)
  {
    hide Attach, RuntimeOffsetForVmAddress, StartsAtBase, ZeroBased, TableBase;
    var pointer := LIKELY_UNSLID_ADDRESS;
    ZeroBasedAttached(pointer);
    SingleFinds(pointer, 0, 1000, 0);
    SingleStarts(pointer, 0, 1000);
  }

  // ----- a cache of more than 256 subcaches -----

  /**
   A cache of 256 further subcaches: the first 255 entries of the array place them at the main cache
   itself, the last one 20000 bytes behind it.
   */
  function Crowded(): Memory {
    (at: nat) =>
      if at == 16 || at == 20016 then 0x28 else if at == 17 || at == 20017 then 0x02
      else if at == 20 || at == 20020 then 1
      else if at == 392 then 0xE8 else if at == 393 then 0x03           // the array stands at 1000
      else if at == 397 then 1                                          // and has 256 entries
      else if at == 560 || at == 15296 || at == 20552 then 0x20
      else if at == 561 || at == 15297 || at == 20553 then 0x4E
      else if at == 20560 then 0xE8 else if at == 20561 then 0x03
      else 0
  }

  lemma {:induction false} CrowdedHeads()
    ensures HeadsOne(Crowded(), 0, 0, 20000) && HeadsOne(Crowded(), 20000, 20000, 1000)
  {
    hide Word, Value, Encode, Limit;
    var m := Crowded();
    Limits();
    SmallWords();
    WideWords();
    WordIs(m, 16, 4, 552);
    WordIs(m, 20016, 4, 552);
    WordIs(m, 20, 4, 1);
    WordIs(m, 20020, 4, 1);
    ZeroWord(m, 552, 8);
    WordIs(m, 560, 8, 20000);
    ZeroWord(m, 568, 8);
    WordIs(m, 20552, 8, 20000);
    WordIs(m, 20560, 8, 1000);
    ZeroWord(m, 20568, 8);
  }

  lemma {:induction false} CrowdedArray()
    ensures SubCacheCount(Crowded(), 0) == 256 && Word(Crowded(), 392, 4) == 1000 && Word(Crowded(), 15296, 8) == 20000
  {
    hide Word, Value, Encode, Limit;
    Limits();
    SmallWords();
    WideWords();
    WordIs(Crowded(), 396, 4, 256);
    WordIs(Crowded(), 392, 4, 1000);
    WordIs(Crowded(), 15296, 8, 20000);
  }

  /** What each entry of the array places. */
  function CrowdedAt(index: nat): SubCache {
    if index < 255 then Single(0, 0, 20000) else Single(20000, 20000, 1000)
  }

  lemma {:induction false} CrowdedEntry(index: nat)
    requires index < 256
    ensures SubCacheAt(Crowded(), Single(0, 0, 20000), index) == Ok(CrowdedAt(index))
  {
    hide Word, Crowded, TotalLength, FromRuntimeMapping, HeadsOne;
    CrowdedHeads();
    CrowdedArray();
    if index < 255 {
      CrowdedZero(1016 + index * 56);
      SingleRead(Crowded(), 0, 0, 20000);
    } else {
      SingleRead(Crowded(), 20000, 20000, 1000);
    }
  }

  lemma {:induction false} CrowdedZero(at: nat)
    requires 1016 <= at <= 15240
    ensures Word(Crowded(), at, 8) == 0
  {
    hide Word;
    ZeroWord(Crowded(), at, 8);
  }

  function CrowdedFrom(index: nat): (r: seq<SubCache>)
    requires index <= 256
    ensures |r| == 256 - index && forall i :: 0 <= i < |r| ==> r[i] == CrowdedAt(index + i)
  {
    seq(256 - index, i requires 0 <= i < 256 - index => CrowdedAt(index + i))
  }

  lemma {:induction false} CrowdedAttachedFrom(index: nat)
    requires index <= 256
    ensures SubCacheCount(Crowded(), 0) == 256
    ensures AttachFrom(Crowded(), Single(0, 0, 20000), index) == (CrowdedFrom(index), Ok(()))
    decreases 256 - index
  {
    hide AttachFrom, SubCacheAt, Crowded, SubCacheCount, CrowdedAt;
    CrowdedArray();
    AttachStep(Crowded(), Single(0, 0, 20000), index);
    if index < 256 {
      CrowdedEntry(index);
      CrowdedAttachedFrom(index + 1);
      assert CrowdedFrom(index) == [CrowdedAt(index)] + CrowdedFrom(index + 1);
    }
  }

  /** Attaching a main cache and then what its array lists. */
  lemma {:induction false} AttachedAll(memory: Memory, pointer: nat, base: nat, size: nat, rest: seq<SubCache>)
    requires HeadsOne(memory, pointer, base, size) && size >= SMALLEST
    requires AttachFrom(memory, Single(pointer, base, size), 0) == (rest, Ok(()))
    ensures Attach(memory, pointer) == ([Single(pointer, base, size)] + rest, Ok(()))
  {
    hide AttachFrom, TotalLength, UnslidBase, FromRuntimeMapping, HeadsOne;
    SingleRead(memory, pointer, base, size);
  }

  lemma {:induction false} CrowdedAttached()
    ensures Attach(Crowded(), 0) == ([Single(0, 0, 20000)] + CrowdedFrom(0), Ok(()))
  {
    hide AttachFrom, Crowded, HeadsOne, CrowdedFrom, Attach;
    CrowdedHeads();
    CrowdedAttachedFrom(0);
    AttachedAll(Crowded(), 0, 0, 20000, CrowdedFrom(0));
  }

  /** Attached from memory, of 257 subcaches the last covers an address, and the first, which does not, is reported. */
  lemma {:induction false} IndexWraps()
    ensures var (subs, r) := Attach(Crowded(), 0);
      && r.Ok? && |subs| == 257 && Locate(subs, 0, 20000) == Ok(Some((0, 0)))
      && Covers(subs[256], 20000) && !Covers(subs[0], 20000)
  {
    hide Attach, Crowded, Covers, RuntimeOffsetForVmAddress, Locate, Single;
    CrowdedAttached();
    var subs := Attach(Crowded(), 0).0;
    SingleFinds(0, 0, 20000, 20000);
    SingleFinds(20000, 20000, 1000, 20000);
    forall j | 0 <= j < 256
      ensures subs[j] == Single(0, 0, 20000)
    {
      assert j > 0 ==> subs[j] == CrowdedFrom(0)[j - 1];
    }
    assert subs[256] == CrowdedFrom(0)[255] == Single(20000, 20000, 1000);
    LocateSkips(subs, 0, 20000, 256);
    LocateHere(subs, 256, 20000);
  }

  lemma {:induction false} LocateHere(subs: seq<SubCache>, index: nat, address: nat)
    requires index < |subs| && RuntimeOffsetForVmAddress(subs[index], address).Ok?
    requires RuntimeOffsetForVmAddress(subs[index], address).value.Some?
    ensures Locate(subs, index, address)
          == Ok(Some((index % 256, RuntimeOffsetForVmAddress(subs[index], address).value.value)))
  {}
}
