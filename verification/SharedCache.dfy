/**
 The shared cache: attaching its subcaches, indexing its libraries, translating addresses through its mapping
 tables.
 */
module SharedCache {
  import opened Prelude
  import opened Bits
  import opened Bytes
  import opened CStrings

  /** The unslid address the linker assumes the main cache was built for. */
  const LIKELY_UNSLID_ADDRESS: nat := 0x1_8000_0000

  /** What reading a header takes; in memory its type takes four bytes more, of padding. */
  const HEADER_SIZE: nat := 548
  const HEADER_ROOM: nat := 552
  const MAPPING_SIZE: nat := 32
  const SUBCACHE_ENTRY_SIZE: nat := 56
  const IMAGE_SIZE: nat := 32

  /** The address space the cache is mapped into. */
  type Memory = nat -> Byte

  datatype Mapping = Mapping(address: nat, size: nat, fileOffset: nat)

  /**
   One mapped subcache: where it is, how long, the unslid address of its start, where its mapping table stands,
   the table.
   */
  datatype SubCache = SubCache(pointer: nat, length: nat, base: nat, table: nat, mappings: seq<Mapping>)

  datatype Cache = Cache(subCaches: seq<SubCache>, slide: nat)

  datatype CachedLibrary = CachedLibrary(subCacheIndex: nat, headerOffset: nat, path: seq<Byte>, loadAddress: nat)

  // ----- memory -----

  function View(memory: Memory, pointer: nat, length: nat): (s: seq<Byte>)
    ensures |s| == length
  {
    seq(length, i requires 0 <= i < length => memory(pointer + i))
  }

  function Word(memory: Memory, at: nat, n: nat): nat {
    Value(View(memory, at, n))
  }

  function MappingAt(memory: Memory, at: nat): Mapping {
    Mapping(Word(memory, at, 8), Word(memory, at + 8, 8), Word(memory, at + 16, 8))
  }

  /** The fields used of the header at `pointer`. */
  function TableOffset(memory: Memory, pointer: nat): nat {
    Word(memory, pointer + 16, 4)
  }

  function TableCount(memory: Memory, pointer: nat): nat {
    Word(memory, pointer + 20, 4)
  }

  function SubCacheCount(memory: Memory, pointer: nat): nat {
    Word(memory, pointer + 396, 4)
  }

  function ImageCount(memory: Memory, pointer: nat): nat {
    Word(memory, pointer + 452, 4)
  }

  /** Where entry `index` of the subcache array, and of the image table, stands in the main cache. */
  function SubCacheEntry(memory: Memory, pointer: nat, index: nat): nat {
    Word(memory, pointer + 392, 4) + index * SUBCACHE_ENTRY_SIZE
  }

  function ImageEntry(memory: Memory, pointer: nat, index: nat): nat {
    Word(memory, pointer + 448, 4) + index * IMAGE_SIZE
  }

  function Mappings(memory: Memory, pointer: nat): (ms: seq<Mapping>)
    ensures |ms| == TableCount(memory, pointer)
    ensures |ms| > 0 ==> ms[0].address == TableBase(memory, pointer)
  {
    var table := pointer + TableOffset(memory, pointer);
    seq(TableCount(memory, pointer), i requires 0 <= i < TableCount(memory, pointer) =>
        MappingAt(memory, table + i * MAPPING_SIZE))
  }

  /** The address of the mapping that stands first in the table's place, whether the table is empty or not. */
  function TableBase(memory: Memory, pointer: nat): nat {
    MappingAt(memory, pointer + TableOffset(memory, pointer)).address
  }

  // ----- translations -----

  /** Unsigned subtraction of a release build. */
  function Minus(a: nat, b: nat): nat {
    if a >= b then a - b else (a - b) % U64
  }

  predicate HasAddress(m: Mapping, address: nat) {
    m.address <= address < m.address + m.size
  }

  predicate HasFileOffset(m: Mapping, offset: nat) {
    m.fileOffset <= offset < m.fileOffset + m.size
  }

  /** Entry `i` of the table can be read within the subcache. */
  predicate EntryInside(s: SubCache, i: nat) {
    s.table + (i + 1) * MAPPING_SIZE <= s.length
  }

  /** The first mapping from `i` on that covers the address; an entry outside the subcache panics when it is reached. */
  function MappingOf(s: SubCache, i: nat, address: nat): (r: Outcome<Option<Mapping>>)
    ensures r != Err
    ensures r.Ok? && r.value.Some? ==> r.value.value in s.mappings && HasAddress(r.value.value, address)
    ensures r.Ok? && r.value.None? ==> forall j :: i <= j < |s.mappings| ==> !HasAddress(s.mappings[j], address)
    decreases |s.mappings| - i
  {
    if i >= |s.mappings| then Ok(None)
    else if !EntryInside(s, i) then Panic
    else if HasAddress(s.mappings[i], address) then Ok(Some(s.mappings[i]))
    else MappingOf(s, i + 1, address)
  }

  /**
   Looking an address up panics exactly when the table leaves the subcache and none of the entries inside
   covers the address.
   */
  lemma {:induction false} TablePanics(s: SubCache, i: nat, address: nat)
    ensures MappingOf(s, i, address) == Panic
       <==> && i < |s.mappings| && !EntryInside(s, |s.mappings| - 1)
            && forall j :: i <= j < |s.mappings| && EntryInside(s, j) ==> !HasAddress(s.mappings[j], address)
    decreases |s.mappings| - i
  {
    if i < |s.mappings| && EntryInside(s, i) && !HasAddress(s.mappings[i], address) {
      TablePanics(s, i + 1, address);
    }
  }

  function MappingOfFile(s: SubCache, i: nat, offset: nat): (r: Outcome<Option<Mapping>>)
    ensures r.Ok? && r.value.Some? ==> r.value.value in s.mappings && HasFileOffset(r.value.value, offset)
    ensures r.Ok? && r.value.None? ==> forall j :: i <= j < |s.mappings| ==> !HasFileOffset(s.mappings[j], offset)
    decreases |s.mappings| - i
  {
    if i >= |s.mappings| then Ok(None)
    else if !EntryInside(s, i) then Panic
    else if HasFileOffset(s.mappings[i], offset) then Ok(Some(s.mappings[i]))
    else MappingOfFile(s, i + 1, offset)
  }

  function RuntimeOffsetForVmAddress(s: SubCache, address: nat): Outcome<Option<nat>> {
    var m :- MappingOf(s, 0, address);
    Ok(if m.None? then None else Some(Minus(address, s.base)))
  }

  function RuntimeOffsetForFileOffset(s: SubCache, offset: nat): Outcome<Option<nat>> {
    var m :- MappingOfFile(s, 0, offset);
    Ok(if m.None? then None else Some(Minus(m.value.address, s.base) + (offset - m.value.fileOffset)))
  }

  function VmAddressForFileOffset(s: SubCache, offset: nat): Outcome<Option<nat>> {
    var m :- MappingOfFile(s, 0, offset);
    Ok(if m.None? then None else Some(m.value.address + (offset - m.value.fileOffset)))
  }

  /** The first subcache that covers the address, its index cut to a byte, and the offset in it. */
  function Locate(subs: seq<SubCache>, index: nat, address: nat): (r: Outcome<Option<(nat, nat)>>)
    requires index <= |subs|
    ensures r != Err && (r.Ok? && r.value.Some? ==> r.value.value.0 < |subs| && r.value.value.0 < 256)
    decreases |subs| - index
  {
    if index == |subs| then Ok(None)
    else
      var offset :- RuntimeOffsetForVmAddress(subs[index], address);
      if offset.Some? then Ok(Some((index % 256, offset.value))) else Locate(subs, index + 1, address)
  }

  function Translate(c: Cache, address: nat): Outcome<nat> {
    var found :- Locate(c.subCaches, 0, address);
    if found.None? then Err else Ok(address + c.slide)
  }

  predicate Covers(s: SubCache, address: nat) {
    exists m :: m in s.mappings && HasAddress(m, address)
  }

  // ----- attaching -----

  /** The end of the mappings, measured from `base`. */
  function MappedEnd(ms: seq<Mapping>, base: nat): (r: nat)
    ensures forall m :: m in ms ==> Minus(m.address, base) + m.size <= r
    ensures r == 0 || exists m :: m in ms && Minus(m.address, base) + m.size == r
  {
    if ms == [] then 0
    else
      var rest, end := MappedEnd(ms[..|ms| - 1], base), Minus(ms[|ms| - 1].address, base) + ms[|ms| - 1].size;
      assert forall m :: m in ms ==> m in ms[..|ms| - 1] || m == ms[|ms| - 1];
      assert ms[|ms| - 1] in ms;
      if end > rest then end else rest
  }

  lemma MappingsAt(memory: Memory, pointer: nat, i: nat)
    requires i < TableCount(memory, pointer)
    ensures Mappings(memory, pointer)[i]
          == MappingAt(memory, pointer + (TableOffset(memory, pointer) + i * MAPPING_SIZE))
  {}

  lemma NothingMapped(base: nat)
    ensures MappedEnd([], base) == 0
  {}

  lemma MappedEndStep(ms: seq<Mapping>, base: nat, i: nat)
    requires i < |ms|
    ensures var end := Minus(ms[i].address, base) + ms[i].size;
      MappedEnd(ms[..i + 1], base) == if end > MappedEnd(ms[..i], base) then end else MappedEnd(ms[..i], base)
  {
    hide Minus;
    assert ms[..i + 1][..i] == ms[..i];
  }

  /** The first mapping's address, read through a view with room for 32 mappings. */
  function UnslidBase(memory: Memory, pointer: nat): Outcome<nat> {
    if TableOffset(memory, pointer) + MAPPING_SIZE > HEADER_ROOM + 32 * MAPPING_SIZE then Err
    else Ok(TableBase(memory, pointer))
  }

  /** The table, and the mapping in its first place, can be read through a view with room for 64 mappings. */
  predicate TableInView(memory: Memory, pointer: nat) {
    var count := TableCount(memory, pointer);
    TableOffset(memory, pointer) + (if count > 0 then count else 1) * MAPPING_SIZE <= HEADER_ROOM + 64 * MAPPING_SIZE
  }

  function TotalLength(memory: Memory, pointer: nat): Outcome<nat> {
    if TableInView(memory, pointer) then Ok(MappedEnd(Mappings(memory, pointer), TableBase(memory, pointer))) else Err
  }

  method TotalMappedLength(memory: Memory, pointer: nat) returns (r: Outcome<nat>)
    ensures r == TotalLength(memory, pointer)
  {
    hide Word, MappingAt, MappedEnd, Minus, TableOffset, TableCount, Mappings;
    var room := HEADER_ROOM + 64 * MAPPING_SIZE;
    var table, count := TableOffset(memory, pointer), TableCount(memory, pointer);
    if table + MAPPING_SIZE > room {
      return Err;
    }
    var base := MappingAt(memory, pointer + table).address;
    ghost var all := Mappings(memory, pointer);
    var max: nat := 0;
    NothingMapped(base);
    for i := 0 to count
      invariant max == MappedEnd(all[..i], base)
      invariant table + (if i > 0 then i else 1) * MAPPING_SIZE <= room
    {
      var entry := table + i * MAPPING_SIZE;
      if entry + MAPPING_SIZE > room {
        return Err;
      }
      MappingsAt(memory, pointer, i);
      MappedEndStep(all, base, i);
      var mapping := MappingAt(memory, pointer + entry);
      var end := Minus(mapping.address, base) + mapping.size;
      if end > max {
        max := end;
      }
    }
    assert all[..count] == all;
    return Ok(max);
  }

  function FromRuntimeMapping(memory: Memory, pointer: nat, length: nat, base: nat): Outcome<SubCache> {
    if length < HEADER_SIZE then Err
    else Ok(SubCache(pointer, length, base, TableOffset(memory, pointer), Mappings(memory, pointer)))
  }

  /** The subcache that entry `index` of the main cache's array names. */
  function SubCacheAt(memory: Memory, main: SubCache, index: nat): Outcome<SubCache> {
    var entry := SubCacheEntry(memory, main.pointer, index);
    if entry + SUBCACHE_ENTRY_SIZE > main.length then Err
    else
      var offset := Word(memory, main.pointer + entry + 16, 8);
      var length :- TotalLength(memory, main.pointer + offset);
      FromRuntimeMapping(memory, main.pointer + offset, length, main.base + offset)
  }

  /** The subcaches from entry `index` on, up to the first that cannot be attached, and whether there was one. */
  function AttachFrom(memory: Memory, main: SubCache, index: nat): (seq<SubCache>, Outcome<()>)
    requires index <= SubCacheCount(memory, main.pointer)
    decreases SubCacheCount(memory, main.pointer) - index
  {
    if index == SubCacheCount(memory, main.pointer) then ([], Ok(()))
    else
      match SubCacheAt(memory, main, index)
      case Ok(first) => var (rest, r) := AttachFrom(memory, main, index + 1); ([first] + rest, r)
      case Err => ([], Err)
      case Panic => ([], Panic)
  }

  function MainCacheAt(memory: Memory, pointer: nat): Outcome<SubCache> {
    var base :- UnslidBase(memory, pointer);
    var length :- TotalLength(memory, pointer);
    FromRuntimeMapping(memory, pointer, length, base)
  }

  function Attach(memory: Memory, pointer: nat): (seq<SubCache>, Outcome<()>) {
    match MainCacheAt(memory, pointer)
    case Ok(main) => var (rest, r) := AttachFrom(memory, main, 0); ([main] + rest, r)
    case Err => ([], Err)
    case Panic => ([], Panic)
  }

  // ----- indexing -----

  function ImageAddress(memory: Memory, main: SubCache, i: nat): nat {
    Word(memory, main.pointer + ImageEntry(memory, main.pointer, i), 8)
  }

  /** The path at an offset of the main cache: out of bounds, unterminated or not UTF-8, it panics. */
  function PathAt(memory: Memory, main: SubCache, offset: nat): Outcome<seq<Byte>> {
    var bytes := View(memory, main.pointer, main.length);
    if offset > |bytes| then Panic
    else
      match NulAt(bytes, offset)
      case None => Panic
      case Some(n) => if Utf8(bytes[offset..offset + n]) then Ok(bytes[offset..offset + n]) else Panic
  }

  /** Image `i` of the main cache; none if no mapping covers it. */
  function ImageAt(memory: Memory, subs: seq<SubCache>, i: nat): Outcome<Option<CachedLibrary>>
    requires subs != []
  {
    var main := subs[0];
    var entry := ImageEntry(memory, main.pointer, i);
    if entry + IMAGE_SIZE > main.length then Err
    else
      var address := ImageAddress(memory, main, i);
      var place :- Locate(subs, 0, address);
      if place.None? then Ok(None)
      else
        var pathOffset :- RuntimeOffsetForFileOffset(main, Word(memory, main.pointer + entry + 24, 4));
        if pathOffset.None? then Err
        else
          var path :- PathAt(memory, main, pathOffset.value);
          Ok(Some(CachedLibrary(place.value.0, place.value.1, path, address)))
  }

  /** The libraries from image `i` on, up to the first that cannot be read, and whether there was one. */
  function IndexFrom(memory: Memory, subs: seq<SubCache>, i: nat): (seq<CachedLibrary>, Outcome<()>)
    requires subs != [] && i <= ImageCount(memory, subs[0].pointer)
    decreases ImageCount(memory, subs[0].pointer) - i
  {
    if i == ImageCount(memory, subs[0].pointer) then ([], Ok(()))
    else
      match ImageAt(memory, subs, i)
      case Ok(image) =>
        var (rest, r) := IndexFrom(memory, subs, i + 1);
        ((if image.Some? then [image.value] else []) + rest, r)
      case Err => ([], Err)
      case Panic => ([], Panic)
  }

  class SharedCacheView {
    var subCaches: seq<SubCache>
    var libraries: seq<CachedLibrary>
    var slide: nat

    constructor ()
      ensures subCaches == [] && libraries == [] && slide == 0
    {
      subCaches, libraries, slide := [], [], 0;
    }

    /** Everything is attached and then indexed; on an error, what came before it stays. */
    method FromExisting(memory: Memory, pointer: nat, cacheSlide: nat) returns (r: Outcome<()>)
      requires subCaches == [] && libraries == []
      modifies this
      ensures slide == cacheSlide && subCaches == Attach(memory, pointer).0
      ensures if !Attach(memory, pointer).1.Ok? then r == Attach(memory, pointer).1 && libraries == []
              else subCaches != [] && (libraries, r) == IndexFrom(memory, subCaches, 0)
    {
      slide := cacheSlide;
      r := AttachAll(memory, pointer);
      if r.Ok? {
        r := LibrariesIndexAll(memory);
      }
    }

    /** The main cache and its subcaches, in order. */
    method AttachAll(memory: Memory, pointer: nat) returns (r: Outcome<()>)
      requires subCaches == []
      modifies this`subCaches
      ensures (subCaches, r) == Attach(memory, pointer)
    {
      hide Word, MappedEnd, TableInView, Mappings, SubCacheAt, AttachFrom, TableBase;
      var base := UnslidBase(memory, pointer);
      if !base.Ok? {
        return base.PropagateFailure();
      }
      var length := TotalMappedLength(memory, pointer);
      if !length.Ok? {
        return length.PropagateFailure();
      }
      var main := FromRuntimeMapping(memory, pointer, length.value, base.value);
      if !main.Ok? {
        return main.PropagateFailure();
      }
      subCaches := subCaches + [main.value];
      ghost var goal := AttachFrom(memory, main.value, 0);
      assert subCaches[1..] + goal.0 == goal.0;
      var index, count := 0, SubCacheCount(memory, pointer);
      while index < count
        invariant 0 <= index <= count && |subCaches| == index + 1 && subCaches[0] == main.value
        invariant goal == (subCaches[1..] + AttachFrom(memory, main.value, index).0,
              AttachFrom(memory, main.value, index).1)
      {
        AttachStep(memory, main.value, index);
        var found := SubCacheRead(memory, main.value, index);
        ghost var before := subCaches;
        if !found.Ok? {
          assert before[1..] + [] == before[1..] && [main.value] + before[1..] == before;
          return found.PropagateFailure();
        }
        subCaches := subCaches + [found.value];
        assert subCaches[1..] == before[1..] + [found.value];
        assert before[1..] + ([found.value] + AttachFrom(memory, main.value, index + 1).0)
            == subCaches[1..] + AttachFrom(memory, main.value, index + 1).0;
        index := index + 1;
      }
      AttachStep(memory, main.value, index);
      assert subCaches[1..] + [] == subCaches[1..] && [main.value] + subCaches[1..] == subCaches;
      return Ok(());
    }

    method SubCacheRead(memory: Memory, main: SubCache, index: nat) returns (r: Outcome<SubCache>)
      ensures r == SubCacheAt(memory, main, index)
    {
      hide Word, MappedEnd, TableInView, Mappings, TableBase;
      var entry := SubCacheEntry(memory, main.pointer, index);
      if entry + SUBCACHE_ENTRY_SIZE > main.length {
        return Err;
      }
      var offset := Word(memory, main.pointer + entry + 16, 8);
      var length := TotalMappedLength(memory, main.pointer + offset);
      if !length.Ok? {
        return length.PropagateFailure();
      }
      return FromRuntimeMapping(memory, main.pointer + offset, length.value, main.base + offset);
    }

    /** The libraries of the main cache that some mapping covers, in order. */
    method LibrariesIndexAll(memory: Memory) returns (r: Outcome<()>)
      requires subCaches != [] && libraries == []
      modifies this`libraries
      ensures (libraries, r) == IndexFrom(memory, subCaches, 0)
    {
      hide Word, IndexFrom, ImageAt;
      var main := subCaches[0];
      ghost var goal := IndexFrom(memory, subCaches, 0);
      var count := ImageCount(memory, main.pointer);
      assert [] + goal.0 == goal.0;
      for i := 0 to count
        invariant goal == (libraries + IndexFrom(memory, subCaches, i).0, IndexFrom(memory, subCaches, i).1)
      {
        IndexStep(memory, subCaches, i);
        ghost var rest := IndexFrom(memory, subCaches, i + 1).0;
        var image := ImageAt(memory, subCaches, i);
        if !image.Ok? {
          assert libraries + [] == libraries;
          return image.PropagateFailure();
        }
        if image.value.None? {
          assert libraries + ([] + rest) == libraries + rest;
          continue;
        }
        assert libraries + ([image.value.value] + rest) == libraries + [image.value.value] + rest;
        libraries := libraries + [image.value.value];
      }
      IndexStep(memory, subCaches, count);
      assert libraries + [] == libraries;
      return Ok(());
    }
  }

  lemma AttachStep(memory: Memory, main: SubCache, index: nat)
    requires index <= SubCacheCount(memory, main.pointer)
    ensures AttachFrom(memory, main, index) ==
      if index == SubCacheCount(memory, main.pointer) then ([], Ok(()))
      else if !SubCacheAt(memory, main, index).Ok? then ([], SubCacheAt(memory, main, index).PropagateFailure())
      else ([SubCacheAt(memory, main, index).value] + AttachFrom(memory, main, index + 1).0,
          AttachFrom(memory, main, index + 1).1)
  {
    hide SubCacheAt;
  }

  /** Every subcache attached is the one its entry names; on success every entry is attached. */
  lemma {:induction false} AttachedAt(memory: Memory, main: SubCache, index: nat)
    requires index <= SubCacheCount(memory, main.pointer)
    ensures var (subs, r) := AttachFrom(memory, main, index);
      && (r.Ok? ==> |subs| == SubCacheCount(memory, main.pointer) - index)
      && forall i :: 0 <= i < |subs| ==> SubCacheAt(memory, main, index + i) == Ok(subs[i])
    decreases SubCacheCount(memory, main.pointer) - index
  {
    hide SubCacheAt, AttachFrom, SubCacheCount;
    AttachStep(memory, main, index);
    if index < SubCacheCount(memory, main.pointer) {
      AttachedAt(memory, main, index + 1);
    }
  }

  lemma IndexStep(memory: Memory, subs: seq<SubCache>, i: nat)
    requires subs != [] && i <= ImageCount(memory, subs[0].pointer)
    ensures IndexFrom(memory, subs, i) ==
      if i == ImageCount(memory, subs[0].pointer) then ([], Ok(()))
      else if !ImageAt(memory, subs, i).Ok? then ([], ImageAt(memory, subs, i).PropagateFailure())
      else ((if ImageAt(memory, subs, i).value.Some? then [ImageAt(memory, subs, i).value.value] else [])
          + IndexFrom(memory, subs, i + 1).0,
            IndexFrom(memory, subs, i + 1).1)
  {
    hide ImageAt;
  }

  // ----- the two routes -----

  /** The first mapping of the subcache starts at its base, and none lies before it. */
  predicate StartsAtBase(s: SubCache) {
    s.mappings != [] && s.mappings[0].address == s.base && forall m :: m in s.mappings ==> m.address >= s.base
  }

  lemma {:induction false} LocateMeaning(subs: seq<SubCache>, index: nat, address: nat)
    requires index <= |subs| <= 256 && Locate(subs, index, address).Ok?
    ensures var r := Locate(subs, index, address).value;
      if r.Some? then
        && index <= r.value.0 < |subs| && RuntimeOffsetForVmAddress(subs[r.value.0], address) == Ok(Some(r.value.1))
        && Covers(subs[r.value.0], address) && forall i :: index <= i < r.value.0 ==> !Covers(subs[i], address)
      else forall i :: index <= i < |subs| ==> !Covers(subs[i], address)
    decreases |subs| - index
  {
    if index < |subs| {
      CoversMeaning(subs[index], address);
      if RuntimeOffsetForVmAddress(subs[index], address).value.None? {
        LocateMeaning(subs, index + 1, address);
      }
    }
  }

  lemma CoversMeaning(s: SubCache, address: nat)
    requires RuntimeOffsetForVmAddress(s, address).Ok?
    ensures Covers(s, address) <==> RuntimeOffsetForVmAddress(s, address).value.Some?
  {}

  /** Where attaching puts each subcache: as far after the main one as its base is after the main base. */
  predicate Placed(s: SubCache, main: SubCache) {
    && s.pointer + main.base == main.pointer + s.base
    && (s.mappings != [] ==> s.length == MappedEnd(s.mappings, s.mappings[0].address))
  }

  lemma SubCachePlaced(memory: Memory, main: SubCache, index: nat)
    requires SubCacheAt(memory, main, index).Ok?
    ensures Placed(SubCacheAt(memory, main, index).value, main)
  {
    hide MappedEnd, Word, Mappings, TableInView, TableBase;
  }

  lemma AttachedPlaced(memory: Memory, pointer: nat, s: SubCache)
    requires s in Attach(memory, pointer).0
    ensures Attach(memory, pointer).0 != [] && Placed(s, Attach(memory, pointer).0[0])
    ensures Attach(memory, pointer).0[0].base == TableBase(memory, pointer)
          && Attach(memory, pointer).0[0].pointer == pointer
  {
    hide MappedEnd, Word, TableInView, AttachFrom, TableBase, Mappings, SubCacheAt;
    var subs := Attach(memory, pointer).0;
    var i :| 0 <= i < |subs| && subs[i] == s;
    if i > 0 {
      AttachedAt(memory, subs[0], 0);
      assert SubCacheAt(memory, subs[0], i - 1) == Ok(s);
      SubCachePlaced(memory, subs[0], i - 1);
    }
  }

  /** The slide the linker computes for a main cache mapped at `pointer`. */
  function AttachedCache(memory: Memory, pointer: nat): Cache
    requires pointer >= LIKELY_UNSLID_ADDRESS
  {
    Cache(Attach(memory, pointer).0, pointer - LIKELY_UNSLID_ADDRESS)
  }

  predicate AllStartAtBase(subs: seq<SubCache>) {
    forall s :: s in subs ==> StartsAtBase(s)
  }

  /**
   Two routes agree: in a cache attached at `pointer` with the slide the linker computes, a covered
   address located as a subcache and an offset names the byte that adding the slide names, and the
   offset lies within the length computed for that subcache. An address that is not covered is an
   error, and a table that cannot be read a panic, by both. It needs the main cache's base to be the
   assumed constant, at most 256 subcaches, and every subcache to start at its base.
   */
  lemma {:induction false} RoutesAgree(memory: Memory, pointer: nat, address: nat)
    requires pointer >= LIKELY_UNSLID_ADDRESS && TableBase(memory, pointer) == LIKELY_UNSLID_ADDRESS
    requires |Attach(memory, pointer).0| <= 256 && AllStartAtBase(Attach(memory, pointer).0)
    ensures var c := AttachedCache(memory, pointer);
      var found := Locate(c.subCaches, 0, address);
      if !found.Ok? then Translate(c, address) == found.PropagateFailure()
      else
        && (found.value.Some? <==> exists s :: s in c.subCaches && Covers(s, address))
        && (if found.value.None? then Translate(c, address) == Err
            else
              && found.value.value.0 < |c.subCaches|
              && Translate(c, address) == Ok(c.subCaches[found.value.value.0].pointer + found.value.value.1)
              && found.value.value.1 < c.subCaches[found.value.value.0].length)
  {
    hide Attach, Locate, RuntimeOffsetForVmAddress, MappedEnd, TableBase, Covers, StartsAtBase;
    var subs := Attach(memory, pointer).0;
    if Locate(subs, 0, address).Ok? {
      LocateMeaning(subs, 0, address);
      var found := Locate(subs, 0, address).value;
      if found.Some? {
        var s := subs[found.value.0];
        assert s in subs;
        AttachedPlaced(memory, pointer, s);
        InLength(s, address, found.value.1);
      }
    }
  }

  /**
   The slide is measured from a constant, so for an address that is located, not before the base of its
   subcache, the two routes name the same byte exactly when the main cache was built for that constant.
   */
  lemma {:induction false} RoutesAgreeOnlyThen(memory: Memory, pointer: nat, address: nat)
    requires pointer >= LIKELY_UNSLID_ADDRESS && |Attach(memory, pointer).0| <= 256
    requires Locate(Attach(memory, pointer).0, 0, address).Ok?
          && Locate(Attach(memory, pointer).0, 0, address).value.Some?
    requires address >= Attach(memory, pointer).0[Locate(Attach(memory, pointer).0, 0, address).value.value.0].base
    ensures var c := AttachedCache(memory, pointer);
      var (index, offset) := Locate(c.subCaches, 0, address).value.value;
      Translate(c, address) == Ok(c.subCaches[index].pointer + offset)
      <==> TableBase(memory, pointer) == LIKELY_UNSLID_ADDRESS
  {
    hide Attach, Locate, RuntimeOffsetForVmAddress, MappedEnd, TableBase, Covers;
    var subs := Attach(memory, pointer).0;
    LocateMeaning(subs, 0, address);
    var found := Locate(subs, 0, address).value.value;
    var s := subs[found.0];
    assert s in subs;
    AttachedPlaced(memory, pointer, s);
    OffsetIs(s, address, found.1);
  }

  lemma OffsetIs(s: SubCache, address: nat, offset: nat)
    requires RuntimeOffsetForVmAddress(s, address) == Ok(Some(offset)) && address >= s.base
    ensures address == s.base + offset
  {}

  /** The offset of a covered address is its distance from the base, and lies within the length. */
  lemma InLength(s: SubCache, address: nat, offset: nat)
    requires StartsAtBase(s) && s.length == MappedEnd(s.mappings, s.mappings[0].address)
    requires RuntimeOffsetForVmAddress(s, address) == Ok(Some(offset))
    ensures address == s.base + offset && offset < s.length
  {
    hide MappedEnd;
    var m := MappingOf(s, 0, address).value.value;
    assert m in s.mappings && m.address >= s.base;
  }

  /**
   With more than 256 subcaches the index wraps: the located subcache is the covering one exactly when
   the covering one's index is below 256.
   */
  lemma {:induction false} LocateIndex(subs: seq<SubCache>, index: nat, address: nat, i: nat)
    requires index <= i < |subs| && RuntimeOffsetForVmAddress(subs[i], address).Ok?
          && RuntimeOffsetForVmAddress(subs[i], address).value.Some?
    requires forall j :: index <= j < i ==> RuntimeOffsetForVmAddress(subs[j], address) == Ok(None)
    ensures var r := Locate(subs, index, address);
      r.Ok? && r.value.Some? && (r.value.value.0 == i <==> i < 256)
    decreases i - index
  {
    hide RuntimeOffsetForVmAddress;
    if index < i {
      LocateIndex(subs, index + 1, address, i);
    }
  }

  /**
   A file offset leads to the same place directly and through its address: as far behind the address of the
   first mapping that has it as it is behind that mapping's file offset.
   */
  lemma {:induction false} FileRoutesAgree(s: SubCache, offset: nat) returns (i: nat)
    requires StartsAtBase(s)
    ensures var address := VmAddressForFileOffset(s, offset);
      if !address.Ok? || address.value.None? then RuntimeOffsetForFileOffset(s, offset) == address
      else
        && FirstWithOffset(s, offset, i)
        && address.value.value == s.mappings[i].address + (offset - s.mappings[i].fileOffset)
        && RuntimeOffsetForFileOffset(s, offset) == Ok(Some(address.value.value - s.base))
        && RuntimeOffsetForFileOffset(s, offset) == RuntimeOffsetForVmAddress(s, address.value.value)
    ensures VmAddressForFileOffset(s, offset) == Ok(None) ==> forall m :: m in s.mappings ==> !HasFileOffset(m, offset)
  {
    i := 0;
    var m := MappingOfFile(s, 0, offset);
    if m.Ok? && m.value.Some? {
      FileMappingCovers(s, 0, offset);
      i := FileMappingFirst(s, 0, offset);
      assert s.mappings[i] in s.mappings;
    }
  }

  predicate FirstWithOffset(s: SubCache, offset: nat, i: nat) {
    && i < |s.mappings| && HasFileOffset(s.mappings[i], offset)
    && forall j :: 0 <= j < i ==> !HasFileOffset(s.mappings[j], offset)
  }

  lemma {:induction false} FileMappingFirst(s: SubCache, from: nat, offset: nat) returns (i: nat)
    requires MappingOfFile(s, from, offset).Ok? && MappingOfFile(s, from, offset).value.Some?
    requires forall j :: 0 <= j < from && j < |s.mappings| ==> !HasFileOffset(s.mappings[j], offset)
    ensures FirstWithOffset(s, offset, i) && MappingOfFile(s, from, offset).value == Some(s.mappings[i])
    decreases |s.mappings| - from
  {
    if HasFileOffset(s.mappings[from], offset) {
      i := from;
    } else {
      i := FileMappingFirst(s, from + 1, offset);
    }
  }

  /** The address that a file offset has is covered, by the same mapping or an earlier one. */
  lemma {:induction false} FileMappingCovers(s: SubCache, i: nat, offset: nat)
    requires MappingOfFile(s, i, offset).Ok? && MappingOfFile(s, i, offset).value.Some?
    ensures var m := MappingOfFile(s, i, offset).value.value;
      var found := MappingOf(s, i, m.address + (offset - m.fileOffset));
      found.Ok? && found.value.Some?
    decreases |s.mappings| - i
  {
    if !HasFileOffset(s.mappings[i], offset) {
      FileMappingCovers(s, i + 1, offset);
    }
  }

  // ----- the libraries -----

  /** A library is located where its load address is. */
  predicate WellLocated(subs: seq<SubCache>, l: CachedLibrary) {
    Locate(subs, 0, l.loadAddress) == Ok(Some((l.subCacheIndex, l.headerOffset)))
  }

  /** The load addresses of the images from `i` on that some mapping covers, in order. */
  function CoveredImages(memory: Memory, subs: seq<SubCache>, i: nat): seq<nat>
    requires subs != [] && i <= ImageCount(memory, subs[0].pointer)
    decreases ImageCount(memory, subs[0].pointer) - i
  {
    if i == ImageCount(memory, subs[0].pointer) then []
    else
      var address := ImageAddress(memory, subs[0], i);
      var place := Locate(subs, 0, address);
      (if place.Ok? && place.value.Some? then [address] else []) + CoveredImages(memory, subs, i + 1)
  }

  function LoadAddresses(libraries: seq<CachedLibrary>): (r: seq<nat>)
    ensures |r| == |libraries| && forall i :: 0 <= i < |r| ==> r[i] == libraries[i].loadAddress
  {
    seq(|libraries|, i requires 0 <= i < |libraries| => libraries[i].loadAddress)
  }

  /** Indexing that succeeds lists exactly the images that some mapping covers, in order, each where it is located. */
  lemma {:induction false} IndexListsCovered(memory: Memory, subs: seq<SubCache>, i: nat)
    requires subs != [] && i <= ImageCount(memory, subs[0].pointer) && IndexFrom(memory, subs, i).1.Ok?
    ensures LoadAddresses(IndexFrom(memory, subs, i).0) == CoveredImages(memory, subs, i)
    ensures forall l :: l in IndexFrom(memory, subs, i).0 ==> WellLocated(subs, l)
    decreases ImageCount(memory, subs[0].pointer) - i
  {
    hide IndexFrom, ImageAt, Locate, ImageCount, ImageAddress;
    IndexStep(memory, subs, i);
    if i < ImageCount(memory, subs[0].pointer) {
      IndexListsCovered(memory, subs, i + 1);
      ImageLocated(memory, subs, i);
      var image, rest := ImageAt(memory, subs, i).value, IndexFrom(memory, subs, i + 1).0;
      assert LoadAddresses((if image.Some? then [image.value] else []) + rest)
          == (if image.Some? then [image.value.loadAddress] else []) + LoadAddresses(rest);
    }
  }

  lemma ImageLocated(memory: Memory, subs: seq<SubCache>, i: nat)
    requires subs != [] && ImageAt(memory, subs, i).Ok?
    ensures var image, place := ImageAt(memory, subs, i).value, Locate(subs, 0, ImageAddress(memory, subs[0], i));
      && place.Ok? && (place.value.Some? <==> image.Some?)
      && (image.Some? ==> image.value.loadAddress == ImageAddress(memory, subs[0], i) && WellLocated(subs, image.value))
  {
    hide Locate, PathAt, RuntimeOffsetForFileOffset;
  }

  lemma ViewPart(memory: Memory, pointer: nat, length: nat, at: nat, part: seq<Byte>)
    requires At(View(memory, pointer, length), at, part)
    ensures View(memory, pointer + at, |part|) == part
  {
    assert View(memory, pointer, length)[at..at + |part|] == View(memory, pointer + at, |part|);
  }

  lemma WordRead(memory: Memory, pointer: nat, length: nat, at: nat, v: nat, n: nat)
    requires At(View(memory, pointer, length), at, Encode(v, n)) && v < Limit(n)
    ensures Word(memory, pointer + at, n) == v
  {
    hide At, View;
    ViewPart(memory, pointer, length, at, Encode(v, n));
    ValueOfEncode(v, n);
  }

  /** The main cache's header says where the image table stands; entry `i` holds an address and a path's file offset. */
  predicate ImageListed(bytes: seq<Byte>, table: nat, i: nat, address: nat, pathOffset: nat) {
    && table < 0x1_0000_0000 && address < 0x1_0000_0000_0000_0000 && pathOffset < 0x1_0000_0000
    && At(bytes, 448, Encode(table, 4)) && table + (i + 1) * IMAGE_SIZE <= |bytes|
    && At(bytes, table + i * IMAGE_SIZE, Encode(address, 8))
    && At(bytes, table + i * IMAGE_SIZE + 24, Encode(pathOffset, 4))
  }

  /**
   An image in the table is indexed with the place its address has and the string that stands where the
   main cache maps its path; a string that is not UTF-8 panics.
   */
  lemma {:induction false} ImageIndexed(memory: Memory, subs: seq<SubCache>, i: nat, table: nat, address: nat,
                                        pathOffset: nat, place: nat, path: seq<Byte>)
    requires subs != [] && ImageListed(View(memory, subs[0].pointer, subs[0].length), table, i, address, pathOffset)
    requires RuntimeOffsetForFileOffset(subs[0], pathOffset) == Ok(Some(place))
    requires CStringAt(View(memory, subs[0].pointer, subs[0].length), place, path) && NulFree(path)
    ensures match Locate(subs, 0, address)
      case Ok(Some(found)) =>
        ImageAt(memory, subs, i)
            == if Utf8(path) then Ok(Some(CachedLibrary(found.0, found.1, path, address))) else Panic
      case Ok(None) => ImageAt(memory, subs, i) == Ok(None)
      case _ => ImageAt(memory, subs, i) == Panic
  {
    hide Locate, RuntimeOffsetForFileOffset, Word, At, Utf8, View, Encode, NulFree, CStringAt;
    var main := subs[0];
    var bytes := View(memory, main.pointer, main.length);
    Limits();
    WordRead(memory, main.pointer, main.length, 448, table, 4);
    WordRead(memory, main.pointer, main.length, table + i * IMAGE_SIZE, address, 8);
    WordRead(memory, main.pointer, main.length, table + i * IMAGE_SIZE + 24, pathOffset, 4);
    CStringRead(bytes, place, path);
  }

  /** The header counts the images. */
  lemma ImagesCounted(memory: Memory, main: SubCache, count: nat)
    requires At(View(memory, main.pointer, main.length), 452, Encode(count, 4)) && count < 0x1_0000_0000
    ensures ImageCount(memory, main.pointer) == count
  {
    hide Word, At, View, Encode;
    Limits();
    WordRead(memory, main.pointer, main.length, 452, count, 4);
  }

  /** A library's header, found through its subcache, stands at its load address plus the slide. */
  lemma {:induction false} LibraryStands(memory: Memory, pointer: nat, l: CachedLibrary)
    requires pointer >= LIKELY_UNSLID_ADDRESS && TableBase(memory, pointer) == LIKELY_UNSLID_ADDRESS
    requires |Attach(memory, pointer).0| <= 256 && AllStartAtBase(Attach(memory, pointer).0)
    requires WellLocated(Attach(memory, pointer).0, l)
    ensures var c := AttachedCache(memory, pointer);
      && l.subCacheIndex < |c.subCaches| && l.headerOffset < c.subCaches[l.subCacheIndex].length
      && c.subCaches[l.subCacheIndex].pointer + l.headerOffset == l.loadAddress + c.slide
  {
    hide Attach, Locate, TableBase, AllStartAtBase;
    RoutesAgree(memory, pointer, l.loadAddress);
  }
}
