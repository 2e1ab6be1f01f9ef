/**
 Linking against the shared cache: its libraries as the re-export search sees them, and the pointers that binds
 to them store.
 */
module CacheLinking {
  import opened Prelude
  import opened Bits
  import opened Bytes
  import opened SharedCache
  import opened Reexports
  import ExportsTrie
  import TrieFormat
  import LoadCommands
  import FixupParser
  import FixupApply
  import FixupRoundTrip
  import FixupWriter
  import FixupPipeline

  // ----- the libraries of an attached cache -----

  /** The bytes of an image's exports trie, which the link-edit segment may place in another subcache. */
  function CachedTrie(memory: Memory, known: nat -> bool, subs: seq<SubCache>, image: seq<Byte>,
                      base: nat): Outcome<Option<seq<Byte>>> {
    var span :- LoadCommands.Find(image, known, base, LoadCommands.SpanOf(image));
    if span.None? then Ok(None)
    else
      var linkedit :- LoadCommands.Find(image, known, base, LoadCommands.LinkeditOf(image));
      if linkedit.None? then Ok(None)
      else
        var address := (linkedit.value.address + Minus(span.value.fileOffset, linkedit.value.fileOffset)) % U64;
        var place :- Locate(subs, 0, address);
        if place.None? then Ok(None)
        else
          var s := subs[place.value.0];
          var end := place.value.1 + span.value.size;
          if end > s.length then Ok(None) else Ok(Some(View(memory, s.pointer, s.length)[place.value.1..end]))
  }

  predicate Indexed(subs: seq<SubCache>, libraries: seq<CachedLibrary>) {
    forall i :: 0 <= i < |libraries| ==> libraries[i].subCacheIndex < |subs|
  }

  /** A cached library, read from its image in memory. */
  function LibraryOf(memory: Memory, known: nat -> bool, subs: seq<SubCache>, c: CachedLibrary): Library
    requires c.subCacheIndex < |subs|
  {
    var s := subs[c.subCacheIndex];
    var image := View(memory, s.pointer, s.length);
    Library(c.path, c.loadAddress, CachedTrie(memory, known, subs, image, c.headerOffset),
            ordinal => LoadCommands.OrdinalPath(image, known, c.headerOffset, ordinal),
            LoadCommands.ReexportPaths(image, known, c.headerOffset))
  }

  /** What the linker can resolve symbols in once a cache is attached. */
  function WorldOf(memory: Memory, known: nat -> bool, subs: seq<SubCache>, libraries: seq<CachedLibrary>,
                   slide: nat): (w: World)
    requires Indexed(subs, libraries)
    ensures |w.libraries| == |libraries|
          && forall i :: 0 <= i < |libraries| ==> w.libraries[i] == LibraryOf(memory, known, subs, libraries[i])
    ensures w.cache == Cache(subs, slide)
  {
    World(seq(|libraries|, i requires 0 <= i < |libraries| => LibraryOf(memory, known, subs, libraries[i])),
        Cache(subs, slide))
  }

  /** Whatever is indexed can be read as a world. */
  lemma {:induction false} IndexingIndexes(memory: Memory, subs: seq<SubCache>, i: nat)
    requires subs != [] && i <= ImageCount(memory, subs[0].pointer)
    ensures Indexed(subs, IndexFrom(memory, subs, i).0)
    decreases ImageCount(memory, subs[0].pointer) - i
  {
    hide IndexFrom, Locate, ImageCount, PathAt, RuntimeOffsetForFileOffset;
    IndexStep(memory, subs, i);
    if i < ImageCount(memory, subs[0].pointer) {
      IndexingIndexes(memory, subs, i + 1);
    }
  }

  /**
   Where a symbol of an attached cache's library lies in memory: the load address plus slide is where the
   library's header stands, so the symbol's offset counts from its header.
   */
  lemma {:induction false} CachedPointer(memory: Memory, known: nat -> bool, pointer: nat, l: Library)
                                         returns (c: CachedLibrary)
    requires pointer >= LIKELY_UNSLID_ADDRESS && TableBase(memory, pointer) == LIKELY_UNSLID_ADDRESS
    requires Attach(memory, pointer).0 != [] && |Attach(memory, pointer).0| <= 256
          && AllStartAtBase(Attach(memory, pointer).0)
    requires var (libraries, r) := IndexFrom(memory, Attach(memory, pointer).0, 0);
      && r.Ok? && Indexed(Attach(memory, pointer).0, libraries)
      && l in WorldOf(memory, known, Attach(memory, pointer).0, libraries, pointer - LIKELY_UNSLID_ADDRESS).libraries
    ensures var subs := Attach(memory, pointer).0;
      && c in IndexFrom(memory, subs, 0).0 && c.subCacheIndex < |subs| && l == LibraryOf(memory, known, subs, c)
      && l.loadAddress + (pointer - LIKELY_UNSLID_ADDRESS) == subs[c.subCacheIndex].pointer + c.headerOffset
  {
    hide Attach, IndexFrom, LibraryOf, TableBase, AllStartAtBase, WellLocated;
    var subs := Attach(memory, pointer).0;
    var libraries := IndexFrom(memory, subs, 0).0;
    var w := WorldOf(memory, known, subs, libraries, pointer - LIKELY_UNSLID_ADDRESS);
    var i :| 0 <= i < |w.libraries| && w.libraries[i] == l;
    c := libraries[i];
    IndexListsCovered(memory, subs, 0);
    LibraryStands(memory, pointer, c);
    LibraryOfLoads(memory, known, subs, c);
  }

  lemma LibraryOfLoads(memory: Memory, known: nat -> bool, subs: seq<SubCache>, c: CachedLibrary)
    requires c.subCacheIndex < |subs|
    ensures LibraryOf(memory, known, subs, c).loadAddress == c.loadAddress
          && LibraryOf(memory, known, subs, c).path == c.path
  {}

  // ----- libraries as their images are written -----

  /** The image of a cached library is one with these load commands, of known kinds. */
  predicate ImageWritten(memory: Memory, known: nat -> bool, subs: seq<SubCache>, c: CachedLibrary,
                         cs: seq<LoadCommands.Command>)
    requires c.subCacheIndex < |subs|
  {
    var s := subs[c.subCacheIndex];
    LoadCommands.ImageAt(View(memory, s.pointer, s.length), c.headerOffset, cs) && LoadCommands.AllFit(cs, known)
  }

  /** A cached library's dependencies and re-exports are those its load commands name. */
  lemma {:induction false} LibraryNames(memory: Memory, known: nat -> bool, subs: seq<SubCache>, c: CachedLibrary,
                                        cs: seq<LoadCommands.Command>, ordinal: nat)
    requires c.subCacheIndex < |subs| && ImageWritten(memory, known, subs, c, cs)
    ensures var l := LibraryOf(memory, known, subs, c);
      var all := LoadCommands.Commands(cs);
      var i := LoadCommands.Nth(all, false, ordinal);
      && l.path == c.path && l.loadAddress == c.loadAddress
      && l.dependency(ordinal) == Ok(if i.Some? then Some(all[i.value].name) else None)
      && l.umbrella == Ok(LoadCommands.ReexportNames(all))
  {
    hide LoadCommands.OrdinalPath, LoadCommands.ReexportPaths, LoadCommands.ImageAt, LoadCommands.AllFit,
      LoadCommands.Nth, LoadCommands.ReexportNames, CachedTrie;
    var s := subs[c.subCacheIndex];
    LoadCommands.ImageNames(View(memory, s.pointer, s.length), known, c.headerOffset, cs, ordinal);
  }

  /** The trie that a written image says to exist, and its link-edit segment. */
  function TrieSpan(cs: seq<LoadCommands.Command>): Option<LoadCommands.Span> {
    LoadCommands.First(cs, (c: LoadCommands.Command) => c.Trie())
  }

  function LinkEditSegment(cs: seq<LoadCommands.Command>): Option<LoadCommands.Linkedit> {
    LoadCommands.First(cs, (c: LoadCommands.Command) => c.LinkEdit())
  }

  lemma {:induction false} PlacesFound(memory: Memory, known: nat -> bool, subs: seq<SubCache>, c: CachedLibrary,
                                       cs: seq<LoadCommands.Command>)
    requires c.subCacheIndex < |subs| && ImageWritten(memory, known, subs, c, cs)
    ensures var s := subs[c.subCacheIndex];
      var image := View(memory, s.pointer, s.length);
      && LoadCommands.Find(image, known, c.headerOffset, LoadCommands.SpanOf(image)) == Ok(TrieSpan(cs))
      && LoadCommands.Find(image, known, c.headerOffset, LoadCommands.LinkeditOf(image)) == Ok(LinkEditSegment(cs))
  {
    hide LoadCommands.Find, LoadCommands.ImageAt, LoadCommands.AllFit, LoadCommands.First, LoadCommands.SpanOf,
      LoadCommands.LinkeditOf;
    var s := subs[c.subCacheIndex];
    LoadCommands.ImagePlaces(View(memory, s.pointer, s.length), known, c.headerOffset, cs);
  }

  /** The unslid address of a place in the file that the link-edit segment maps. */
  function LinkedAddress(linkedit: LoadCommands.Linkedit, fileOffset: nat): nat {
    (linkedit.address + fileOffset - linkedit.fileOffset) % U64
  }

  lemma Wraps(base: nat, a: nat, b: nat)
    ensures (base + Minus(a, b)) % U64 == (base + a - b) % U64
  {}

  /** A library of which no command says where the trie is, or that has no link-edit segment, has none. */
  lemma {:induction false} NoTrie(memory: Memory, known: nat -> bool, subs: seq<SubCache>, c: CachedLibrary,
                                  cs: seq<LoadCommands.Command>)
    requires c.subCacheIndex < |subs| && ImageWritten(memory, known, subs, c, cs)
    requires TrieSpan(cs).None? || LinkEditSegment(cs).None?
    ensures LibraryOf(memory, known, subs, c).trie == Ok(None)
  {
    hide LoadCommands.Find, ImageWritten, TrieSpan, LinkEditSegment, LoadCommands.OrdinalPath,
      LoadCommands.ReexportPaths, Locate;
    PlacesFound(memory, known, subs, c, cs);
  }

  /**
   The trie of a library of an attached cache is the bytes of memory that begin at the slid address of the
   file offset its load command gives, wherever the cache has put them. There is none if that address is not
   covered, or the trie would leave the subcache that covers it.
   */
  lemma {:induction false} TrieInMemory(memory: Memory, known: nat -> bool, pointer: nat, c: CachedLibrary,
                                        cs: seq<LoadCommands.Command>, span: LoadCommands.Span,
                                        linkedit: LoadCommands.Linkedit)
                                        returns (s: SubCache)
    requires pointer >= LIKELY_UNSLID_ADDRESS && TableBase(memory, pointer) == LIKELY_UNSLID_ADDRESS
    requires |Attach(memory, pointer).0| <= 256 && AllStartAtBase(Attach(memory, pointer).0)
    requires c.subCacheIndex < |Attach(memory, pointer).0|
          && ImageWritten(memory, known, Attach(memory, pointer).0, c, cs)
    requires TrieSpan(cs) == Some(span) && LinkEditSegment(cs) == Some(linkedit)
    ensures var subs := Attach(memory, pointer).0;
      var address := LinkedAddress(linkedit, span.fileOffset);
      var start := address + (pointer - LIKELY_UNSLID_ADDRESS);
      match LibraryOf(memory, known, subs, c).trie
      case Ok(Some(bytes)) =>
        && s in subs && Covers(s, address) && s.pointer <= start && start + span.size <= s.pointer + s.length
        && |bytes| == span.size && forall i :: 0 <= i < span.size ==> bytes[i] == memory(start + i)
      case Ok(None) =>
        || (forall other :: other in subs ==> !Covers(other, address))
        || (s in subs && Covers(s, address) && start + span.size > s.pointer + s.length)
      case Err => false
      case Panic => Locate(subs, 0, address) == Panic
  {
    hide LoadCommands.Find, ImageWritten, TrieSpan, LinkEditSegment, LoadCommands.OrdinalPath,
      LoadCommands.ReexportPaths, Locate, Attach, AllStartAtBase, Covers, TableBase;
    var subs := Attach(memory, pointer).0;
    var address := LinkedAddress(linkedit, span.fileOffset);
    PlacesFound(memory, known, subs, c, cs);
    Wraps(linkedit.address, span.fileOffset, linkedit.fileOffset);
    RoutesAgree(memory, pointer, address);
    s := subs[c.subCacheIndex];
    if Locate(subs, 0, address).Ok? && Locate(subs, 0, address).value.Some? {
      LocateMeaning(subs, 0, address);
      s := subs[Locate(subs, 0, address).value.value.0];
    }
  }

  // ----- symbols -----

  /** In a library whose trie bytes encode a trie, the symbols defined are those its table defines. */
  lemma {:induction false} DefinedAsInTable(l: Library, bytes: seq<Byte>, t: TrieFormat.Trie, symbol: seq<Byte>,
                                            offset: nat)
    requires l.trie == Ok(Some(bytes)) && TrieFormat.NodeAt(bytes, 0, t) && TrieFormat.WellFormed(t) && |bytes| <= U64
    ensures SymbolIn(l, symbol) == Ok(DefinedAt(offset))
          <==> (symbol, ExportsTrie.DefinedHere(offset)) in TrieFormat.Exports(t)
  {
    hide ExportsTrie.Walk, TrieFormat.NodeAt, TrieFormat.WellFormed, TrieFormat.Exports;
    TrieFormat.WalkIsTable(bytes, t, symbol, ExportsTrie.DefinedHere(offset));
  }

  /** The symbol that a re-export asks of its target: the alias, or the symbol itself if there is none. */
  function Asked(symbol: seq<Byte>, alias: seq<Byte>): seq<Byte> {
    if |alias| > 0 then alias else symbol
  }

  /**
   Where the table gives a symbol as re-exported, the search goes on to the library its ordinal names, and
   nowhere else, and asks for the alias. An error in finding that library is passed on; without such a
   library the search goes on as if the symbol were not in the table.
   */
  lemma {:induction false} ReexportedAsInTable(w: World, q: Query, l: Library, bytes: seq<Byte>, t: TrieFormat.Trie,
                                               ordinal: nat, alias: seq<Byte>)
    requires FindLibrary(w.libraries, q.path) == Some(l) && l.trie == Ok(Some(bytes)) && |bytes| <= U64
    requires TrieFormat.NodeAt(bytes, 0, t) && TrieFormat.WellFormed(t)
    requires (q.symbol, ExportsTrie.ReexportedFromDependency(ordinal, alias)) in TrieFormat.Exports(t)
    ensures match l.dependency(ordinal)
      case Ok(Some(path)) =>
        && SymbolIn(l, q.symbol) == Ok(Elsewhere(Query(path, Asked(q.symbol, alias))))
        && Hops(w, q) == [Query(path, Asked(q.symbol, alias))] && Ending(w, q) == None
      case Ok(None) => SymbolIn(l, q.symbol) == Ok(Absent)
      case Err => SymbolIn(l, q.symbol) == Err && Hops(w, q) == [] && Ending(w, q) == Some(Err)
      case Panic => SymbolIn(l, q.symbol) == Panic && Hops(w, q) == [] && Ending(w, q) == Some(Panic)
  {
    hide ExportsTrie.Walk, TrieFormat.NodeAt, TrieFormat.WellFormed, TrieFormat.Exports, FindLibrary;
    TrieFormat.WalkIsTable(bytes, t, q.symbol, ExportsTrie.ReexportedFromDependency(ordinal, alias));
  }

  /** A symbol that no trie or table entry gives is absent. */
  lemma {:induction false} AbsentFromTable(l: Library, bytes: seq<Byte>, t: TrieFormat.Trie, symbol: seq<Byte>)
    requires l.trie == Ok(Some(bytes)) && |bytes| <= U64 && TrieFormat.NodeAt(bytes, 0, t) && TrieFormat.WellFormed(t)
    requires forall v :: (symbol, v) !in TrieFormat.Exports(t)
    ensures SymbolIn(l, symbol) == Ok(Absent)
  {
    hide ExportsTrie.Walk, TrieFormat.NodeAt, TrieFormat.WellFormed, TrieFormat.Exports;
    var found := ExportsTrie.Walk(bytes, 0, symbol, |bytes|);
    if found.Some? {
      TrieFormat.WalkIsTable(bytes, t, symbol, found.value);
    }
  }

  /**
   An absent symbol is looked for in the libraries re-exported whole, in order; an error in listing them ends
   the search.
   */
  lemma {:induction false} AbsentHops(w: World, q: Query, l: Library)
    requires FindLibrary(w.libraries, q.path) == Some(l) && SymbolIn(l, q.symbol) == Ok(Absent)
    ensures match l.umbrella
      case Ok(paths) =>
        && Ending(w, q) == None && |Hops(w, q)| == |paths|
        && forall i :: 0 <= i < |paths| ==> Hops(w, q)[i] == Query(paths[i], q.symbol)
      case Err => Ending(w, q) == Some(Err)
      case Panic => Ending(w, q) == Some(Panic)
  {
    hide SymbolIn, FindLibrary;
  }

  /** A library without a trie has no symbols; one whose trie cannot be found passes the error on. */
  lemma {:induction false} TrielessLibrary(l: Library, symbol: seq<Byte>)
    ensures l.trie == Ok(None) ==> SymbolIn(l, symbol) == Ok(Absent)
    ensures l.trie == Err ==> SymbolIn(l, symbol) == Err
    ensures l.trie == Panic ==> SymbolIn(l, symbol) == Panic
  {}

  // ----- binds -----

  /** The library at this ordinal is a system library, looked up in the attached cache. */
  ghost predicate BoundToCache(w: World, loader: FixupApply.Loader, ordinal: nat, path: Path) {
    && 1 <= ordinal < FixupApply.BIND_SPECIAL_DYLIB_WEAK_LOOKUP && ordinal <= |loader.dylibs| && loader.cacheAttached
    && loader.dylibs[ordinal - 1].System?
    && forall name :: loader.dylibs[ordinal - 1].resolve(name) == SymbolResolve(w, path, name)
  }

  /** A path that comes to an address ends in a library that defines the symbol asked of it. */
  lemma {:induction false} EndDefines(w: World, chain: seq<Query>) returns (l: Library, offset: nat)
    requires IsPath(w, chain) && End(w, chain).Ok?
    ensures var last := chain[|chain| - 1];
      && FindLibrary(w.libraries, last.path) == Some(l) && SymbolIn(l, last.symbol) == Ok(DefinedAt(offset))
      && End(w, chain) == Ok(l.loadAddress + offset + w.cache.slide)
    decreases |chain|
  {
    hide FindLibrary, SymbolIn, Hops, Locate;
    if |chain| == 1 {
      var last := chain[0];
      l := FindLibrary(w.libraries, last.path).value;
      offset := SymbolIn(l, last.symbol).value.offset;
    } else {
      l, offset := EndDefines(w, chain[1..]);
    }
  }

  /**
   What a bind to a system library stores: the load address, offset and slide of the library at the end
   of the first path, of at most 15 hops, that leads from the library bound to. It fails exactly when
   there is no path, or the first one comes to an error.
   */
  lemma {:induction false} BindValue(w: World, loader: FixupApply.Loader, ordinal: nat, path: Path,
                                     kind: FixupParser.Kind)
    returns (chain: seq<Query>, l: Library, offset: nat)
    requires BoundToCache(w, loader, ordinal, path) && kind.Bind? && kind.ordinal == ordinal
    requires FixupApply.FixupValue(loader, kind).Ok?
    ensures FirstRoute(w, Query(path, kind.name), chain, MAX_REEXPORT_RESOLUTION_DEPTH)
    ensures FindLibrary(w.libraries, chain[|chain| - 1].path) == Some(l)
    ensures SymbolIn(l, chain[|chain| - 1].symbol) == Ok(DefinedAt(offset))
    ensures FixupApply.FixupValue(loader, kind) == Ok((l.loadAddress + offset + w.cache.slide) % U64)
  {
    hide Resolve, SymbolIn, FindLibrary, IsPath, End, Before;
    var q := Query(path, kind.name);
    assert loader.dylibs[ordinal - 1].resolve(kind.name) == SymbolResolve(w, path, kind.name);
    ResolveIsFirst(w, q, MAX_REEXPORT_RESOLUTION_DEPTH);
    chain :| FirstRoute(w, q, chain, MAX_REEXPORT_RESOLUTION_DEPTH);
    l, offset := EndDefines(w, chain);
  }

  /** A bind to a system library resolves exactly when the search finds an address. */
  lemma {:induction false} BindResolves(w: World, loader: FixupApply.Loader, ordinal: nat, path: Path,
                                        kind: FixupParser.Kind)
    requires BoundToCache(w, loader, ordinal, path) && kind.Bind? && kind.ordinal == ordinal
    ensures FixupApply.FixupValue(loader, kind).Ok?
       <==> exists chain ::
              FirstRoute(w, Query(path, kind.name), chain, MAX_REEXPORT_RESOLUTION_DEPTH) && End(w, chain).Ok?
  {
    hide Resolve, IsPath, End, Before;
    var q := Query(path, kind.name);
    assert loader.dylibs[ordinal - 1].resolve(kind.name) == SymbolResolve(w, path, kind.name);
    ResolveIsFirst(w, q, MAX_REEXPORT_RESOLUTION_DEPTH);
    if Resolve(w, q, MAX_REEXPORT_RESOLUTION_DEPTH) != Ok(None) {
      var chain :| FirstRoute(w, q, chain, MAX_REEXPORT_RESOLUTION_DEPTH);
      assert Resolve(w, q, MAX_REEXPORT_RESOLUTION_DEPTH) == AsResult(End(w, chain));
    }
  }

  lemma ResolvedAt(loader: FixupApply.Loader, fixups: seq<FixupParser.Fixup>, i: nat)
    requires i < |fixups| && FixupApply.AllResolve(loader, fixups, false)
    ensures FixupApply.FixupValue(loader, fixups[i].kind).Ok?
  {
    hide FixupApply.FixupValue;
  }

  /**
   End to end, with the cache: an image written from a plan, parsed and fixed up in two passes holds, in
   the slot of a bind to a system library, the load address, offset and slide of the first library that
   the search through the cache finds to define the symbol.
   */
  lemma {:induction false} BoundSlot(length: nat, plan: seq<Option<FixupRoundTrip.Planned>>,
                                     table: FixupWriter.ImportTable, memory: seq<Byte>,
                  early: FixupApply.Loader, loader: FixupApply.Loader, w: World, path: Path, i: nat)
    returns (chain: seq<Query>, l: Library, offset: nat)
    requires FixupWriter.Writable(length, plan, table) && FixupWriter.NamesFound(length, plan, table)
          && |memory| >= length + loader.pageZero
    requires early.base == loader.base && early.pageZero == loader.pageZero
    requires FixupApply.AllResolve(loader, FixupRoundTrip.PlanFixups(plan, table.items), false)
    requires i < |FixupRoundTrip.PlanFixups(plan, table.items)|
          && FixupRoundTrip.PlanFixups(plan, table.items)[i].kind.Bind?
    requires BoundToCache(w, loader, FixupRoundTrip.PlanFixups(plan, table.items)[i].kind.ordinal, path)
    ensures var fixups := FixupRoundTrip.PlanFixups(plan, table.items);
      && FixupParser.ParseAll(FixupWriter.Write(length, plan, table), Some(length)) == Ok(fixups)
      && FirstRoute(w, Query(path, fixups[i].kind.name), chain, MAX_REEXPORT_RESOLUTION_DEPTH)
      && FindLibrary(w.libraries, chain[|chain| - 1].path) == Some(l)
      && SymbolIn(l, chain[|chain| - 1].symbol) == Ok(DefinedAt(offset))
      && FixupApply.Mapped(|memory|, early, fixups, true)
      && FixupApply.Mapped(|memory|, loader, FixupApply.Binds(fixups), false)
      && var first := FixupApply.ApplyAll(memory, early, fixups, true);
         var second := FixupApply.ApplyAll(first.0, loader, FixupApply.Binds(fixups), false);
         && second.1.Ok?
         && Read(second.0, fixups[i].offset + loader.pageZero, 8)
            == Some((l.loadAddress + offset + w.cache.slide) % U64)
  {
    hide FixupRoundTrip.PlanFits, FixupRoundTrip.PlanNamed, FixupWriter.PlainNames, FixupWriter.SegmentFits,
      FixupRoundTrip.PlanFixups, FixupRoundTrip.PlanWords, FixupWriter.NamesAt, FixupWriter.NameOffset,
      FixupWriter.NamesFound, FixupApply.AllResolve, FixupWriter.Write, FixupParser.ParseAll, FixupApply.ApplyAll,
      FixupApply.FixupValue, FixupApply.Mapped, FixupApply.Binds, Read, FixupApply.InSlot, SymbolIn, FindLibrary,
      FirstRoute, BoundToCache;
    FixupPipeline.WrittenImageFixedUp(length, plan, table, memory, early, loader);
    ResolvedAt(loader, FixupRoundTrip.PlanFixups(plan, table.items), i);
    var fixup := FixupRoundTrip.PlanFixups(plan, table.items)[i];
    chain, l, offset := BindValue(w, loader, fixup.kind.ordinal, path, fixup.kind);
  }
}
