/** Applying fixups to a mapped image, in place. */
module FixupApply {
  import opened Prelude
  import opened Bits
  import opened Bytes
  import opened FixupParser
  import opened Patches

  const BIND_SPECIAL_DYLIB_SELF: nat := 0
  const BIND_SPECIAL_DYLIB_MAIN_EXECUTABLE: nat := 255
  const BIND_SPECIAL_DYLIB_FLAT_LOOKUP: nat := 254
  const BIND_SPECIAL_DYLIB_WEAK_LOOKUP: nat := 253

  datatype Symbol = Symbol(name: seq<Byte>, implOffset: nat)

  datatype DylibSymbol = Defined(offset: nat) | Reexported

  /** A dependency, with how it answers a symbol: the shared cache's lookup, or the dylib's own. */
  datatype Library =
    | System(resolve: seq<Byte> -> Outcome<Option<nat>>)
    | User(base: nat, lookup: seq<Byte> -> Outcome<Option<DylibSymbol>>)

  /** Where the image is mapped and what its binds resolve against. */
  datatype Loader = Loader(base: nat, pageZero: nat, symbols: seq<Symbol>, dylibs: seq<Library>, cacheAttached: bool)

  /** Index of the first symbol of that name. */
  function FindSymbol(symbols: seq<Symbol>, name: seq<Byte>): (r: Option<nat>)
    ensures r.Some? ==> r.value < |symbols| && symbols[r.value].name == name
    ensures forall j :: 0 <= j < (if r.Some? then r.value else |symbols|) ==> symbols[j].name != name
  {
    if symbols == [] then None
    else if symbols[0].name == name then Some(0)
    else
      match FindSymbol(symbols[1..], name)
      case None => None
      case Some(i) => Some(i + 1)
  }

  function LibraryValue(library: Library, name: seq<Byte>, cacheAttached: bool): Outcome<nat> {
    match library
    case System(resolve) =>
      if !cacheAttached then Err
      else
        var found :- resolve(name);
        if found.Some? then Ok(found.value % U64) else Err
    case User(base, lookup) =>
      var found :- lookup(name);
      if found.None? then Err
      else
        match found.value
        case Defined(offset) => Ok((base + offset) % U64)
        case Reexported => Panic
  }

  /** The pointer a fixup stores, which depends on nothing stored before. */
  function FixupValue(loader: Loader, kind: Kind): (r: Outcome<nat>)
    ensures r.Ok? ==> r.value < U64
  {
    match kind
    case Rebase(target) => Ok((loader.base + target + loader.pageZero) % U64)
    case Bind(name, ordinal, _, _) =>
      if ordinal == BIND_SPECIAL_DYLIB_SELF then Err
      else if ordinal == BIND_SPECIAL_DYLIB_MAIN_EXECUTABLE then Err
      else if ordinal == BIND_SPECIAL_DYLIB_FLAT_LOOKUP then Err
      else if ordinal == BIND_SPECIAL_DYLIB_WEAK_LOOKUP then
        match FindSymbol(loader.symbols, name)
        case None => Err
        case Some(i) => Ok((loader.base + loader.symbols[i].implOffset) % U64)
      else if ordinal - 1 >= |loader.dylibs| then Panic
      else LibraryValue(loader.dylibs[ordinal - 1], name, loader.cacheAttached)
  }

  // ----- what a slot should hold -----

  /** The symbol's first entry has this offset. */
  predicate DefinedFirst(symbols: seq<Symbol>, name: seq<Byte>, offset: nat) {
    exists i :: 0 <= i < |symbols| && symbols[i].name == name && symbols[i].implOffset == offset
                && forall j :: 0 <= j < i ==> symbols[j].name != name
  }

  ghost predicate LibraryDefines(library: Library, name: seq<Byte>, cacheAttached: bool, v: nat) {
    match library
    case System(resolve) => cacheAttached && exists address :: resolve(name) == Ok(Some(address)) && v == address % U64
    case User(base, lookup) => exists offset :: lookup(name) == Ok(Some(Defined(offset))) && v == (base + offset) % U64
  }

  predicate Special(ordinal: nat) {
    ordinal == BIND_SPECIAL_DYLIB_SELF
        || BIND_SPECIAL_DYLIB_WEAK_LOOKUP <= ordinal <= BIND_SPECIAL_DYLIB_MAIN_EXECUTABLE
  }

  /**
   The pointer a fixup asks for: a rebase, its target behind page zero in the mapped image; a weak bind, the
   first symbol of that name in the image; any other bind, what the library of its ordinal defines.
   */
  ghost predicate AskedFor(loader: Loader, kind: Kind, v: nat) {
    match kind
    case Rebase(target) => v == (loader.base + loader.pageZero + target) % U64
    case Bind(name, ordinal, _, _) =>
      if ordinal == BIND_SPECIAL_DYLIB_WEAK_LOOKUP then
        exists offset :: DefinedFirst(loader.symbols, name, offset) && v == (loader.base + offset) % U64
      else
        && !Special(ordinal) && 1 <= ordinal <= |loader.dylibs|
        && LibraryDefines(loader.dylibs[ordinal - 1], name, loader.cacheAttached, v)
  }

  /** The binds that end the process: of a library that is not there, or that passes the symbol on. */
  predicate Panics(loader: Loader, kind: Kind) {
    && kind.Bind? && !Special(kind.ordinal)
    && (kind.ordinal > |loader.dylibs|
        || match loader.dylibs[kind.ordinal - 1]
           case System(resolve) => loader.cacheAttached && resolve(kind.name).Panic?
           case User(_, lookup) => lookup(kind.name).Panic? || lookup(kind.name) == Ok(Some(Reexported)))
  }

  /**
   A fixup has a value exactly when something is what it asks for, which is then that value; the rest are
   errors or panics.
   */
  lemma {:induction false} ValueAskedFor(loader: Loader, kind: Kind)
    ensures forall v: nat :: FixupValue(loader, kind) == Ok(v) <==> AskedFor(loader, kind, v)
    ensures FixupValue(loader, kind).Panic? <==> Panics(loader, kind)
  {
    if kind.Bind? && kind.ordinal == BIND_SPECIAL_DYLIB_WEAK_LOOKUP {
      hide FindSymbol, DefinedFirst;
      FirstIsFound(loader.symbols, kind.name);
      var found := FindSymbol(loader.symbols, kind.name);
      assert found.Some? ==> DefinedFirst(loader.symbols, kind.name, loader.symbols[found.value].implOffset);
    }
  }

  lemma {:induction false} FirstIsFound(symbols: seq<Symbol>, name: seq<Byte>)
    ensures forall offset :: DefinedFirst(symbols, name, offset) <==>
              FindSymbol(symbols, name).Some? && symbols[FindSymbol(symbols, name).value].implOffset == offset
  {
    hide FindSymbol;
    forall offset | DefinedFirst(symbols, name, offset)
      ensures FindSymbol(symbols, name).Some? && symbols[FindSymbol(symbols, name).value].implOffset == offset
    {
      var i :| 0 <= i < |symbols| && symbols[i].name == name && symbols[i].implOffset == offset
               && forall j :: 0 <= j < i ==> symbols[j].name != name;
      var found := FindSymbol(symbols, name);
      assert found.Some? && found.value == i;
    }
  }

  /** The slot of a fixup holds the pointer it asks for. */
  ghost predicate SlotRight(image: seq<Byte>, loader: Loader, f: Fixup) {
    var word := Read(image, f.offset + loader.pageZero, 8);
    word.Some? && AskedFor(loader, f.kind, word.value)
  }

  // ----- applying -----

  predicate Skipped(f: Fixup, ignoreBinds: bool) {
    ignoreBinds && f.kind.Bind?
  }

  /** Every slot that is stored to, up to the first fixup that fails, lies inside the mapped image. */
  predicate Mapped(length: nat, loader: Loader, fixups: seq<Fixup>, ignoreBinds: bool) {
    fixups == []
    || if Skipped(fixups[0], ignoreBinds) then Mapped(length, loader, fixups[1..], ignoreBinds)
       else FixupValue(loader, fixups[0].kind).Ok? ==>
              fixups[0].offset + loader.pageZero + 8 <= length && Mapped(length, loader, fixups[1..], ignoreBinds)
  }

  lemma {:induction false} InsideMapped(length: nat, loader: Loader, fixups: seq<Fixup>, ignoreBinds: bool)
    requires forall i :: 0 <= i < |fixups| ==> fixups[i].offset + loader.pageZero + 8 <= length
    ensures Mapped(length, loader, fixups, ignoreBinds)
  {
    hide FixupValue;
    if fixups != [] {
      InsideMapped(length, loader, fixups[1..], ignoreBinds);
    }
  }

  /** The image after the fixups, in order, up to the first that fails, and whether one failed. */
  function ApplyAll(image: seq<Byte>, loader: Loader, fixups: seq<Fixup>,
                    ignoreBinds: bool): (r: (seq<Byte>, Outcome<()>))
    requires Mapped(|image|, loader, fixups, ignoreBinds)
    ensures |r.0| == |image|
    decreases |fixups|
  {
    if fixups == [] then (image, Ok(()))
    else
      var f, rest := fixups[0], fixups[1..];
      if Skipped(f, ignoreBinds) then ApplyAll(image, loader, rest, ignoreBinds)
      else
        match FixupValue(loader, f.kind)
        case Err => (image, Err)
        case Panic => (image, Panic)
        case Ok(value) => ApplyAll(Put(image, Patch(f.offset + loader.pageZero, value)), loader, rest, ignoreBinds)
  }

  // ----- the code -----

  method Store(image: array<Byte>, offset: nat, value: nat)
    requires offset + 8 <= image.Length
    modifies image
    ensures image[..] == Put(old(image[..]), Patch(offset, value))
  {
    var word := Encode(value, 8);
    forall i | 0 <= i < 8 {
      image[offset + i] := word[i];
    }
  }

  method FixupAllChainedFixups(image: array<Byte>, loader: Loader, fixups: seq<Fixup>, ignoreBinds: bool)
                               returns (r: Outcome<()>)
    requires Mapped(image.Length, loader, fixups, ignoreBinds)
    modifies image
    ensures (image[..], r) == ApplyAll(old(image[..]), loader, fixups, ignoreBinds)
  {
    hide FixupValue, Put;
    ghost var goal := ApplyAll(image[..], loader, fixups, ignoreBinds);
    assert fixups[0..] == fixups;
    for i := 0 to |fixups|
      invariant Mapped(image.Length, loader, fixups[i..], ignoreBinds)
      invariant goal == ApplyAll(image[..], loader, fixups[i..], ignoreBinds)
    {
      var f := fixups[i];
      assert fixups[i..][0] == f && fixups[i..][1..] == fixups[i + 1..];
      if f.kind.Bind? && ignoreBinds {
        continue;
      }
      var value := FixupValue(loader, f.kind);
      if !value.Ok? {
        return value.PropagateFailure();
      }
      Store(image, f.offset + loader.pageZero, value.value);
    }
    return Ok(());
  }

  // ----- what applying means -----

  /** The stores of the fixups that are not skipped and have a value, in order. */
  function Stores(loader: Loader, fixups: seq<Fixup>, ignoreBinds: bool): seq<Patch> {
    if fixups == [] then []
    else
      (if !Skipped(fixups[0], ignoreBinds) && FixupValue(loader, fixups[0].kind).Ok?
       then [Patch(fixups[0].offset + loader.pageZero, FixupValue(loader, fixups[0].kind).value)] else [])
      + Stores(loader, fixups[1..], ignoreBinds)
  }

  predicate AllResolve(loader: Loader, fixups: seq<Fixup>, ignoreBinds: bool) {
    forall i :: 0 <= i < |fixups| ==> Skipped(fixups[i], ignoreBinds) || FixupValue(loader, fixups[i].kind).Ok?
  }

  /** A run succeeds exactly when every fixup it does not skip resolves, and then its effect is the fixups' stores. */
  lemma {:induction false} ApplyMeaning(image: seq<Byte>, loader: Loader, fixups: seq<Fixup>, ignoreBinds: bool)
    requires Mapped(|image|, loader, fixups, ignoreBinds)
    ensures ApplyAll(image, loader, fixups, ignoreBinds).1.Ok? <==> AllResolve(loader, fixups, ignoreBinds)
    ensures AllResolve(loader, fixups, ignoreBinds) ==>
              && Inside(|image|, Stores(loader, fixups, ignoreBinds))
              && ApplyAll(image, loader, fixups, ignoreBinds).0 == PutAll(image, Stores(loader, fixups, ignoreBinds))
    decreases |fixups|
  {
    hide FixupValue, Put;
    if fixups != [] {
      var f, rest := fixups[0], fixups[1..];
      var value := FixupValue(loader, f.kind);
      ResolveRest(loader, fixups, ignoreBinds);
      var stores := Stores(loader, rest, ignoreBinds);
      if Skipped(f, ignoreBinds) {
        ApplyMeaning(image, loader, rest, ignoreBinds);
        assert [] + stores == stores;
      } else if value.Ok? {
        var p := Patch(f.offset + loader.pageZero, value.value);
        ApplyMeaning(Put(image, p), loader, rest, ignoreBinds);
        StoreFirst(image, p, stores);
      }
    }
  }

  lemma ResolveRest(loader: Loader, fixups: seq<Fixup>, ignoreBinds: bool)
    requires fixups != []
    ensures AllResolve(loader, fixups, ignoreBinds)
       <==> (Skipped(fixups[0], ignoreBinds) || FixupValue(loader, fixups[0].kind).Ok?)
            && AllResolve(loader, fixups[1..], ignoreBinds)
  {
    hide FixupValue;
  }

  lemma StoreFirst(image: seq<Byte>, p: Patch, rest: seq<Patch>)
    requires p.offset + 8 <= |image|
    ensures Inside(|image|, rest) ==>
          Inside(|image|, [p] + rest) && PutAll(image, [p] + rest) == PutAll(Put(image, p), rest)
  {
    hide Put;
    assert ([p] + rest)[1..] == rest;
  }

  /** A run that fails has applied the fixups before the first that does not resolve, and ends with its error. */
  lemma {:induction false} ApplyPrefix(image: seq<Byte>, loader: Loader, fixups: seq<Fixup>, ignoreBinds: bool, i: nat)
    requires Mapped(|image|, loader, fixups, ignoreBinds) && i < |fixups|
          && AllResolve(loader, fixups[..i], ignoreBinds)
    requires !Skipped(fixups[i], ignoreBinds) && !FixupValue(loader, fixups[i].kind).Ok?
    ensures Mapped(|image|, loader, fixups[..i], ignoreBinds)
    ensures ApplyAll(image, loader, fixups, ignoreBinds)
         == (ApplyAll(image, loader, fixups[..i], ignoreBinds).0, FixupValue(loader, fixups[i].kind).PropagateFailure())
    decreases |fixups|
  {
    hide FixupValue, Put;
    if i > 0 {
      var f, rest := fixups[0], fixups[1..];
      assert fixups[..i][0] == f && fixups[..i][1..] == rest[..i - 1];
      ResolveRest(loader, fixups[..i], ignoreBinds);
      ApplyPrefix(if Skipped(f, ignoreBinds) then image
                  else Put(image, Patch(f.offset + loader.pageZero, FixupValue(loader, f.kind).value)),
                  loader, rest, ignoreBinds, i - 1);
    }
  }

  /** No two slots overlap. */
  predicate SlotsApart(fixups: seq<Fixup>) {
    forall i, j :: 0 <= i < j < |fixups| ==>
      fixups[i].offset + 8 <= fixups[j].offset || fixups[j].offset + 8 <= fixups[i].offset
  }

  predicate Fixes(f: Fixup, loader: Loader, p: Patch) {
    FixupValue(loader, f.kind).Ok? && p == Patch(f.offset + loader.pageZero, FixupValue(loader, f.kind).value)
  }

  /** The stores are those of the fixups that are not skipped. */
  lemma {:induction false} StoreOf(loader: Loader, fixups: seq<Fixup>, ignoreBinds: bool, p: Patch)
    ensures p in Stores(loader, fixups, ignoreBinds) <==>
            exists i :: 0 <= i < |fixups| && !Skipped(fixups[i], ignoreBinds) && Fixes(fixups[i], loader, p)
  {
    hide FixupValue;
    if fixups != [] {
      var rest := fixups[1..];
      StoreOf(loader, rest, ignoreBinds, p);
      if i :| 0 <= i < |rest| && !Skipped(rest[i], ignoreBinds) && Fixes(rest[i], loader, p) {
        assert fixups[i + 1] == rest[i];
      }
      if i :| 0 <= i < |fixups| && !Skipped(fixups[i], ignoreBinds) && Fixes(fixups[i], loader, p) {
        assert i > 0 ==> rest[i - 1] == fixups[i];
      }
    }
  }

  lemma {:induction false} StoresApart(loader: Loader, fixups: seq<Fixup>, ignoreBinds: bool)
    requires SlotsApart(fixups)
    ensures Apart(Stores(loader, fixups, ignoreBinds))
  {
    hide FixupValue;
    if fixups != [] {
      var f, rest := fixups[0], fixups[1..];
      StoresApart(loader, rest, ignoreBinds);
      var stores := Stores(loader, rest, ignoreBinds);
      forall j | 0 <= j < |stores|
        ensures f.offset + loader.pageZero + 8 <= stores[j].offset || stores[j].offset + 8 <= f.offset + loader.pageZero
      {
        StoreOf(loader, rest, ignoreBinds, stores[j]);
        var i :| 0 <= i < |rest| && !Skipped(rest[i], ignoreBinds) && Fixes(rest[i], loader, stores[j]);
        assert rest[i] == fixups[i + 1];
      }
    }
  }

  /** Byte `k` of the image lies in the slot of a fixup that is not skipped. */
  predicate InSlot(loader: Loader, fixups: seq<Fixup>, ignoreBinds: bool, k: nat) {
    exists i :: 0 <= i < |fixups| && !Skipped(fixups[i], ignoreBinds)
        && Patch(fixups[i].offset + loader.pageZero, 0).Covers(k)
  }

  /**
   After a successful run over slots that do not overlap, every slot holds its fixup's pointer and
   every byte outside the slots is as before.
   */
  lemma {:induction false} SlotsHoldValues(image: seq<Byte>, loader: Loader, fixups: seq<Fixup>, ignoreBinds: bool)
    requires Mapped(|image|, loader, fixups, ignoreBinds) && SlotsApart(fixups)
    requires ApplyAll(image, loader, fixups, ignoreBinds).1.Ok?
    ensures var fixed := ApplyAll(image, loader, fixups, ignoreBinds).0;
      && (forall i :: 0 <= i < |fixups| && !Skipped(fixups[i], ignoreBinds) ==>
            && FixupValue(loader, fixups[i].kind).Ok? && SlotRight(fixed, loader, fixups[i])
            && Read(fixed, fixups[i].offset + loader.pageZero, 8) == Some(FixupValue(loader, fixups[i].kind).value))
      && (forall k :: 0 <= k < |image| && !InSlot(loader, fixups, ignoreBinds, k) ==> fixed[k] == image[k])
  {
    hide FixupValue, PutAll, Stores, ApplyAll, Read, Mapped, AskedFor;
    var stores, fixed := Stores(loader, fixups, ignoreBinds), ApplyAll(image, loader, fixups, ignoreBinds).0;
    ApplyMeaning(image, loader, fixups, ignoreBinds);
    StoresApart(loader, fixups, ignoreBinds);
    forall i | 0 <= i < |fixups| && !Skipped(fixups[i], ignoreBinds)
      ensures FixupValue(loader, fixups[i].kind).Ok? && SlotRight(fixed, loader, fixups[i])
        && Read(fixed, fixups[i].offset + loader.pageZero, 8) == Some(FixupValue(loader, fixups[i].kind).value)
    {
      var p := Patch(fixups[i].offset + loader.pageZero, FixupValue(loader, fixups[i].kind).value);
      StoreOf(loader, fixups, ignoreBinds, p);
      assert Fixes(fixups[i], loader, p);
      var j :| 0 <= j < |stores| && stores[j] == p;
      ReadBack(image, stores, j);
      ValueAskedFor(loader, fixups[i].kind);
    }
    forall k | 0 <= k < |image| && !InSlot(loader, fixups, ignoreBinds, k)
      ensures fixed[k] == image[k]
    {
      forall j | 0 <= j < |stores|
        ensures !stores[j].Covers(k)
      {
        StoreOf(loader, fixups, ignoreBinds, stores[j]);
        var i :| 0 <= i < |fixups| && !Skipped(fixups[i], ignoreBinds) && Fixes(fixups[i], loader, stores[j]);
      }
      UntouchedAt(image, stores, k);
    }
  }

  /** Fixups whose slots do not overlap may be applied in any order: same success, same image. */
  lemma {:induction false} OrderIndependent(image: seq<Byte>, loader: Loader, fixups: seq<Fixup>, others: seq<Fixup>,
                                            ignoreBinds: bool)
    requires Mapped(|image|, loader, fixups, ignoreBinds) && SlotsApart(fixups)
    requires Mapped(|image|, loader, others, ignoreBinds) && SlotsApart(others)
    requires forall f :: f in fixups <==> f in others
    ensures var a, b := ApplyAll(image, loader, fixups, ignoreBinds), ApplyAll(image, loader, others, ignoreBinds);
      (a.1.Ok? <==> b.1.Ok?) && (a.1.Ok? ==> a.0 == b.0)
  {
    hide FixupValue, PutAll, Stores, ApplyAll, Mapped, AllResolve;
    ApplyMeaning(image, loader, fixups, ignoreBinds);
    ApplyMeaning(image, loader, others, ignoreBinds);
    ResolveTogether(loader, fixups, others, ignoreBinds);
    ResolveTogether(loader, others, fixups, ignoreBinds);
    if AllResolve(loader, fixups, ignoreBinds) {
      StoresApart(loader, fixups, ignoreBinds);
      StoresApart(loader, others, ignoreBinds);
      forall p
        ensures p in Stores(loader, fixups, ignoreBinds) <==> p in Stores(loader, others, ignoreBinds)
      {
        StoresTogether(loader, fixups, others, ignoreBinds, p);
        StoresTogether(loader, others, fixups, ignoreBinds, p);
      }
      OrderIrrelevant(image, Stores(loader, fixups, ignoreBinds), Stores(loader, others, ignoreBinds));
    }
  }

  lemma ResolveTogether(loader: Loader, fixups: seq<Fixup>, others: seq<Fixup>, ignoreBinds: bool)
    requires forall f :: f in fixups ==> f in others
    ensures AllResolve(loader, others, ignoreBinds) ==> AllResolve(loader, fixups, ignoreBinds)
  {
    hide FixupValue;
    forall i | 0 <= i < |fixups| && AllResolve(loader, others, ignoreBinds)
      ensures Skipped(fixups[i], ignoreBinds) || FixupValue(loader, fixups[i].kind).Ok?
    {
      assert fixups[i] in others;
      var j :| 0 <= j < |others| && others[j] == fixups[i];
    }
  }

  lemma StoresTogether(loader: Loader, fixups: seq<Fixup>, others: seq<Fixup>, ignoreBinds: bool, p: Patch)
    requires forall f :: f in fixups ==> f in others
    ensures p in Stores(loader, fixups, ignoreBinds) ==> p in Stores(loader, others, ignoreBinds)
  {
    hide FixupValue, Stores;
    StoreOf(loader, fixups, ignoreBinds, p);
    StoreOf(loader, others, ignoreBinds, p);
    if i :| 0 <= i < |fixups| && !Skipped(fixups[i], ignoreBinds) && Fixes(fixups[i], loader, p) {
      assert fixups[i] in others;
      var j :| 0 <= j < |others| && others[j] == fixups[i];
    }
  }

  // ----- the linker fixes itself up in two passes -----

  /** The binds of a list, in order. */
  function Binds(fixups: seq<Fixup>): seq<Fixup> {
    if fixups == [] then []
    else (if fixups[0].kind.Bind? then [fixups[0]] else []) + Binds(fixups[1..])
  }

  lemma {:induction false} BindsMember(fixups: seq<Fixup>, f: Fixup)
    ensures f in Binds(fixups) <==> f in fixups && f.kind.Bind?
  {
    if fixups != [] {
      BindsMember(fixups[1..], f);
      assert fixups == [fixups[0]] + fixups[1..];
    }
  }

  lemma {:induction false} BindsApart(fixups: seq<Fixup>)
    requires SlotsApart(fixups)
    ensures SlotsApart(Binds(fixups))
  {
    if fixups != [] {
      BindsApart(fixups[1..]);
      var rest := Binds(fixups[1..]);
      forall j | 0 <= j < |rest|
        ensures fixups[0].offset + 8 <= rest[j].offset || rest[j].offset + 8 <= fixups[0].offset
      {
        BindsMember(fixups[1..], rest[j]);
        var i :| 0 <= i < |fixups[1..]| && fixups[1..][i] == rest[j];
        assert fixups[i + 1] == rest[j];
      }
    }
  }

  lemma {:induction false} BindsMapped(length: nat, loader: Loader, fixups: seq<Fixup>)
    requires Mapped(length, loader, fixups, false)
    ensures Mapped(length, loader, Binds(fixups), false)
  {
    hide Binds;
    BindsStep(fixups);
    if fixups != [] && FixupValue(loader, fixups[0].kind).Ok? {
      BindsMapped(length, loader, fixups[1..]);
    }
  }

  lemma BindsStep(fixups: seq<Fixup>)
    ensures if fixups == [] then Binds(fixups) == []
            else if fixups[0].kind.Bind?
            then Binds(fixups) != [] && Binds(fixups)[0] == fixups[0] && Binds(fixups)[1..] == Binds(fixups[1..])
            else Binds(fixups) == Binds(fixups[1..])
  {}

  lemma {:induction false} PutAllConcat(image: seq<Byte>, a: seq<Patch>, b: seq<Patch>)
    requires Inside(|image|, a) && Inside(|image|, b)
    ensures Inside(|image|, a + b) && PutAll(image, a + b) == PutAll(PutAll(image, a), b)
    decreases |a|
  {
    hide Put;
    if a == [] {
      assert [] + b == b;
    } else {
      assert (a + b)[1..] == a[1..] + b;
      PutAllConcat(Put(image, a[0]), a[1..], b);
    }
  }

  /** Stores of the first pass and of the second never overlap. */
  lemma PassesApart(loader: Loader, early: Loader, fixups: seq<Fixup>, a: Patch, b: Patch)
    requires SlotsApart(fixups) && early.pageZero == loader.pageZero
    requires a in Stores(early, fixups, true) && b in Stores(loader, Binds(fixups), false)
    ensures a.offset + 8 <= b.offset || b.offset + 8 <= a.offset
  {
    hide FixupValue, Stores;
    StoreOf(early, fixups, true, a);
    StoreOf(loader, Binds(fixups), false, b);
    var i :| 0 <= i < |fixups| && !Skipped(fixups[i], true) && Fixes(fixups[i], early, a);
    var k :| 0 <= k < |Binds(fixups)| && Fixes(Binds(fixups)[k], loader, b);
    BindsMember(fixups, Binds(fixups)[k]);
    var j :| 0 <= j < |fixups| && fixups[j] == Binds(fixups)[k];
    assert i != j;
  }

  /** A full pass stores what the two passes store between them. */
  lemma PassesStore(loader: Loader, early: Loader, fixups: seq<Fixup>, p: Patch)
    requires early.base == loader.base && early.pageZero == loader.pageZero
    ensures p in Stores(loader, fixups, false)
          <==> p in Stores(early, fixups, true) || p in Stores(loader, Binds(fixups), false)
  {
    hide Stores;
    StoreOf(loader, fixups, false, p);
    StoreOf(early, fixups, true, p);
    StoreOf(loader, Binds(fixups), false, p);
    if i :| 0 <= i < |fixups| && Fixes(fixups[i], loader, p) {
      if fixups[i].kind.Bind? {
        BindsMember(fixups, fixups[i]);
        var k :| 0 <= k < |Binds(fixups)| && Binds(fixups)[k] == fixups[i];
        assert !Skipped(Binds(fixups)[k], false) && Fixes(Binds(fixups)[k], loader, p);
      } else {
        assert !Skipped(fixups[i], true) && Fixes(fixups[i], early, p);
      }
    }
    if i :| 0 <= i < |fixups| && !Skipped(fixups[i], true) && Fixes(fixups[i], early, p) {
      assert !Skipped(fixups[i], false) && Fixes(fixups[i], loader, p);
    }
    if k :| 0 <= k < |Binds(fixups)| && Fixes(Binds(fixups)[k], loader, p) {
      BindsMember(fixups, Binds(fixups)[k]);
      var j :| 0 <= j < |fixups| && fixups[j] == Binds(fixups)[k];
      assert !Skipped(fixups[j], false);
    }
  }

  lemma PassesResolve(loader: Loader, early: Loader, fixups: seq<Fixup>)
    ensures AllResolve(early, fixups, true)
    ensures AllResolve(loader, fixups, false) <==> AllResolve(loader, Binds(fixups), false)
  {
    if AllResolve(loader, Binds(fixups), false) {
      forall i | 0 <= i < |fixups|
        ensures FixupValue(loader, fixups[i].kind).Ok?
      {
        if fixups[i].kind.Bind? {
          BindsMember(fixups, fixups[i]);
          var k :| 0 <= k < |Binds(fixups)| && Binds(fixups)[k] == fixups[i];
        }
      }
    }
    if AllResolve(loader, fixups, false) {
      forall k | 0 <= k < |Binds(fixups)|
        ensures FixupValue(loader, Binds(fixups)[k].kind).Ok?
      {
        BindsMember(fixups, Binds(fixups)[k]);
        var j :| 0 <= j < |fixups| && fixups[j] == Binds(fixups)[k];
      }
    }
  }

  lemma ApartConcat(a: seq<Patch>, b: seq<Patch>)
    requires Apart(a) && Apart(b)
    requires forall i, j :: 0 <= i < |a| && 0 <= j < |b| ==>
          a[i].offset + 8 <= b[j].offset || b[j].offset + 8 <= a[i].offset
    ensures Apart(a + b)
  {}

  /**
   A rebase pass that ignores binds, made before anything can be resolved, followed by a pass over the
   binds alone, succeeds exactly when one full pass does, and leaves the same image.
   */
  lemma {:induction false} TwoPasses(image: seq<Byte>, early: Loader, loader: Loader, fixups: seq<Fixup>)
    requires early.base == loader.base && early.pageZero == loader.pageZero && SlotsApart(fixups)
    requires Mapped(|image|, early, fixups, true) && Mapped(|image|, loader, fixups, false)
    ensures Mapped(|image|, loader, Binds(fixups), false)
    ensures var first := ApplyAll(image, early, fixups, true);
      var second := ApplyAll(first.0, loader, Binds(fixups), false);
      var full := ApplyAll(image, loader, fixups, false);
      first.1.Ok? && (second.1.Ok? <==> full.1.Ok?) && (full.1.Ok? ==> second.0 == full.0)
  {
    hide FixupValue, PutAll, Stores, ApplyAll, Binds, Mapped, AllResolve;
    BindsMapped(|image|, loader, fixups);
    PassesResolve(loader, early, fixups);
    var rebases, binds, all := Stores(early, fixups, true), Stores(loader, Binds(fixups), false),
        Stores(loader, fixups, false);
    ApplyMeaning(image, early, fixups, true);
    ApplyMeaning(PutAll(image, rebases), loader, Binds(fixups), false);
    ApplyMeaning(image, loader, fixups, false);
    if AllResolve(loader, fixups, false) {
      PassesTogether(image, early, loader, fixups);
    }
  }

  /** The stores of the two passes, one after the other, leave what the stores of a full pass leave. */
  lemma PassesTogether(image: seq<Byte>, early: Loader, loader: Loader, fixups: seq<Fixup>)
    requires early.base == loader.base && early.pageZero == loader.pageZero && SlotsApart(fixups)
    requires Inside(|image|, Stores(early, fixups, true)) && Inside(|image|, Stores(loader, Binds(fixups), false))
    requires Inside(|image|, Stores(loader, fixups, false))
    ensures PutAll(PutAll(image, Stores(early, fixups, true)), Stores(loader, Binds(fixups), false))
         == PutAll(image, Stores(loader, fixups, false))
  {
    hide FixupValue, PutAll, Stores, Binds, SlotsApart;
    var rebases, binds, all := Stores(early, fixups, true), Stores(loader, Binds(fixups), false),
        Stores(loader, fixups, false);
    StoresApart(early, fixups, true);
    BindsApart(fixups);
    StoresApart(loader, Binds(fixups), false);
    StoresApart(loader, fixups, false);
    forall i, j | 0 <= i < |rebases| && 0 <= j < |binds|
      ensures rebases[i].offset + 8 <= binds[j].offset || binds[j].offset + 8 <= rebases[i].offset
    {
      PassesApart(loader, early, fixups, rebases[i], binds[j]);
    }
    ApartConcat(rebases, binds);
    PutAllConcat(image, rebases, binds);
    forall p
      ensures p in rebases + binds <==> p in all
    {
      PassesStore(loader, early, fixups, p);
    }
    OrderIrrelevant(image, rebases + binds, all);
  }

  /** A bind is redirected to the first library, whatever ordinal it had. */
  function Redirect(f: Fixup): (r: Fixup)
    ensures r.offset == f.offset && (r.kind.Bind? <==> f.kind.Bind?)
  {
    match f.kind
    case Rebase(_) => f
    case Bind(name, _, isAuth, addend) => Fixup(f.offset, Bind(name, 1, isAuth, addend))
  }

  function Redirected(fixups: seq<Fixup>): (r: seq<Fixup>)
    ensures |r| == |fixups| && forall i :: 0 <= i < |fixups| ==> r[i] == Redirect(fixups[i])
  {
    if fixups == [] then [] else [Redirect(fixups[0])] + Redirected(fixups[1..])
  }

  lemma {:induction false} RedirectedBinds(fixups: seq<Fixup>)
    ensures Binds(Redirected(fixups)) == Redirected(Binds(fixups))
  {
    hide Redirect;
    if fixups != [] {
      var rest := fixups[1..];
      RedirectedBinds(rest);
      assert Redirected(fixups)[1..] == Redirected(rest);
      if fixups[0].kind.Bind? {
        assert Binds(fixups) == [fixups[0]] + Binds(rest);
        assert Binds(fixups)[1..] == Binds(rest);
      } else {
        assert Binds(fixups) == [] + Binds(rest) == Binds(rest);
        assert Binds(Redirected(fixups)) == [] + Binds(Redirected(rest)) == Binds(Redirected(rest));
      }
    }
  }

  lemma {:induction false} RebasesUnaffected(image: seq<Byte>, loader: Loader, fixups: seq<Fixup>)
    requires Mapped(|image|, loader, fixups, true)
    ensures Mapped(|image|, loader, Redirected(fixups), true)
    ensures ApplyAll(image, loader, Redirected(fixups), true) == ApplyAll(image, loader, fixups, true)
    decreases |fixups|
  {
    hide FixupValue, Put;
    if fixups != [] {
      var f, rest := fixups[0], fixups[1..];
      assert Redirected(fixups)[1..] == Redirected(rest);
      if f.kind.Bind? {
        RebasesUnaffected(image, loader, rest);
      } else if FixupValue(loader, f.kind).Ok? {
        RebasesUnaffected(Put(image, Patch(f.offset + loader.pageZero, FixupValue(loader, f.kind).value)), loader,
            rest);
      }
    }
  }

  /**
   How the linker fixes itself up: rebases first, and later its binds, all redirected to the first
   library. It is as if one pass had been made over the redirected list.
   */
  lemma {:induction false} SelfFixup(image: seq<Byte>, early: Loader, loader: Loader, fixups: seq<Fixup>)
    requires early.base == loader.base && early.pageZero == loader.pageZero && SlotsApart(fixups)
    requires Mapped(|image|, early, fixups, true) && Mapped(|image|, loader, Redirected(fixups), false)
    ensures Mapped(|image|, loader, Redirected(Binds(fixups)), false)
    ensures var first := ApplyAll(image, early, fixups, true);
      var second := ApplyAll(first.0, loader, Redirected(Binds(fixups)), false);
      var full := ApplyAll(image, loader, Redirected(fixups), false);
      first.1.Ok? && (second.1.Ok? <==> full.1.Ok?) && (full.1.Ok? ==> second.0 == full.0)
  {
    hide ApplyAll, Binds, Redirected;
    RebasesUnaffected(image, early, fixups);
    RedirectedBinds(fixups);
    TwoPasses(image, early, loader, Redirected(fixups));
  }
}
