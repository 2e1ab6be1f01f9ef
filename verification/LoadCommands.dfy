/**
 Walking an image's load commands: the library an ordinal names, the libraries re-exported whole, the first of
 a kind.
 */
module LoadCommands {
  import opened Prelude
  import opened Bytes
  import opened CStrings

  const LC_LOAD_DYLIB: nat := 0xC
  const LC_SEGMENT_64: nat := 0x19
  const LC_LAZY_LOAD_DYLIB: nat := 0x20
  const LC_LOAD_WEAK_DYLIB: nat := 0x8000_0018
  const LC_REEXPORT_DYLIB: nat := 0x8000_001F
  const LC_DYLD_INFO_ONLY: nat := 0x8000_0022
  const LC_LOAD_UPWARD_DYLIB: nat := 0x8000_0023
  const LC_DYLD_EXPORTS_TRIE: nat := 0x8000_0033

  const HEADER_SIZE: nat := 32

  type Path = seq<Byte>

  /** The commands that count for an ordinal. */
  predicate IsDependency(cmd: nat) {
    cmd == LC_LOAD_DYLIB || cmd == LC_REEXPORT_DYLIB
  }

  // ----- one command -----

  /** A command's kind and size; `known` are the kinds that exist, and reading any other fails. */
  function CommandAt(bytes: seq<Byte>, known: nat -> bool, offset: nat): Outcome<(nat, nat)> {
    match (Read(bytes, offset, 4), Read(bytes, offset + 4, 4))
    case (Some(cmd), Some(size)) => if known(cmd) then Ok((cmd, size)) else Err
    case _ => Err
  }

  /** The install name of a dylib command; out of bounds or unterminated, it panics. */
  function InstallName(bytes: seq<Byte>, offset: nat): Outcome<Path> {
    if offset + 24 > |bytes| then Err
    else
      match Read(bytes, offset + 8, 4)
      case None => Err
      case Some(nameOffset) =>
        if offset + nameOffset > |bytes| then Panic
        else
          match NulAt(bytes, offset + nameOffset)
          case None => Panic
          case Some(n) => Ok(bytes[offset + nameOffset..offset + nameOffset + n])
  }

  /** The name is the string that the field at 8 points at, terminated; without one it panics. */
  lemma InstallNameRead(bytes: seq<Byte>, offset: nat, nameOffset: nat, name: Path)
    requires offset + 24 <= |bytes| && At(bytes, offset + 8, Bytes.Encode(nameOffset, 4)) && nameOffset < 0x1_0000_0000
    ensures InstallName(bytes, offset) == Ok(name) <==> CStringAt(bytes, offset + nameOffset, name) && NulFree(name)
    ensures InstallName(bytes, offset) != Err
  {
    hide At, Bytes.Encode, Read, NulFree, CStringAt;
    Limits();
    ReadWritten(bytes, offset + 8, nameOffset, 4);
    CStringMeaning(bytes, offset + nameOffset, name);
  }

  function CommandCount(bytes: seq<Byte>, base: nat): Outcome<nat> {
    if base + HEADER_SIZE > |bytes| then Err
    else
      match Read(bytes, base + 16, 4)
      case None => Err
      case Some(n) => Ok(n)
  }

  // ----- walks -----

  /** The name of the `target`-th dependency, `seen` of them being behind. */
  function PathFrom(bytes: seq<Byte>, known: nat -> bool, offset: nat, remaining: nat, seen: nat,
                    target: nat): Outcome<Option<Path>>
    decreases remaining
  {
    if remaining == 0 then Ok(None)
    else
      var command :- CommandAt(bytes, known, offset);
      if !IsDependency(command.0) then PathFrom(bytes, known, offset + command.1, remaining - 1, seen, target)
      else if seen + 1 == target then
        var name :- InstallName(bytes, offset);
        Ok(Some(name))
      else PathFrom(bytes, known, offset + command.1, remaining - 1, seen + 1, target)
  }

  /** The path of the library an ordinal names, in the image whose header stands at `base`. */
  function OrdinalPath(bytes: seq<Byte>, known: nat -> bool, base: nat, target: nat): Outcome<Option<Path>> {
    var count :- CommandCount(bytes, base);
    PathFrom(bytes, known, base + HEADER_SIZE, count, 0, target)
  }

  method DylibInstallPathForOrdinal(bytes: seq<Byte>, known: nat -> bool, base: nat, target: nat)
                                    returns (r: Outcome<Option<Path>>)
    ensures r == OrdinalPath(bytes, known, base, target)
  {
    hide CommandAt, InstallName, CommandCount;
    var count := CommandCount(bytes, base);
    if !count.Ok? {
      return count.PropagateFailure();
    }
    var offset: nat, seen: nat := base + HEADER_SIZE, 0;
    for i := 0 to count.value
      invariant PathFrom(bytes, known, base + HEADER_SIZE, count.value, 0, target)
             == PathFrom(bytes, known, offset, count.value - i, seen, target)
    {
      var command := CommandAt(bytes, known, offset);
      if !command.Ok? {
        return command.PropagateFailure();
      }
      if IsDependency(command.value.0) {
        seen := seen + 1;
        if seen == target {
          var name := InstallName(bytes, offset);
          if !name.Ok? {
            return name.PropagateFailure();
          }
          return Ok(Some(name.value));
        }
      }
      offset := offset + command.value.1;
    }
    return Ok(None);
  }

  /** The names of the libraries re-exported whole; a command whose name cannot be read is passed over. */
  function ReexportsFrom(bytes: seq<Byte>, known: nat -> bool, offset: nat, remaining: nat): Outcome<seq<Path>>
    decreases remaining
  {
    if remaining == 0 then Ok([])
    else
      var command :- CommandAt(bytes, known, offset);
      var name := InstallName(bytes, offset);
      if command.0 == LC_REEXPORT_DYLIB && name.Panic? then Panic
      else
        var rest :- ReexportsFrom(bytes, known, offset + command.1, remaining - 1);
        Ok((if command.0 == LC_REEXPORT_DYLIB && name.Ok? then [name.value] else []) + rest)
  }

  function Prefixed(paths: seq<Path>, r: Outcome<seq<Path>>): Outcome<seq<Path>> {
    if r.Ok? then Ok(paths + r.value) else r
  }

  /** The paths of the libraries re-exported whole by the image whose header stands at `base`. */
  function ReexportPaths(bytes: seq<Byte>, known: nat -> bool, base: nat): Outcome<seq<Path>> {
    var count :- CommandCount(bytes, base);
    ReexportsFrom(bytes, known, base + HEADER_SIZE, count)
  }

  method ReexportedDylibPathsCollect(bytes: seq<Byte>, known: nat -> bool, base: nat) returns (r: Outcome<seq<Path>>)
    ensures r == ReexportPaths(bytes, known, base)
  {
    hide CommandAt, InstallName, CommandCount;
    var count := CommandCount(bytes, base);
    if !count.Ok? {
      return count.PropagateFailure();
    }
    var offset: nat, paths: seq<Path> := base + HEADER_SIZE, [];
    ghost var goal := ReexportsFrom(bytes, known, offset, count.value);
    assert goal.Ok? ==> [] + goal.value == goal.value;
    for i := 0 to count.value
      invariant goal == Prefixed(paths, ReexportsFrom(bytes, known, offset, count.value - i))
    {
      var command := CommandAt(bytes, known, offset);
      if !command.Ok? {
        return command.PropagateFailure();
      }
      ghost var before, rest := paths, ReexportsFrom(bytes, known, offset + command.value.1, count.value - i - 1);
      if command.value.0 == LC_REEXPORT_DYLIB {
        var name := InstallName(bytes, offset);
        if name.Panic? {
          return Panic;
        }
        if name.Ok? {
          paths := paths + [name.value];
          assert rest.Ok? ==> before + ([name.value] + rest.value) == paths + rest.value;
        }
      }
      assert rest.Ok? ==> before + ([] + rest.value) == before + rest.value;
      offset := offset + command.value.1;
    }
    assert paths + [] == paths;
    return Ok(paths);
  }

  // ----- the first command of interest -----

  /** What a visitor makes of a command, from its kind and offset: nothing, a result, or an error. */
  type Visitor<T> = (nat, nat) -> Outcome<Option<T>>

  function FindFrom<T>(bytes: seq<Byte>, known: nat -> bool, offset: nat, remaining: nat,
                       visit: Visitor<T>): Outcome<Option<T>>
    decreases remaining
  {
    if remaining == 0 then Ok(None)
    else
      var command :- CommandAt(bytes, known, offset);
      var found :- visit(command.0, offset);
      if found.Some? then Ok(found) else FindFrom(bytes, known, offset + command.1, remaining - 1, visit)
  }

  function Find<T>(bytes: seq<Byte>, known: nat -> bool, base: nat, visit: Visitor<T>): Outcome<Option<T>> {
    var count :- CommandCount(bytes, base);
    FindFrom(bytes, known, base + HEADER_SIZE, count, visit)
  }

  method LoadCommandsFind<T>(bytes: seq<Byte>, known: nat -> bool, base: nat, visit: Visitor<T>)
                             returns (r: Outcome<Option<T>>)
    ensures r == Find(bytes, known, base, visit)
  {
    hide CommandAt, CommandCount;
    var count := CommandCount(bytes, base);
    if !count.Ok? {
      return count.PropagateFailure();
    }
    var offset: nat := base + HEADER_SIZE;
    for i := 0 to count.value
      invariant Find(bytes, known, base, visit) == FindFrom(bytes, known, offset, count.value - i, visit)
    {
      var command := CommandAt(bytes, known, offset);
      if !command.Ok? {
        return command.PropagateFailure();
      }
      var found := visit(command.value.0, offset);
      if !found.Ok? || found.value.Some? {
        return found;
      }
      offset := offset + command.value.1;
    }
    return Ok(None);
  }

  /** Where the exports trie lies in the file. */
  datatype Span = Span(fileOffset: nat, size: nat)

  function SpanOf(bytes: seq<Byte>): Visitor<Span> {
    (cmd: nat, offset: nat) =>
      if cmd == LC_DYLD_EXPORTS_TRIE then SpanAt(bytes, offset, 16, 8)
      else if cmd == LC_DYLD_INFO_ONLY then SpanAt(bytes, offset, 48, 40)
      else Ok(None)
  }

  /** A command of `size` bytes at `offset` has an offset and a length at `field`. */
  function SpanAt(bytes: seq<Byte>, offset: nat, size: nat, field: nat): Outcome<Option<Span>> {
    match (Read(bytes, offset + field, 4), Read(bytes, offset + field + 4, 4))
    case (Some(at), Some(length)) => if offset + size > |bytes| then Err else Ok(Some(Span(at, length)))
    case _ => Err
  }

  /** `__LINKEDIT` */
  const LINKEDIT_NAME: seq<Byte> := [0x5F, 0x5F, 0x4C, 0x49, 0x4E, 0x4B, 0x45, 0x44, 0x49, 0x54]

  datatype Linkedit = Linkedit(address: nat, fileOffset: nat)

  function LinkeditOf(bytes: seq<Byte>): Visitor<Linkedit> {
    (cmd: nat, offset: nat) =>
      if cmd != LC_SEGMENT_64 then Ok(None)
      else if offset + 72 > |bytes| then Err
      else if bytes[offset + 8..offset + 18] != LINKEDIT_NAME then Ok(None)
      else
        match (Read(bytes, offset + 24, 8), Read(bytes, offset + 40, 8))
        case (Some(address), Some(fileOffset)) => Ok(Some(Linkedit(address, fileOffset)))
        case _ => Err
  }

  // ----- what the walks find -----

  /** A load command as it was laid out; `name` matters for dylib commands. */
  datatype Loaded = Loaded(cmd: nat, size: nat, name: Path)

  /** The bytes from `offset` hold these commands. */
  predicate LaidOut(bytes: seq<Byte>, known: nat -> bool, offset: nat, cs: seq<Loaded>)
    decreases |cs|
  {
    cs == []
    || (&& CommandAt(bytes, known, offset) == Ok((cs[0].cmd, cs[0].size))
        && (IsDependency(cs[0].cmd) ==> InstallName(bytes, offset) == Ok(cs[0].name))
        && LaidOut(bytes, known, offset + cs[0].size, cs[1..]))
  }

  /** Where command `i` of a list that begins at `offset` stands. */
  function CommandOffset(offset: nat, cs: seq<Loaded>, i: nat): nat
    requires i <= |cs|
    decreases i
  {
    if i == 0 then offset else CommandOffset(offset + cs[0].size, cs[1..], i - 1)
  }

  /** The search ends at the first command of which its visitor makes something, with what it makes of it. */
  lemma {:induction false} FindIsFirst<T>(bytes: seq<Byte>, known: nat -> bool, offset: nat, cs: seq<Loaded>,
                                          visit: Visitor<T>, i: nat)
    requires LaidOut(bytes, known, offset, cs) && i <= |cs|
    requires forall j :: 0 <= j < i ==> visit(cs[j].cmd, CommandOffset(offset, cs, j)) == Ok(None)
    requires i < |cs| ==> visit(cs[i].cmd, CommandOffset(offset, cs, i)) != Ok(None)
    ensures FindFrom(bytes, known, offset, |cs|, visit)
         == if i < |cs| then visit(cs[i].cmd, CommandOffset(offset, cs, i)) else Ok(None)
    decreases |cs|
  {
    hide CommandAt, InstallName;
    if i > 0 {
      assert visit(cs[0].cmd, CommandOffset(offset, cs, 0)) == Ok(None);
      var rest := cs[1..];
      forall j | 0 <= j < i - 1
        ensures visit(rest[j].cmd, CommandOffset(offset + cs[0].size, rest, j)) == Ok(None)
      {
        assert visit(cs[j + 1].cmd, CommandOffset(offset, cs, j + 1)) == Ok(None);
      }
      FindIsFirst(bytes, known, offset + cs[0].size, rest, visit, i - 1);
    }
  }

  /** The ordinals of the format: every command that loads a library counts. */
  predicate LoadsLibrary(cmd: nat) {
    IsDependency(cmd) || cmd == LC_LOAD_WEAK_DYLIB || cmd == LC_LOAD_UPWARD_DYLIB || cmd == LC_LAZY_LOAD_DYLIB
  }

  predicate Counts(cmd: nat, documented: bool) {
    if documented then LoadsLibrary(cmd) else IsDependency(cmd)
  }

  /** The index of the `n`-th command that counts, the first being number 1. */
  function Nth(cs: seq<Loaded>, documented: bool, n: nat): (r: Option<nat>)
    ensures r.Some? ==> r.value < |cs| && Counts(cs[r.value].cmd, documented)
  {
    if cs == [] then None
    else if Counts(cs[0].cmd, documented) && n == 1 then Some(0)
    else
      match Nth(cs[1..], documented, if Counts(cs[0].cmd, documented) && n > 0 then n - 1 else n)
      case None => None
      case Some(i) => Some(i + 1)
  }

  /** The walk finds the name of the `target`-th dependency that is laid out, and None if there is none. */
  lemma {:induction false} PathIsNth(bytes: seq<Byte>, known: nat -> bool, offset: nat, cs: seq<Loaded>, seen: nat,
                                     target: nat)
    requires LaidOut(bytes, known, offset, cs) && (target > 0 ==> seen < target)
    ensures var i := Nth(cs, false, if target > 0 then target - seen else 0);
      PathFrom(bytes, known, offset, |cs|, seen, target) == Ok(if i.Some? then Some(cs[i.value].name) else None)
    decreases |cs|
  {
    hide CommandAt, InstallName;
    if cs != [] {
      var c := cs[0];
      if IsDependency(c.cmd) && target != seen + 1 {
        if target == 0 {
          NoZeroth(cs[1..]);
          PastTarget(bytes, known, offset + c.size, cs[1..], seen + 1);
        } else {
          PathIsNth(bytes, known, offset + c.size, cs[1..], seen + 1, target);
        }
      } else if !IsDependency(c.cmd) {
        PathIsNth(bytes, known, offset + c.size, cs[1..], seen, target);
      }
    }
  }

  lemma {:induction false} NoZeroth(cs: seq<Loaded>)
    ensures Nth(cs, false, 0).None? && Nth(cs, true, 0).None?
  {
    if cs != [] {
      NoZeroth(cs[1..]);
    }
  }

  /** Ordinal 0 names no library. */
  lemma {:induction false} PastTarget(bytes: seq<Byte>, known: nat -> bool, offset: nat, cs: seq<Loaded>, seen: nat)
    requires LaidOut(bytes, known, offset, cs)
    ensures PathFrom(bytes, known, offset, |cs|, seen, 0) == Ok(None)
    decreases |cs|
  {
    hide CommandAt, InstallName;
    if cs != [] {
      PastTarget(bytes, known, offset + cs[0].size, cs[1..], if IsDependency(cs[0].cmd) then seen + 1 else seen);
    }
  }

  /** The names of the whole re-exports, in order. */
  function ReexportNames(cs: seq<Loaded>): seq<Path> {
    if cs == [] then [] else (if cs[0].cmd == LC_REEXPORT_DYLIB then [cs[0].name] else []) + ReexportNames(cs[1..])
  }

  lemma {:induction false} ReexportsAreNames(bytes: seq<Byte>, known: nat -> bool, offset: nat, cs: seq<Loaded>)
    requires LaidOut(bytes, known, offset, cs)
    ensures ReexportsFrom(bytes, known, offset, |cs|) == Ok(ReexportNames(cs))
    decreases |cs|
  {
    hide CommandAt, InstallName;
    if cs != [] {
      ReexportsAreNames(bytes, known, offset + cs[0].size, cs[1..]);
    }
  }

  // ----- ordinals as documented -----

  /** Commands of kinds the walk does not count before and at index `i`. */
  predicate AllCounted(cs: seq<Loaded>, i: nat) {
    forall j :: 0 <= j <= i && j < |cs| && LoadsLibrary(cs[j].cmd) ==> IsDependency(cs[j].cmd)
  }

  lemma {:induction false} NthApart(cs: seq<Loaded>, n: nat, m: nat)
    requires 0 < n && n <= m && Nth(cs, true, n).Some?
    ensures m > n ==> Nth(cs, false, m) != Nth(cs, true, n)
    ensures m == n ==> (Nth(cs, false, m) == Nth(cs, true, n) <==> AllCounted(cs, Nth(cs, true, n).value))
    decreases |cs|
  {
    var c, rest := cs[0].cmd, cs[1..];
    if LoadsLibrary(c) && n == 1 {
      assert Nth(cs, true, n) == Some(0);
      if m == 1 && !IsDependency(c) {
        assert !AllCounted(cs, 0);
      }
    } else {
      var n', m' := if LoadsLibrary(c) then n - 1 else n, if IsDependency(c) then m - 1 else m;
      NthApart(rest, n', m');
      var k := Nth(rest, true, n').value;
      assert Nth(cs, true, n) == Some(k + 1);
      if m == n && (LoadsLibrary(c) ==> IsDependency(c)) {
        CountedRest(cs, k);
      } else if m == n {
        assert !AllCounted(cs, k + 1);
      }
    }
  }

  lemma CountedRest(cs: seq<Loaded>, k: nat)
    requires cs != [] && (LoadsLibrary(cs[0].cmd) ==> IsDependency(cs[0].cmd))
    ensures AllCounted(cs, k + 1) <==> AllCounted(cs[1..], k)
  {
    if AllCounted(cs, k + 1) {
      forall j | 0 <= j <= k && j < |cs[1..]| && LoadsLibrary(cs[1..][j].cmd)
        ensures IsDependency(cs[1..][j].cmd)
      {
        assert cs[1..][j] == cs[j + 1];
      }
    }
    if AllCounted(cs[1..], k) {
      forall j | 0 <= j <= k + 1 && j < |cs| && LoadsLibrary(cs[j].cmd)
        ensures IsDependency(cs[j].cmd)
      {
        assert j > 0 ==> cs[j] == cs[1..][j - 1];
      }
    }
  }

  /** The names of all libraries loaded, of whatever kind, stand where the format puts them. */
  predicate Labelled(bytes: seq<Byte>, offset: nat, cs: seq<Loaded>) {
    forall i :: 0 <= i < |cs| && LoadsLibrary(cs[i].cmd) ==>
        InstallName(bytes, CommandOffset(offset, cs, i)) == Ok(cs[i].name)
  }

  /** No library is loaded twice. */
  predicate LoadedOnce(cs: seq<Loaded>) {
    forall i, j :: 0 <= i < j < |cs| && LoadsLibrary(cs[i].cmd) && LoadsLibrary(cs[j].cmd) ==> cs[i].name != cs[j].name
  }

  /** The install name, in the bytes, of the library that an ordinal names by the format's own count. */
  function DocumentedPath(bytes: seq<Byte>, offset: nat, cs: seq<Loaded>, ordinal: nat): Outcome<Option<Path>> {
    match Nth(cs, true, ordinal)
    case None => Ok(None)
    case Some(k) =>
      var name :- InstallName(bytes, CommandOffset(offset, cs, k));
      Ok(Some(name))
  }

  /**
   The format counts weak, upward and lazy dependencies in an ordinal; the walk does not. For an
   ordinal that names a library, the walk returns that library's install name exactly when neither it
   nor any library before it is of a kind the walk does not count.
   */
  lemma {:induction false} OrdinalsAsDocumented(bytes: seq<Byte>, known: nat -> bool, offset: nat, cs: seq<Loaded>,
                                                ordinal: nat)
    requires LaidOut(bytes, known, offset, cs) && Labelled(bytes, offset, cs) && LoadedOnce(cs)
    requires 0 < ordinal && Nth(cs, true, ordinal).Some?
    ensures PathFrom(bytes, known, offset, |cs|, 0, ordinal) == DocumentedPath(bytes, offset, cs, ordinal)
       <==> AllCounted(cs, Nth(cs, true, ordinal).value)
  {
    hide CommandAt, InstallName, PathFrom, LaidOut, AllCounted, Nth;
    PathIsNth(bytes, known, offset, cs, 0, ordinal);
    NthApart(cs, ordinal, ordinal);
    var k, found := Nth(cs, true, ordinal).value, Nth(cs, false, ordinal);
    NthCounts(cs, true, ordinal);
    assert DocumentedPath(bytes, offset, cs, ordinal) == Ok(Some(cs[k].name));
    if found.Some? && found.value != k {
      NthCounts(cs, false, ordinal);
      assert cs[if found.value < k then found.value else k].name != cs[if found.value < k then k else found.value].name;
    }
  }

  lemma NthCounts(cs: seq<Loaded>, documented: bool, n: nat)
    requires Nth(cs, documented, n).Some?
    ensures Nth(cs, documented, n).value < |cs| && LoadsLibrary(cs[Nth(cs, documented, n).value].cmd)
  {}

  // ----- images as they are written -----

  /** A load command: one with a library's name, one that says where the exports trie is, or a segment. */
  datatype Command =
    | Named(cmd: nat, name: Path)
    | TrieCommand(span: Span)
    | InfoCommand(other: seq<Byte>, span: Span)
    | Segment(title: seq<Byte>, address: nat, size: nat, fileOffset: nat, other: seq<Byte>)
  {
    function Kind(): nat {
      match this
      case Named(cmd, _) => cmd
      case TrieCommand(_) => LC_DYLD_EXPORTS_TRIE
      case InfoCommand(_, _) => LC_DYLD_INFO_ONLY
      case Segment(_, _, _, _, _) => LC_SEGMENT_64
    }

    function Body(): seq<Byte> {
      match this
      case Named(_, name) => Bytes.Encode(24, 4) + (Bytes.Encode(0, 12) + (name + [0]))
      case TrieCommand(span) => SpanBytes(span)
      case InfoCommand(other, span) => other + SpanBytes(span)
      case Segment(title, address, size, fileOffset, other) =>
        title + (Bytes.Encode(address, 8) + (Bytes.Encode(size, 8) + (Bytes.Encode(fileOffset, 8) + other)))
    }

    function Length(): nat {
      8 + |Body()|
    }

    /** The trie it says to exist. */
    function Trie(): Option<Span> {
      if TrieCommand? || InfoCommand? then Some(span) else None
    }

    function LinkEdit(): Option<Linkedit> {
      if Segment? && LINKEDIT_NAME <= title then Some(Linkedit(address, fileOffset)) else None
    }
  }

  function SpanBytes(span: Span): (s: seq<Byte>)
    ensures |s| == 8
  {
    Bytes.Encode(span.fileOffset, 4) + Bytes.Encode(span.size, 4)
  }

  function CommandBytes(c: Command): (s: seq<Byte>)
    ensures |s| == c.Length()
  {
    Bytes.Encode(c.Kind(), 4) + (Bytes.Encode(c.Length(), 4) + c.Body())
  }

  function AllBytes(cs: seq<Command>): seq<Byte> {
    if cs == [] then [] else CommandBytes(cs[0]) + AllBytes(cs[1..])
  }

  /** A command as the walks see it. */
  function Seen(c: Command): Loaded {
    Loaded(c.Kind(), c.Length(), if c.Named? then c.name else [])
  }

  function Commands(cs: seq<Command>): (r: seq<Loaded>)
    ensures |r| == |cs| && forall i :: 0 <= i < |cs| ==> r[i] == Seen(cs[i])
  {
    seq(|cs|, i requires 0 <= i < |cs| => Seen(cs[i]))
  }

  /** The fields fit their places, and a name is not given to a command that has none. */
  predicate CommandFits(c: Command) {
    match c
    case Named(cmd, name) =>
      && cmd < 0x1_0000_0000 && NulFree(name) && 25 + |name| < 0x1_0000_0000
      && cmd != LC_DYLD_EXPORTS_TRIE && cmd != LC_DYLD_INFO_ONLY && cmd != LC_SEGMENT_64
    case TrieCommand(span) => SpanFits(span)
    case InfoCommand(other, span) => |other| == 32 && SpanFits(span)
    case Segment(title, address, size, fileOffset, other) =>
      && |title| == 16 && |other| == 24
      && address < 0x1_0000_0000_0000_0000 && fileOffset < 0x1_0000_0000_0000_0000
  }

  predicate SpanFits(span: Span) {
    span.fileOffset < 0x1_0000_0000 && span.size < 0x1_0000_0000
  }

  lemma HeadWritten(bytes: seq<Byte>, offset: nat, c: Command, known: nat -> bool)
    requires At(bytes, offset, CommandBytes(c)) && CommandFits(c) && known(c.Kind())
    ensures CommandAt(bytes, known, offset) == Ok((c.Kind(), c.Length())) && At(bytes, offset + 8, c.Body())
  {
    hide At, Bytes.Encode, Read, NulFree;
    AtConcat(bytes, offset, Bytes.Encode(c.Kind(), 4), Bytes.Encode(c.Length(), 4) + c.Body());
    AtConcat(bytes, offset + 4, Bytes.Encode(c.Length(), 4), c.Body());
    Limits();
    ReadWritten(bytes, offset, c.Kind(), 4);
    ReadWritten(bytes, offset + 4, c.Length(), 4);
  }

  lemma NameWritten(bytes: seq<Byte>, offset: nat, name: Path)
    requires At(bytes, offset + 8, Named(0, name).Body()) && NulFree(name)
    ensures InstallName(bytes, offset) == Ok(name)
  {
    hide At, Bytes.Encode, InstallName, NulFree;
    var text := name + [0];
    AtConcat(bytes, offset + 8, Bytes.Encode(24, 4), Bytes.Encode(0, 12) + text);
    AtConcat(bytes, offset + 12, Bytes.Encode(0, 12), text);
    AtLength(bytes, offset + 24, text);
    InstallNameRead(bytes, offset, 24, name);
  }

  lemma SpanWritten(bytes: seq<Byte>, offset: nat, field: nat, span: Span)
    requires At(bytes, offset + field, SpanBytes(span)) && SpanFits(span)
    ensures SpanAt(bytes, offset, field + 8, field) == Ok(Some(span))
  {
    hide At, Bytes.Encode, Read;
    AtLength(bytes, offset + field, SpanBytes(span));
    AtConcat(bytes, offset + field, Bytes.Encode(span.fileOffset, 4), Bytes.Encode(span.size, 4));
    Limits();
    ReadWritten(bytes, offset + field, span.fileOffset, 4);
    ReadWritten(bytes, offset + field + 4, span.size, 4);
  }

  lemma SegmentWritten(bytes: seq<Byte>, offset: nat, c: Command)
    requires c.Segment? && At(bytes, offset + 8, c.Body()) && CommandFits(c)
    ensures LinkeditOf(bytes)(LC_SEGMENT_64, offset) == Ok(c.LinkEdit())
  {
    hide At, Bytes.Encode, Read;
    var places := Bytes.Encode(c.fileOffset, 8) + c.other;
    var fromSize := Bytes.Encode(c.size, 8) + places;
    var fromAddress := Bytes.Encode(c.address, 8) + fromSize;
    AtLength(bytes, offset + 8, c.Body());
    AtConcat(bytes, offset + 8, c.title, fromAddress);
    AtConcat(bytes, offset + 24, Bytes.Encode(c.address, 8), fromSize);
    AtConcat(bytes, offset + 32, Bytes.Encode(c.size, 8), places);
    AtConcat(bytes, offset + 40, Bytes.Encode(c.fileOffset, 8), c.other);
    Limits();
    ReadWritten(bytes, offset + 24, c.address, 8);
    ReadWritten(bytes, offset + 40, c.fileOffset, 8);
    TitleRead(bytes, offset + 8, c.title);
  }

  lemma TitleRead(bytes: seq<Byte>, offset: nat, title: seq<Byte>)
    requires At(bytes, offset, title) && |title| == 16
    ensures offset + 16 <= |bytes| && (bytes[offset..offset + 10] == LINKEDIT_NAME <==> LINKEDIT_NAME <= title)
  {
    assert bytes[offset..offset + 10] == title[..10];
  }

  /** What is made of one written command: its name, the trie it says to exist, the link-edit segment it is. */
  lemma CommandWritten(bytes: seq<Byte>, offset: nat, c: Command, known: nat -> bool)
    requires At(bytes, offset, CommandBytes(c)) && CommandFits(c) && known(c.Kind())
    ensures CommandAt(bytes, known, offset) == Ok((c.Kind(), c.Length()))
    ensures c.Named? ==> InstallName(bytes, offset) == Ok(c.name)
    ensures SpanOf(bytes)(c.Kind(), offset) == Ok(c.Trie())
    ensures LinkeditOf(bytes)(c.Kind(), offset) == Ok(c.LinkEdit())
  {
    hide At, Bytes.Encode, Read, NulFree, CommandAt, InstallName, SpanAt, SpanBytes, CommandBytes;
    HeadWritten(bytes, offset, c, known);
    match c
    case Named(_, name) => NameWritten(bytes, offset, name);
    case TrieCommand(span) => SpanWritten(bytes, offset, 8, span);
    case InfoCommand(other, span) =>
      AtConcat(bytes, offset + 8, other, SpanBytes(span));
      SpanWritten(bytes, offset, 40, span);
    case Segment(_, _, _, _, _) => SegmentWritten(bytes, offset, c);
  }

  predicate AllFit(cs: seq<Command>, known: nat -> bool) {
    forall i :: 0 <= i < |cs| ==> CommandFits(cs[i]) && known(cs[i].Kind())
  }

  lemma LabelledRest(bytes: seq<Byte>, offset: nat, cs: seq<Loaded>)
    requires cs != [] && Labelled(bytes, offset + cs[0].size, cs[1..])
    requires LoadsLibrary(cs[0].cmd) ==> InstallName(bytes, offset) == Ok(cs[0].name)
    ensures Labelled(bytes, offset, cs)
  {
    hide InstallName, LoadsLibrary;
    forall i | 0 <= i < |cs| && LoadsLibrary(cs[i].cmd)
      ensures InstallName(bytes, CommandOffset(offset, cs, i)) == Ok(cs[i].name)
    {
      assert i > 0 ==> cs[i] == cs[1..][i - 1];
    }
  }

  /** What is written is laid out. */
  lemma {:induction false} CommandsWritten(bytes: seq<Byte>, offset: nat, cs: seq<Command>, known: nat -> bool)
    requires At(bytes, offset, AllBytes(cs)) && AllFit(cs, known)
    ensures LaidOut(bytes, known, offset, Commands(cs)) && Labelled(bytes, offset, Commands(cs))
    decreases |cs|
  {
    hide At, CommandAt, InstallName, CommandBytes, Labelled, SpanOf, LinkeditOf, Command.Body, Command.Length;
    if cs == [] {
      LabelledNone(bytes, offset);
    } else {
      var all, rest := Commands(cs), cs[1..];
      AtConcat(bytes, offset, CommandBytes(cs[0]), AllBytes(rest));
      assert CommandFits(cs[0]) && known(cs[0].Kind());
      CommandWritten(bytes, offset, cs[0], known);
      CommandsWritten(bytes, offset + cs[0].Length(), rest, known);
      assert all[1..] == Commands(rest);
      LabelledRest(bytes, offset, all);
    }
  }

  lemma LabelledNone(bytes: seq<Byte>, offset: nat)
    ensures Labelled(bytes, offset, Commands([]))
  {}

  /** What the first command of which `make` makes something gives. */
  function First<T>(cs: seq<Command>, make: Command -> Option<T>): Option<T> {
    if cs == [] then None else if make(cs[0]).Some? then make(cs[0]) else First(cs[1..], make)
  }

  /** Of any of the commands, wherever it is written, the visitor makes this. */
  ghost predicate Makes<T(!new)>(bytes: seq<Byte>, cs: seq<Command>, visit: Visitor<T>, make: Command -> Option<T>) {
    forall c, offset: nat :: c in cs && At(bytes, offset, CommandBytes(c)) ==> visit(c.Kind(), offset) == Ok(make(c))
  }

  lemma {:induction false} FoundFirst<T(!new)>(bytes: seq<Byte>, known: nat -> bool, offset: nat, cs: seq<Command>,
                                               visit: Visitor<T>, make: Command -> Option<T>)
    requires At(bytes, offset, AllBytes(cs)) && AllFit(cs, known) && Makes(bytes, cs, visit, make)
    ensures FindFrom(bytes, known, offset, |cs|, visit) == Ok(First(cs, make))
    decreases |cs|
  {
    hide At, CommandAt, InstallName, CommandBytes, CommandFits, Command.Body;
    if cs != [] {
      var c, rest := cs[0], cs[1..];
      AtConcat(bytes, offset, CommandBytes(c), AllBytes(rest));
      assert c in cs && CommandFits(c) && known(c.Kind());
      CommandWritten(bytes, offset, c, known);
      FoundFirst(bytes, known, offset + c.Length(), rest, visit, make);
    }
  }

  /** An image stands at `base`: a header that counts these commands, and the commands. */
  predicate ImageAt(bytes: seq<Byte>, base: nat, cs: seq<Command>) {
    && base + HEADER_SIZE <= |bytes| && |cs| < 0x1_0000_0000
    && At(bytes, base + 16, Bytes.Encode(|cs|, 4)) && At(bytes, base + HEADER_SIZE, AllBytes(cs))
  }

  lemma Counted(bytes: seq<Byte>, base: nat, cs: seq<Command>)
    requires ImageAt(bytes, base, cs)
    ensures CommandCount(bytes, base) == Ok(|cs|)
  {
    hide At, AllBytes, Bytes.Encode, Read;
    Limits();
    ReadWritten(bytes, base + 16, |cs|, 4);
  }

  /** An ordinal names the library of the command it counts, and the re-exports are the names in order. */
  lemma {:induction false} ImageNames(bytes: seq<Byte>, known: nat -> bool, base: nat, cs: seq<Command>, ordinal: nat)
    requires ImageAt(bytes, base, cs) && AllFit(cs, known)
    ensures var i := Nth(Commands(cs), false, ordinal);
      OrdinalPath(bytes, known, base, ordinal) == Ok(if i.Some? then Some(Commands(cs)[i.value].name) else None)
    ensures ReexportPaths(bytes, known, base) == Ok(ReexportNames(Commands(cs)))
  {
    hide At, CommandCount, PathFrom, ReexportsFrom, Nth, ReexportNames, AllFit, AllBytes, LaidOut, Labelled, Seen;
    Counted(bytes, base, cs);
    CommandsWritten(bytes, base + HEADER_SIZE, cs, known);
    PathIsNth(bytes, known, base + HEADER_SIZE, Commands(cs), 0, ordinal);
    ReexportsAreNames(bytes, known, base + HEADER_SIZE, Commands(cs));
  }

  /** The trie is where the first command about it says, and the link-edit segment is the first of that name. */
  lemma {:induction false} ImagePlaces(bytes: seq<Byte>, known: nat -> bool, base: nat, cs: seq<Command>)
    requires ImageAt(bytes, base, cs) && AllFit(cs, known)
    ensures Find(bytes, known, base, SpanOf(bytes)) == Ok(First(cs, (c: Command) => c.Trie()))
    ensures Find(bytes, known, base, LinkeditOf(bytes)) == Ok(First(cs, (c: Command) => c.LinkEdit()))
  {
    hide At, CommandCount, FindFrom, First, AllBytes, SpanOf, LinkeditOf, CommandBytes, CommandFits, Command.Body,
      Command.Trie, Command.LinkEdit;
    var start := base + HEADER_SIZE;
    Counted(bytes, base, cs);
    forall c, offset: nat | c in cs && At(bytes, offset, CommandBytes(c))
      ensures SpanOf(bytes)(c.Kind(), offset) == Ok(c.Trie()) && LinkeditOf(bytes)(c.Kind(), offset) == Ok(c.LinkEdit())
    {
      assert CommandFits(c) && known(c.Kind());
      CommandWritten(bytes, offset, c, known);
    }
    FoundFirst(bytes, known, start, cs, SpanOf(bytes), (c: Command) => c.Trie());
    FoundFirst(bytes, known, start, cs, LinkeditOf(bytes), (c: Command) => c.LinkEdit());
  }

  /**
   A weak dependency in front shifts the ordinals: in the bytes of these two commands, ordinal 1 names
   the weak library, and the walk returns the other.
   */
  lemma {:induction false} WeakShiftsOrdinals(weak: Path, strong: Path)
    requires CommandFits(Named(LC_LOAD_WEAK_DYLIB, weak)) && CommandFits(Named(LC_LOAD_DYLIB, strong))
    ensures var cs := [Named(LC_LOAD_WEAK_DYLIB, weak), Named(LC_LOAD_DYLIB, strong)];
      && PathFrom(AllBytes(cs), _ => true, 0, 2, 0, 1) == Ok(Some(strong))
      && DocumentedPath(AllBytes(cs), 0, Commands(cs), 1) == Ok(Some(weak))
  {
    hide CommandAt, InstallName, AllBytes, CommandFits, Command.Body;
    var cs := [Named(LC_LOAD_WEAK_DYLIB, weak), Named(LC_LOAD_DYLIB, strong)];
    var bytes, all := AllBytes(cs), Commands(cs);
    assert bytes[0..0 + |bytes|] == bytes;
    CommandsWritten(bytes, 0, cs, _ => true);
    assert all == [Seen(cs[0]), Seen(cs[1])] && all[1..] == [Seen(cs[1])];
    assert Nth(all[1..], false, 1) == Some(0);
    assert Nth(all, false, 1) == Some(1) && Nth(all, true, 1) == Some(0);
    PathIsNth(bytes, _ => true, 0, all, 0, 1);
  }
}
