/** Resolving a symbol through re-exports: the budgeted search of the shared cache, and its iterative twin. */
module Reexports {
  import opened Prelude
  import opened Bytes
  import ExportsTrie
  import SharedCache
  import CacheWitnesses
  import TrieFormat
  import TrieSerializer

  const MAX_REEXPORT_RESOLUTION_DEPTH: nat := 16

  type Path = seq<Byte>

  /**
   A library as the search sees it: its exports trie (an error if its load commands cannot be read,
   `None` if it has no trie), the path of the library an ordinal names, and those it re-exports whole.
   */
  datatype Library = Library(
    path: Path,
    loadAddress: nat,
    trie: Outcome<Option<seq<Byte>>>,
    dependency: nat -> Outcome<Option<Path>>,
    umbrella: Outcome<seq<Path>>)

  datatype World = World(libraries: seq<Library>, cache: SharedCache.Cache)

  datatype Query = Query(path: Path, symbol: seq<Byte>)

  /** What one library says about a symbol. */
  datatype Found = Absent | DefinedAt(offset: nat) | Elsewhere(target: Query)

  // ----- one library -----

  /** The library with that install path that comes first. */
  function FindLibrary(libraries: seq<Library>, path: Path): (r: Option<Library>)
    ensures r.Some? ==> r.value in libraries && r.value.path == path
    ensures r.None? ==> forall l :: l in libraries ==> l.path != path
  {
    if libraries == [] then None
    else if libraries[0].path == path then Some(libraries[0]) else FindLibrary(libraries[1..], path)
  }

  /** A path leads to the library that comes first among those of that path. */
  lemma {:induction false} FindLibraryIsFirst(libraries: seq<Library>, path: Path) returns (i: nat)
    ensures forall j :: 0 <= j < i && j < |libraries| ==> libraries[j].path != path
    ensures if i < |libraries| then libraries[i].path == path && FindLibrary(libraries, path) == Some(libraries[i])
      else FindLibrary(libraries, path) == None
  {
    i := 0;
    if libraries != [] && libraries[0].path != path {
      var k := FindLibraryIsFirst(libraries[1..], path);
      i := k + 1;
      assert forall j :: 0 < j < |libraries| ==> libraries[j] == libraries[1..][j - 1];
    }
  }

  function SymbolIn(l: Library, symbol: seq<Byte>): Outcome<Found> {
    var trie :- l.trie;
    if trie.None? then Ok(Absent)
    else
      match ExportsTrie.Walk(trie.value, 0, symbol, |trie.value|)
      case None => Ok(Absent)
      case Some(DefinedHere(offset)) => Ok(DefinedAt(offset))
      case Some(ReexportedFromDependency(ordinal, alias)) =>
        var path :- l.dependency(ordinal);
        Ok(if path.None? then Absent else Elsewhere(Query(path.value, if alias == [] then symbol else alias)))
  }

  function AddressOf(w: World, l: Library, offset: nat): Outcome<nat> {
    SharedCache.Translate(w.cache, l.loadAddress + offset)
  }

  // ----- the search -----

  function Resolve(w: World, q: Query, budget: nat): Outcome<Option<nat>>
    decreases budget, 0, 0
  {
    if budget == 0 then Ok(None)
    else
      match FindLibrary(w.libraries, q.path)
      case None => Ok(None)
      case Some(l) =>
        var found :- SymbolIn(l, q.symbol);
        match found
        case DefinedAt(offset) =>
          var address :- AddressOf(w, l, offset);
          Ok(Some(address))
        case Elsewhere(target) => Resolve(w, target, budget - 1)
        case Absent =>
          var paths :- l.umbrella;
          ResolveAny(w, paths, q.symbol, budget - 1)
  }

  /** The first of the paths through which the symbol resolves; an error on the way ends the search. */
  function ResolveAny(w: World, paths: seq<Path>, symbol: seq<Byte>, budget: nat): Outcome<Option<nat>>
    decreases budget, 1, |paths|
  {
    if paths == [] then Ok(None)
    else
      var first :- Resolve(w, Query(paths[0], symbol), budget);
      if first.Some? then Ok(first) else ResolveAny(w, paths[1..], symbol, budget)
  }

  function SymbolResolve(w: World, path: Path, symbol: seq<Byte>): Outcome<Option<nat>> {
    Resolve(w, Query(path, symbol), MAX_REEXPORT_RESOLUTION_DEPTH)
  }

  // ----- the graph of queries -----

  /** What a query comes to when it is settled at once: an address, or an error; none if it is handed on. */
  function Ending(w: World, q: Query): Option<Outcome<nat>> {
    match FindLibrary(w.libraries, q.path)
    case None => None
    case Some(l) =>
      match SymbolIn(l, q.symbol)
      case Ok(DefinedAt(offset)) => Some(AddressOf(w, l, offset))
      case Ok(Elsewhere(_)) => None
      case Ok(Absent) => if l.umbrella.Ok? then None else Some(l.umbrella.PropagateFailure())
      case Err => Some(Err)
      case Panic => Some(Panic)
  }

  /** The queries a query may be handed on to, in the order they are tried. */
  function Hops(w: World, q: Query): seq<Query> {
    match FindLibrary(w.libraries, q.path)
    case None => []
    case Some(l) =>
      match SymbolIn(l, q.symbol)
      case Ok(Elsewhere(target)) => [target]
      case Ok(Absent) => if l.umbrella.Ok? then Queries(l.umbrella.value, q.symbol) else []
      case _ => []
  }

  function Queries(paths: seq<Path>, symbol: seq<Byte>): seq<Query> {
    seq(|paths|, i requires 0 <= i < |paths| => Query(paths[i], symbol))
  }

  /** A chain of queries, each a hop from the one before, of which the last is settled. */
  ghost predicate IsPath(w: World, chain: seq<Query>)
    decreases |chain|
  {
    && chain != []
    && if |chain| == 1 then Ending(w, chain[0]).Some? else chain[1] in Hops(w, chain[0]) && IsPath(w, chain[1..])
  }

  /** What a path comes to. */
  ghost function End(w: World, chain: seq<Query>): Outcome<nat>
    requires IsPath(w, chain)
    decreases |chain|
  {
    if |chain| == 1 then Ending(w, chain[0]).value else End(w, chain[1..])
  }

  /** A path from the query within so many lookups. */
  ghost predicate Route(w: World, q: Query, chain: seq<Query>, budget: nat) {
    IsPath(w, chain) && chain[0] == q && |chain| <= budget
  }

  /** No path leads on from the query. */
  ghost predicate DeadEnd(w: World, q: Query, budget: nat) {
    forall chain :: !Route(w, q, chain, budget)
  }

  /** The result of a search that comes to this. */
  function AsResult(e: Outcome<nat>): Outcome<Option<nat>> {
    var address :- e;
    Ok(Some(address))
  }

  /** The search in terms of the graph: the query is settled, or its hops are tried in order with one lookup less. */
  lemma ResolveStep(w: World, q: Query, budget: nat)
    requires budget > 0
    ensures if Ending(w, q).Some? then Resolve(w, q, budget) == AsResult(Ending(w, q).value) && Hops(w, q) == []
      else Resolve(w, q, budget) == TryHops(w, Hops(w, q), budget - 1)
  {
    hide SymbolIn, AddressOf;
    var l := FindLibrary(w.libraries, q.path);
    if l.Some? {
      match SymbolIn(l.value, q.symbol)
      case Ok(Elsewhere(target)) =>
        assert Hops(w, q) == [target];
        TryOne(w, target, budget - 1);
      case Ok(Absent) =>
        if l.value.umbrella.Ok? {
          AnyIsTry(w, l.value.umbrella.value, q.symbol, budget - 1);
        }
      case _ =>
    }
  }

  function TryHops(w: World, hops: seq<Query>, budget: nat): Outcome<Option<nat>> {
    if hops == [] then Ok(None)
    else
      var first :- Resolve(w, hops[0], budget);
      if first.Some? then Ok(first) else TryHops(w, hops[1..], budget)
  }

  lemma TryOne(w: World, q: Query, budget: nat)
    ensures TryHops(w, [q], budget) == Resolve(w, q, budget)
  {
    hide Resolve;
    assert [q][1..] == [];
    assert TryHops(w, [q][1..], budget) == Ok(None);
  }

  lemma {:induction false} AnyIsTry(w: World, paths: seq<Path>, symbol: seq<Byte>, budget: nat)
    ensures ResolveAny(w, paths, symbol, budget) == TryHops(w, Queries(paths, symbol), budget)
  {
    hide Resolve;
    if paths != [] {
      assert Queries(paths, symbol)[1..] == Queries(paths[1..], symbol);
      AnyIsTry(w, paths[1..], symbol, budget);
    }
  }

  lemma NoBudget(w: World, q: Query)
    ensures Resolve(w, q, 0) == Ok(None)
  {}

  // ----- which path the search takes -----

  /** Among hops, `a` is tried before `b`. */
  ghost predicate Precedes(hops: seq<Query>, a: Query, b: Query) {
    exists i :: 0 <= i < |hops| && hops[i] == a && b !in hops[..i + 1]
  }

  /** Where two chains from one query part, the first takes an earlier hop. */
  ghost predicate Before(w: World, a: seq<Query>, b: seq<Query>)
    decreases |a|
  {
    && |a| > 1 && |b| > 1 && a[0] == b[0]
    && if a[1] == b[1] then Before(w, a[1..], b[1..]) else Precedes(Hops(w, a[0]), a[1], b[1])
  }

  /** The path that comes first in hop order among all within the budget. */
  ghost predicate FirstRoute(w: World, q: Query, chain: seq<Query>, budget: nat) {
    Route(w, q, chain, budget) && forall other :: Route(w, q, other, budget) ==> !Before(w, other, chain)
  }

  /** The first of the hops that leads anywhere, and the first path from it. */
  lemma {:induction false} FirstAmong(w: World, hops: seq<Query>, budget: nat) returns (i: nat, chain: seq<Query>)
    ensures i <= |hops| && forall j :: 0 <= j < i ==> DeadEnd(w, hops[j], budget)
    ensures if i == |hops| then TryHops(w, hops, budget) == Ok(None)
      else FirstRoute(w, hops[i], chain, budget) && TryHops(w, hops, budget) == AsResult(End(w, chain))
    decreases budget, 1, |hops|
  {
    hide Resolve, Route, FirstRoute, IsPath, End;
    i, chain := 0, [];
    if hops != [] {
      var found, first := SearchTakes(w, hops[0], budget);
      if found {
        chain := first;
      } else {
        i, chain := FirstAmong(w, hops[1..], budget);
        i := i + 1;
        forall j | 0 <= j < i
          ensures DeadEnd(w, hops[j], budget)
        {
          assert j > 0 ==> hops[j] == hops[1..][j - 1];
        }
      }
    }
  }

  /** The search comes to what its first path comes to, and to None if it has no path. */
  lemma {:induction false} SearchTakes(w: World, q: Query, budget: nat) returns (found: bool, chain: seq<Query>)
    ensures found <==> !DeadEnd(w, q, budget)
    ensures found ==> FirstRoute(w, q, chain, budget) && Resolve(w, q, budget) == AsResult(End(w, chain))
    ensures !found ==> Resolve(w, q, budget) == Ok(None)
    decreases budget, 0, 0
  {
    hide Resolve, Hops, Ending, TryHops;
    found, chain := false, [];
    if budget == 0 {
      NoBudget(w, q);
    } else {
      ResolveStep(w, q, budget);
      if Ending(w, q).Some? {
        found, chain := true, [q];
        assert Route(w, q, chain, budget);
      } else {
        var i, rest := FirstAmong(w, Hops(w, q), budget - 1);
        if i < |Hops(w, q)| {
          found, chain := true, [q] + rest;
          Prepend(w, q, rest, budget, i);
        } else {
          forall other
            ensures !Route(w, q, other, budget)
          {
            if Route(w, q, other, budget) {
              var j := RouteTail(w, q, other, budget);
            }
          }
        }
      }
    }
  }

  /** A path from a query that is not settled goes on from one of its hops. */
  lemma RouteTail(w: World, q: Query, chain: seq<Query>, budget: nat) returns (i: nat)
    requires Route(w, q, chain, budget) && Ending(w, q).None?
    ensures |chain| > 1 && i < |Hops(w, q)| && Hops(w, q)[i] == chain[1] && Route(w, chain[1], chain[1..], budget - 1)
  {
    hide Hops, Ending;
    i :| 0 <= i < |Hops(w, q)| && Hops(w, q)[i] == chain[1];
  }

  /** Before the first path from the first hop that has one, there is no other path. */
  lemma Prepend(w: World, q: Query, rest: seq<Query>, budget: nat, i: nat)
    requires budget > 0 && Ending(w, q).None? && i < |Hops(w, q)| && FirstRoute(w, Hops(w, q)[i], rest, budget - 1)
    requires forall j :: 0 <= j < i ==> DeadEnd(w, Hops(w, q)[j], budget - 1)
    ensures FirstRoute(w, q, [q] + rest, budget) && End(w, [q] + rest) == End(w, rest)
  {
    hide Hops, Ending;
    var chain := [q] + rest;
    assert chain[1..] == rest;
    forall other | Route(w, q, other, budget)
      ensures !Before(w, other, chain)
    {
      var j := RouteTail(w, q, other, budget);
      assert other[1] in Hops(w, q)[..i] ==> DeadEnd(w, other[1], budget - 1);
    }
  }

  /** Of two different paths from one query, one comes before the other. */
  lemma {:induction false} PathsCompare(w: World, a: seq<Query>, b: seq<Query>)
    requires IsPath(w, a) && IsPath(w, b) && a[0] == b[0]
    ensures a == b || Before(w, a, b) || Before(w, b, a)
    decreases |a|
  {
    hide Hops, Ending;
    SettledEnds(w, a[0]);
    if |a| > 1 && |b| > 1 {
      if a[1] == b[1] {
        PathsCompare(w, a[1..], b[1..]);
        assert a == [a[0]] + a[1..] && b == [b[0]] + b[1..];
      } else {
        HopsCompare(Hops(w, a[0]), a[1], b[1]);
      }
    } else {
      assert a == [a[0]] && b == [b[0]];
    }
  }

  lemma SettledEnds(w: World, q: Query)
    ensures Ending(w, q).Some? ==> Hops(w, q) == []
  {
    hide SymbolIn, AddressOf;
  }

  lemma HopsCompare(hops: seq<Query>, a: Query, b: Query)
    requires a in hops && b in hops && a != b
    ensures Precedes(hops, a, b) || Precedes(hops, b, a)
  {
    var i := FirstAt(hops, a);
    var j := FirstAt(hops, b);
    if i < j {
      assert hops[..i + 1] == hops[..j][..i + 1];
    } else {
      assert hops[..j + 1] == hops[..i][..j + 1];
    }
  }

  lemma {:induction false} FirstAt(hops: seq<Query>, q: Query) returns (i: nat)
    requires q in hops
    ensures i < |hops| && hops[i] == q && q !in hops[..i]
  {
    if hops[0] == q {
      i := 0;
    } else {
      i := FirstAt(hops[1..], q);
      i := i + 1;
      assert hops[..i] == [hops[0]] + hops[1..][..i - 1];
    }
  }

  // ----- what a search comes to -----

  /**
   For every world, query and budget, errors included: the result is None exactly when no path fits
   the budget, and otherwise it is what the first of those paths in hop order comes to.
   */
  lemma {:induction false} ResolveIsFirst(w: World, q: Query, budget: nat)
    ensures Resolve(w, q, budget) == Ok(None) <==> DeadEnd(w, q, budget)
    ensures forall chain :: FirstRoute(w, q, chain, budget) ==> Resolve(w, q, budget) == AsResult(End(w, chain))
    ensures !DeadEnd(w, q, budget) ==> exists chain :: FirstRoute(w, q, chain, budget)
  {
    hide Resolve, IsPath, End, Before;
    var found, first := SearchTakes(w, q, budget);
    forall chain | FirstRoute(w, q, chain, budget)
      ensures Resolve(w, q, budget) == AsResult(End(w, chain))
    {
      PathsCompare(w, chain, first);
    }
  }

  /**
   A found address comes from a path within the budget, of one hop less than lookups, to a library that defines
   the symbol.
   */
  lemma {:induction false} ResolveSound(w: World, q: Query, budget: nat, address: nat) returns (chain: seq<Query>)
    requires Resolve(w, q, budget) == Ok(Some(address))
    ensures Route(w, q, chain, budget) && End(w, chain) == Ok(address)
  {
    hide Resolve, IsPath, End, Before;
    var found, first := SearchTakes(w, q, budget);
    chain := first;
  }

  /** A path within the budget is enough for the search to come to something. */
  lemma {:induction false} ResolveComplete(w: World, q: Query, chain: seq<Query>, budget: nat)
    requires Route(w, q, chain, budget)
    ensures Resolve(w, q, budget) != Ok(None)
  {
    hide Resolve, Route, IsPath, FirstRoute;
    var found, first := SearchTakes(w, q, budget);
  }

  /** A library that defines the symbol is reachable within so many lookups. */
  ghost predicate Reachable(w: World, q: Query, lookups: nat) {
    exists chain :: Route(w, q, chain, lookups) && End(w, chain).Ok?
  }

  /** A search without an error finds the symbol exactly when a defining library is reachable within the budget. */
  lemma {:induction false} ResolvesIffReachable(w: World, q: Query, budget: nat)
    requires Resolve(w, q, budget).Ok?
    ensures Resolve(w, q, budget).value.Some? <==> Reachable(w, q, budget)
  {
    hide Resolve, IsPath, End;
    if Resolve(w, q, budget).value.Some? {
      var chain := ResolveSound(w, q, budget, Resolve(w, q, budget).value.value);
    }
    if chain :| Route(w, q, chain, budget) && End(w, chain).Ok? {
      ResolveComplete(w, q, chain, budget);
    }
  }

  /** What resolves with one budget is not missed with a larger one. */
  lemma {:induction false} ResolvableMonotone(w: World, q: Query, budget: nat, larger: nat)
    requires budget <= larger
    ensures Resolve(w, q, larger) == Ok(None) ==> Resolve(w, q, budget) == Ok(None)
    ensures Resolve(w, q, budget).Ok? && Resolve(w, q, budget).value.Some? && Resolve(w, q, larger).Ok? ==>
          Resolve(w, q, larger).value.Some?
  {
    hide Resolve, IsPath, End, Before;
    ResolveIsFirst(w, q, budget);
    ResolveIsFirst(w, q, larger);
    if chain :| Route(w, q, chain, budget) {
      assert Route(w, q, chain, larger);
    }
  }

  /**
   When a larger budget changes nothing: the path taken within `budget` is still taken within
   `larger` exactly when no path that only `larger` allows comes before it. Then the result is the same.
   */
  lemma {:induction false} PathStable(w: World, q: Query, chain: seq<Query>, budget: nat, larger: nat)
    requires FirstRoute(w, q, chain, budget) && budget <= larger
    ensures FirstRoute(w, q, chain, larger)
       <==> !exists other :: Route(w, q, other, larger) && |other| > budget && Before(w, other, chain)
    ensures FirstRoute(w, q, chain, larger) ==> Resolve(w, q, larger) == Resolve(w, q, budget)
  {
    hide Resolve, IsPath, End, Before;
    ResolveIsFirst(w, q, budget);
    ResolveIsFirst(w, q, larger);
    forall other | Route(w, q, other, larger) && |other| <= budget
      ensures Route(w, q, other, budget)
    {}
  }

  /** The cache's entry point: the first path of at most 15 hops decides, and there is none exactly for None. */
  lemma {:induction false} SymbolResolveIsFirst(w: World, path: Path, symbol: seq<Byte>)
    ensures var r, q := SymbolResolve(w, path, symbol), Query(path, symbol);
      && (r == Ok(None) <==> DeadEnd(w, q, MAX_REEXPORT_RESOLUTION_DEPTH))
      && forall chain :: FirstRoute(w, q, chain, MAX_REEXPORT_RESOLUTION_DEPTH) ==>
          |chain| - 1 <= 15 && r == AsResult(End(w, chain))
  {
    hide Resolve, IsPath, End, Before;
    ResolveIsFirst(w, Query(path, symbol), MAX_REEXPORT_RESOLUTION_DEPTH);
  }

  // ----- graphs without cycles -----

  /** Every chain of hops from the query has at most `height` lookups. */
  ghost predicate Shallow(w: World, q: Query, height: nat)
    decreases height
  {
    height > 0 && forall h :: h in Hops(w, q) ==> Shallow(w, h, height - 1)
  }

  lemma {:induction false} TryAgrees(w: World, hops: seq<Query>, height: nat, budget: nat)
    requires height <= budget && forall h :: h in hops ==> Shallow(w, h, height)
    ensures TryHops(w, hops, budget) == TryHops(w, hops, height)
    decreases height, 1, |hops|
  {
    hide Resolve, Shallow;
    if hops != [] {
      assert hops[0] in hops;
      EnoughBudget(w, hops[0], height, budget);
      TryAgrees(w, hops[1..], height, budget);
    }
  }

  /** Where hops run out within `height` lookups, every budget from there on gives the same result, errors included. */
  lemma {:induction false} EnoughBudget(w: World, q: Query, height: nat, budget: nat)
    requires Shallow(w, q, height) && height <= budget
    ensures Resolve(w, q, budget) == Resolve(w, q, height)
    decreases height, 0, 0
  {
    hide Resolve, Hops, Ending;
    ResolveStep(w, q, budget);
    ResolveStep(w, q, height);
    if Ending(w, q).None? {
      TryAgrees(w, Hops(w, q), height - 1, budget - 1);
    }
  }

  // ----- more budget can change the address -----

  /** A trie that defines the empty symbol at offset 0. */
  function BareTrie(): TrieFormat.Trie {
    TrieFormat.Trie(Some(ExportsTrie.DefinedHere(0)), TrieFormat.NoEdges)
  }

  function BareBytes(): seq<Byte> {
    TrieSerializer.Serialize(BareTrie(), 0)
  }

  function Bare(name: Byte, loadAddress: nat, exports: bool, umbrella: seq<Path>): Library {
    Library([name], loadAddress, Ok(if exports then Some(BareBytes()) else None), _ => Ok(None), Ok(umbrella))
  }

  /** Library 1 re-exports 2 and 3; 2 re-exports 4; libraries 3 and 4 define the empty symbol. */
  function Fork(): World {
    World([Bare(1, 0, false, [[2], [3]]), Bare(2, 0, false, [[4]]), Bare(3, 300, true, []), Bare(4, 400, true, [])],
          SharedCache.Cache([CacheWitnesses.Single(0, 0, 1000)], 0))
  }

  lemma BareExports()
    ensures ExportsTrie.Walk(BareBytes(), 0, [], |BareBytes()|) == Some(ExportsTrie.DefinedHere(0))
  {
    hide ExportsTrie.Walk, TrieSerializer.Serialize;
    TrieSerializer.SerializedWalk(BareTrie(), [], ExportsTrie.DefinedHere(0));
  }

  lemma ForkLibraries()
    ensures FindLibrary(Fork().libraries, [1]) == Some(Fork().libraries[0])
    ensures FindLibrary(Fork().libraries, [2]) == Some(Fork().libraries[1])
    ensures FindLibrary(Fork().libraries, [3]) == Some(Fork().libraries[2])
    ensures FindLibrary(Fork().libraries, [4]) == Some(Fork().libraries[3])
  {
    hide BareBytes;
  }

  /** The address is not monotone: with two lookups the symbol is found in library 3, with three in library 4. */
  lemma {:induction false} AddressMayChange()
    ensures Resolve(Fork(), Query([1], []), 2) == Ok(Some(300))
    ensures Resolve(Fork(), Query([1], []), 3) == Ok(Some(400))
  {
    hide ExportsTrie.Walk, BareBytes, FindLibrary;
    BareExports();
    ForkLibraries();
    var w := Fork();
    var l1, l2, l3, l4 := w.libraries[0], w.libraries[1], w.libraries[2], w.libraries[3];
    CacheWitnesses.SingleFinds(0, 0, 1000, 300);
    CacheWitnesses.SingleFinds(0, 0, 1000, 400);
    assert AddressOf(w, l3, 0) == Ok(300) && AddressOf(w, l4, 0) == Ok(400);
    assert forall b: nat :: b > 0 ==>
        Resolve(w, Query([3], []), b) == Ok(Some(300)) && Resolve(w, Query([4], []), b) == Ok(Some(400));
    assert Resolve(w, Query([4], []), 0) == Ok(None);
    assert forall b: nat :: ResolveAny(w, [[4]], [], b) == Resolve(w, Query([4], []), b) by {
      assert [[4]][1..] == [];
    }
    assert [[2], [3]][1..] == [[3]] && [[3]][1..] == [];
    assert Resolve(w, Query([2], []), 1) == Ok(None);
    assert Resolve(w, Query([2], []), 2) == Ok(Some(400));
    assert ResolveAny(w, [[2], [3]], [], 1) == Ok(Some(300));
    assert ResolveAny(w, [[2], [3]], [], 2) == Ok(Some(400));
  }

  // ----- the iterative twin -----

  /** Where the follower stands: a library and the path it was reached by (empty at the start). */
  function Chase(w: World, l: Library, symbol: seq<Byte>, path: Path,
                 budget: nat): Outcome<Option<(Path, Library, nat)>>
    decreases budget
  {
    if budget == 0 then Ok(None)
    else
      var found :- SymbolIn(l, symbol);
      match found
      case Absent => Ok(None)
      case DefinedAt(offset) => Ok(Some((path, l, offset)))
      case Elsewhere(target) =>
        match FindLibrary(w.libraries, target.path)
        case None => Ok(None)
        case Some(next) => Chase(w, next, target.symbol, target.path, budget - 1)
  }

  function WithoutLibrary(r: Outcome<Option<(Path, Library, nat)>>): Outcome<Option<(Path, nat)>> {
    var found :- r;
    Ok(match found case None => None case Some((path, _, offset)) => Some((path, offset)))
  }

  method DylibSymbolResolveFollowingReexports(w: World, start: Library, symbol: seq<Byte>)
                                              returns (r: Outcome<Option<(Path, nat)>>)
    ensures r == WithoutLibrary(Chase(w, start, symbol, [], MAX_REEXPORT_RESOLUTION_DEPTH))
  {
    hide SymbolIn, FindLibrary;
    var current, currentSymbol, currentPath: Path := start, symbol, [];
    for i := 0 to MAX_REEXPORT_RESOLUTION_DEPTH
      invariant Chase(w, start, symbol, [], MAX_REEXPORT_RESOLUTION_DEPTH)
             == Chase(w, current, currentSymbol, currentPath, MAX_REEXPORT_RESOLUTION_DEPTH - i)
    {
      var found := SymbolIn(current, currentSymbol);
      if !found.Ok? {
        return found.PropagateFailure();
      }
      match found.value
      case Absent => return Ok(None);
      case DefinedAt(offset) => return Ok(Some((currentPath, offset)));
      case Elsewhere(target) =>
        var next := FindLibrary(w.libraries, target.path);
        if next.None? {
          return Ok(None);
        }
        current, currentSymbol, currentPath := next.value, target.symbol, target.path;
    }
    return Ok(None);
  }

  /** No library re-exports another whole. */
  ghost predicate NoUmbrellas(w: World) {
    forall l :: l in w.libraries ==> l.umbrella == Ok([])
  }

  /** The search's result for a library and offset the follower ends at. */
  function Located(w: World, r: Outcome<Option<(Path, Library, nat)>>): Outcome<Option<nat>> {
    var found :- r;
    match found
    case None => Ok(None)
    case Some((_, l, offset)) =>
      var address :- AddressOf(w, l, offset);
      Ok(Some(address))
  }

  /**
   Over libraries without umbrella re-exports the follower and the cache search agree for every
   budget: the same error or None, or the follower's library and offset give the search's address.
   */
  lemma {:induction false} TwinsAgree(w: World, l: Library, symbol: seq<Byte>, path: Path, budget: nat)
    requires NoUmbrellas(w) && FindLibrary(w.libraries, l.path) == Some(l)
    ensures Resolve(w, Query(l.path, symbol), budget) == Located(w, Chase(w, l, symbol, path, budget))
    decreases budget
  {
    hide SymbolIn, AddressOf;
    if budget > 0 {
      match SymbolIn(l, symbol)
      case Ok(Absent) => assert l.umbrella == Ok([]);
      case Ok(Elsewhere(target)) =>
        var next := FindLibrary(w.libraries, target.path);
        if next.Some? {
          TwinsAgree(w, next.value, target.symbol, target.path, budget - 1);
        }
      case _ =>
    }
  }

  /** The path the follower reports names the library it ended at, unless it never left the first one. */
  lemma {:induction false} ChaseNames(w: World, l: Library, symbol: seq<Byte>, path: Path, budget: nat)
    requires path == [] || FindLibrary(w.libraries, path) == Some(l)
    ensures var r := Chase(w, l, symbol, path, budget);
      r.Ok? && r.value.Some? ==>
        (r.value.value.0 == [] && (path == [] && r.value.value.1 == l))
            || FindLibrary(w.libraries, r.value.value.0) == Some(r.value.value.1)
    decreases budget
  {
    hide SymbolIn;
    if budget > 0 {
      match SymbolIn(l, symbol)
      case Ok(Elsewhere(target)) =>
        var next := FindLibrary(w.libraries, target.path);
        if next.Some? {
          ChaseNames(w, next.value, target.symbol, target.path, budget - 1);
        }
      case _ =>
    }
  }
}
