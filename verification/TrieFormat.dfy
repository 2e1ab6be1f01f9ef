/**
 What the bytes of an exports trie encode, and that the linker's walk looks symbols up in it.

 A trie is a finite tree: a node may carry an export and has labelled edges. `NodeAt` says that the
 bytes at an offset encode a node and, through its child offsets, everything below it.
 */
module TrieFormat {
  import opened Prelude
  import opened Bits
  import opened Bytes
  import opened CStrings
  import opened ExportsTrie
  import Uleb128

  datatype Trie = Trie(exported: Option<Terminal>, edges: Edges)

  datatype Edges = NoEdges | Edges(name: seq<Byte>, child: Trie, rest: Edges)

  function Degree(edges: Edges): nat {
    match edges
    case NoEdges => 0
    case Edges(_, _, rest) => 1 + Degree(rest)
  }

  /** How many nodes a trie has. */
  function Size(t: Trie): (n: nat)
    ensures n >= 1
  {
    1 + EdgesSize(t.edges)
  }

  function EdgesSize(edges: Edges): nat {
    match edges
    case NoEdges => 0
    case Edges(_, child, rest) => Size(child) + EdgesSize(rest)
  }

  // ----- the symbols of a trie -----

  /** The trie's table: every symbol it exports, with the export. */
  ghost function Exports(t: Trie): set<(seq<Byte>, Terminal)> {
    (if t.exported.Some? then {([], t.exported.value)} else {}) + EdgesExports(t.edges)
  }

  ghost function EdgesExports(edges: Edges): set<(seq<Byte>, Terminal)> {
    match edges
    case NoEdges => {}
    case Edges(name, child, rest) => (set e | e in Exports(child) :: (name + e.0, e.1)) + EdgesExports(rest)
  }

  predicate Comparable(a: seq<Byte>, b: seq<Byte>) {
    a <= b || b <= a
  }

  /** No label of the edges is a prefix of `name`, or the other way round. */
  predicate Clear(name: seq<Byte>, edges: Edges) {
    match edges
    case NoEdges => true
    case Edges(other, _, rest) => !Comparable(name, other) && Clear(name, rest)
  }

  /** Labels are non-empty, free of NUL, and no two labels of a node are prefixes of each other. */
  predicate WellFormed(t: Trie) {
    EdgesWellFormed(t.edges)
        && (t.exported.Some? && t.exported.value.ReexportedFromDependency? ==> NulFree(t.exported.value.alias))
  }

  predicate EdgesWellFormed(edges: Edges) {
    match edges
    case NoEdges => true
    case Edges(name, child, rest) =>
        name != [] && NulFree(name) && Clear(name, rest) && WellFormed(child) && EdgesWellFormed(rest)
  }

  // ----- the encoding -----

  /** The number that stands at `cursor`, and its width in bytes. */
  function Number(bytes: seq<Byte>, cursor: nat): (r: Option<(nat, nat)>)
    ensures r.Some? ==> cursor + r.value.1 <= |bytes|
  {
    if cursor <= |bytes| then Uleb128.Decode(bytes[cursor..]) else None
  }

  /** An export's payload: flags, then an offset, or an ordinal and an alias; it lies within `size` bytes. */
  predicate PayloadAt(bytes: seq<Byte>, start: nat, size: nat, exported: Terminal) {
    && Number(bytes, start).Some?
    && var (flags, flagsWidth) := Number(bytes, start).value;
    && Number(bytes, start + flagsWidth).Some?
    && var (first, width) := Number(bytes, start + flagsWidth).value;
       match exported
       case DefinedHere(offset) =>
         And(flags, REEXPORT_FLAG) == 0 && first == offset && flagsWidth + width <= size
       case ReexportedFromDependency(ordinal, alias) =>
         && And(flags, REEXPORT_FLAG) != 0 && first == ordinal
         && CStringAt(bytes, start + flagsWidth + width, alias) && flagsWidth + width + |alias| + 1 <= size
  }

  /** The bytes at `offset` encode `t`: payload size, payload, edge count, edges. */
  predicate NodeAt(bytes: seq<Byte>, offset: nat, t: Trie)
    decreases t, 1
  {
    && Number(bytes, offset).Some?
    && var (size, width) := Number(bytes, offset).value;
    && offset + width + size < |bytes|
    && (t.exported.None? <==> size == 0)
    && (t.exported.Some? ==> PayloadAt(bytes, offset + width, size, t.exported.value))
    && bytes[offset + width + size] == Degree(t.edges)
    && EdgesAt(bytes, offset + width + size + 1, t.edges)
  }

  /** The bytes from `cursor` encode the edges: label, NUL, child offset. */
  predicate EdgesAt(bytes: seq<Byte>, cursor: nat, edges: Edges)
    decreases edges, 0
  {
    match edges
    case NoEdges => cursor <= |bytes|
    case Edges(name, child, rest) =>
      && CStringAt(bytes, cursor, name)
      && Number(bytes, cursor + |name| + 1).Some?
      && var (offset, width) := Number(bytes, cursor + |name| + 1).value;
      && NodeAt(bytes, offset, child)
      && EdgesAt(bytes, cursor + |name| + 1 + width, rest)
  }

  // ----- reading the encoding back -----

  lemma PayloadRead(bytes: seq<Byte>, start: nat, size: nat, exported: Terminal)
    requires PayloadAt(bytes, start, size, exported)
    requires exported.ReexportedFromDependency? ==> NulFree(exported.alias)
    ensures start <= |bytes| && ReadPayload(bytes, start) == Some(exported)
  {
    hide Uleb128.Decode, And;
    var (flags, flagsWidth) := Number(bytes, start).value;
    var (first, width) := Number(bytes, start + flagsWidth).value;
    if exported.ReexportedFromDependency? {
      CStringRead(bytes, start + flagsWidth + width, exported.alias);
    }
  }

  /** What `Open` finds at an encoded node. */
  lemma NodeOpened(bytes: seq<Byte>, offset: nat, t: Trie) returns (node: Node)
    requires NodeAt(bytes, offset, t) && WellFormed(t) && |bytes| <= U64
    ensures Open(bytes, offset) == Some(node) && bytes[node.edgesStart] == Degree(t.edges)
    ensures node.HasPayload() <==> t.exported.Some?
    ensures t.exported.Some? ==> ReadPayload(bytes, node.payloadStart) == t.exported
    ensures EdgesAt(bytes, node.edgesStart + 1, t.edges)
  {
    hide Uleb128.Decode, ReadPayload, And;
    var (size, width) := Number(bytes, offset).value;
    ModEdges(offset + width + size, U64);
    node := Node(offset + width + size, offset + width, size);
    if t.exported.Some? {
      PayloadRead(bytes, offset + width, size, t.exported.value);
    }
  }

  /** The edge an encoded node offers a symbol: the label that starts it, if there is one. */
  function Choose(edges: Edges, suffix: seq<Byte>): (r: Option<(seq<Byte>, Trie)>)
    ensures r.Some? ==> r.value.0 <= suffix
  {
    match edges
    case NoEdges => None
    case Edges(name, child, rest) => if name <= suffix then Some((name, child)) else Choose(rest, suffix)
  }

  lemma ChooseSmaller(edges: Edges, suffix: seq<Byte>)
    ensures Choose(edges, suffix).Some? ==> Size(Choose(edges, suffix).value.1) <= EdgesSize(edges)
  {}

  /** The edge that `FindEdge` finds is the one the node offers. */
  predicate Finds(bytes: seq<Byte>, found: Option<Edge>, choice: Option<(seq<Byte>, Trie)>) {
    if choice.None? then found.None?
    else
      found.Some? && found.value.name == choice.value.0 && NodeAt(bytes, found.value.child, choice.value.1)
      && WellFormed(choice.value.1)
  }

  lemma {:induction false} EdgeFound(bytes: seq<Byte>, cursor: nat, edges: Edges, suffix: seq<Byte>)
    requires EdgesAt(bytes, cursor, edges) && EdgesWellFormed(edges)
    ensures cursor <= |bytes| && Finds(bytes, FindEdge(bytes, cursor, Degree(edges), suffix), Choose(edges, suffix))
    decreases edges
  {
    hide Uleb128.Decode, NodeAt, FindEdge;
    FindEdgeStep(bytes, cursor, Degree(edges), suffix);
    match edges
    case NoEdges =>
    case Edges(name, child, rest) =>
      CStringRead(bytes, cursor, name);
      var (offset, width) := Number(bytes, cursor + |name| + 1).value;
      assert EdgeAt(bytes, cursor) == Some(Edge(name, offset, cursor + |name| + 1 + width));
      EdgeFound(bytes, cursor + |name| + 1 + width, rest, suffix);
  }

  /** Looking a symbol up in the tree itself. */
  function Lookup(t: Trie, suffix: seq<Byte>): Option<Terminal>
    decreases Size(t)
  {
    if suffix == [] && t.exported.Some? then t.exported
    else
      ChooseSmaller(t.edges, suffix);
      match Choose(t.edges, suffix)
      case None => None
      case Some((name, child)) => Lookup(child, suffix[|name|..])
  }

  lemma NextMoveAt(bytes: seq<Byte>, offset: nat, t: Trie, suffix: seq<Byte>)
    requires NodeAt(bytes, offset, t) && WellFormed(t) && |bytes| <= U64
    ensures var move, choice := NextMove(bytes, offset, suffix), Choose(t.edges, suffix);
      if suffix == [] && t.exported.Some? then move == Stop(t.exported)
      else if choice.None? then move == Stop(None)
      else
        move.Descend? && move.rest == suffix[|choice.value.0|..] && NodeAt(bytes, move.child, choice.value.1)
        && WellFormed(choice.value.1)
  {
    hide Open, ReadPayload, FindEdge, NodeAt;
    var node := NodeOpened(bytes, offset, t);
    EdgeFound(bytes, node.edgesStart + 1, t.edges, suffix);
  }

  /** On an encoding, the unbudgeted walk is lookup in the tree. */
  lemma {:induction false} FreeWalkLooksUp(bytes: seq<Byte>, offset: nat, t: Trie, suffix: seq<Byte>)
    requires NodeAt(bytes, offset, t) && WellFormed(t) && |bytes| <= U64
    ensures FreeWalk(bytes, offset, suffix) == Lookup(t, suffix)
    decreases |suffix|
  {
    hide NextMove, NodeAt, WellFormed;
    NextMoveAt(bytes, offset, t, suffix);
    match NextMove(bytes, offset, suffix)
    case Descend(child, rest) => FreeWalkLooksUp(bytes, child, Choose(t.edges, suffix).value.1, rest);
    case _ =>
  }

  // ----- an encoded walk never reopens a node -----

  /** An offset encodes at most one tree. */
  lemma {:induction false} NodeUnique(bytes: seq<Byte>, offset: nat, t: Trie, u: Trie)
    requires NodeAt(bytes, offset, t) && NodeAt(bytes, offset, u) && WellFormed(t) && WellFormed(u) && |bytes| <= U64
    ensures t == u
    decreases t, 1
  {
    hide Open, ReadPayload, Number, PayloadAt, NodeAt, EdgesAt;
    var node := NodeOpened(bytes, offset, t);
    var node' := NodeOpened(bytes, offset, u);
    EdgesUnique(bytes, node.edgesStart + 1, t.edges, u.edges);
  }

  lemma {:induction false} EdgesUnique(bytes: seq<Byte>, cursor: nat, e: Edges, f: Edges)
    requires EdgesAt(bytes, cursor, e) && EdgesAt(bytes, cursor, f) && EdgesWellFormed(e) && EdgesWellFormed(f)
    requires Degree(e) == Degree(f) && |bytes| <= U64
    ensures e == f
    decreases e, 0
  {
    hide Number, NodeAt, Clear, WellFormed;
    if e.Edges? {
      CStringRead(bytes, cursor, e.name);
      CStringRead(bytes, cursor, f.name);
      assert e.name == f.name;
      var (offset, width) := Number(bytes, cursor + |e.name| + 1).value;
      NodeUnique(bytes, offset, e.child, f.child);
      EdgesUnique(bytes, cursor + |e.name| + 1 + width, e.rest, f.rest);
    }
  }

  /** Every node the walk opens encodes a tree no larger than the one it started from. */
  lemma {:induction false} OpenedTries(bytes: seq<Byte>, offset: nat, t: Trie, suffix: seq<Byte>, k: nat)
                                       returns (u: Trie)
    requires NodeAt(bytes, offset, t) && WellFormed(t) && |bytes| <= U64
    requires k in Opened(bytes, offset, suffix)
    ensures NodeAt(bytes, k, u) && WellFormed(u) && Size(u) <= Size(t)
    decreases |suffix|
  {
    hide NextMove, NodeAt, WellFormed;
    NextMoveAt(bytes, offset, t, suffix);
    if k == offset {
      u := t;
    } else {
      var move, child := NextMove(bytes, offset, suffix), Choose(t.edges, suffix).value.1;
      ChooseSmaller(t.edges, suffix);
      u := OpenedTries(bytes, move.child, child, move.rest, k);
    }
  }

  lemma {:induction false} OpenedDistinct(bytes: seq<Byte>, offset: nat, t: Trie, suffix: seq<Byte>)
    requires NodeAt(bytes, offset, t) && WellFormed(t) && |bytes| <= U64
    ensures Distinct(Opened(bytes, offset, suffix))
    decreases |suffix|
  {
    hide NextMove, NodeAt, WellFormed;
    NextMoveAt(bytes, offset, t, suffix);
    match NextMove(bytes, offset, suffix)
    case Descend(next, rest) =>
      var child := Choose(t.edges, suffix).value.1;
      ChooseSmaller(t.edges, suffix);
      OpenedDistinct(bytes, next, child, rest);
      var later := Opened(bytes, next, rest);
      forall j | 0 <= j < |later|
        ensures later[j] != offset
      {
        var u := OpenedTries(bytes, next, child, rest, later[j]);
        if later[j] == offset {
          NodeUnique(bytes, offset, t, u);
        }
      }
      assert Opened(bytes, offset, suffix) == [offset] + later;
    case _ =>
  }

  // ----- the table -----

  lemma PrefixesCompare(a: seq<Byte>, b: seq<Byte>, s: seq<Byte>)
    ensures a <= s && b <= s ==> Comparable(a, b)
  {}

  lemma {:induction false} ClearSkips(name: seq<Byte>, edges: Edges, suffix: seq<Byte>)
    requires Clear(name, edges) && name <= suffix
    ensures Choose(edges, suffix).None?
    decreases edges
  {
    if edges.Edges? {
      PrefixesCompare(name, edges.name, suffix);
      ClearSkips(name, edges.rest, suffix);
    }
  }

  /** Lookup finds exactly the entries of the table. */
  lemma {:induction false} LookupIsTable(t: Trie, suffix: seq<Byte>, v: Terminal)
    requires WellFormed(t)
    ensures Lookup(t, suffix) == Some(v) <==> (suffix, v) in Exports(t)
    decreases t, 1
  {
    EdgesTable(t.edges, suffix, v);
    ChooseSmaller(t.edges, suffix);
    if suffix == [] {
      NoEmptyLabel(t.edges, v);
    }
  }

  /** No edge leads to the empty symbol. */
  lemma {:induction false} NoEmptyLabel(edges: Edges, v: Terminal)
    requires EdgesWellFormed(edges)
    ensures ([], v) !in EdgesExports(edges) && Choose(edges, []).None?
    decreases edges
  {
    if edges.Edges? {
      NoEmptyLabel(edges.rest, v);
    }
  }

  lemma {:induction false} EdgesTable(edges: Edges, suffix: seq<Byte>, v: Terminal)
    requires EdgesWellFormed(edges)
    ensures var choice := Choose(edges, suffix);
      (choice.Some? && Lookup(choice.value.1, suffix[|choice.value.0|..]) == Some(v))
          <==> (suffix, v) in EdgesExports(edges)
    decreases edges, 0
  {
    match edges
    case NoEdges =>
    case Edges(name, child, rest) =>
      EdgesTable(rest, suffix, v);
      var here := set e | e in Exports(child) :: (name + e.0, e.1);
      if name <= suffix {
        ClearSkips(name, rest, suffix);
        LookupIsTable(child, suffix[|name|..], v);
        assert suffix == name + suffix[|name|..];
        if (suffix, v) in here {
          var e :| e in Exports(child) && (suffix, v) == (name + e.0, e.1);
          assert e.0 == suffix[|name|..];
        }
        if (suffix[|name|..], v) in Exports(child) {
          assert (name + (suffix[|name|..], v).0, (suffix[|name|..], v).1) in here;
        }
      }
  }

  /**
   For any bytes that encode a trie from offset 0, the linker's walk returns for every symbol exactly
   the export the trie's table gives it, and None for every other symbol.
   */
  lemma {:induction false} WalkIsTable(bytes: seq<Byte>, t: Trie, symbol: seq<Byte>, v: Terminal)
    requires NodeAt(bytes, 0, t) && WellFormed(t) && |bytes| <= U64
    ensures Walk(bytes, 0, symbol, |bytes|) == Some(v) <==> (symbol, v) in Exports(t)
  {
    hide Walk, FreeWalk, Opened, NodeAt, WellFormed, Exports, Lookup;
    OpenedDistinct(bytes, 0, t, symbol);
    BudgetOnlyStopsCycles(bytes, symbol);
    FreeWalkLooksUp(bytes, 0, t, symbol);
    LookupIsTable(t, symbol, v);
  }
}
