/**
 A one-pass writer of exports tries, in the layout the linker reads: child offsets are padded to a
 fixed width, so a node's length does not depend on where its children land. Every well-formed trie
 has an encoding, and the walk over it is lookup in the trie's table.
 */
module TrieSerializer {
  import opened Prelude
  import opened Bits
  import opened Bytes
  import opened CStrings
  import opened ExportsTrie
  import opened TrieFormat
  import Uleb128

  /** Width of a child offset: nine groups of seven bits hold every offset below two to the 63. */
  const OFFSET_WIDTH: nat := 9

  const OFFSET_LIMIT: nat := 0x8000_0000_0000_0000

  function PayloadBytes(exported: Terminal): (s: seq<Byte>)
    ensures |s| >= 2
  {
    match exported
    case DefinedHere(offset) => Uleb128.Encode(0) + Uleb128.Encode(offset)
    case ReexportedFromDependency(ordinal, alias) =>
      Uleb128.Encode(REEXPORT_FLAG) + (Uleb128.Encode(ordinal) + (alias + [0]))
  }

  function ExportBytes(exported: Option<Terminal>): seq<Byte> {
    match exported
    case None => Uleb128.Encode(0)
    case Some(terminal) => Uleb128.Encode(|PayloadBytes(terminal)|) + PayloadBytes(terminal)
  }

  function EdgesLength(edges: Edges): nat {
    match edges
    case NoEdges => 0
    case Edges(name, _, rest) => |name| + 1 + OFFSET_WIDTH + EdgesLength(rest)
  }

  function NodeLength(t: Trie): nat {
    |ExportBytes(t.exported)| + 1 + EdgesLength(t.edges)
  }

  /** The length of a trie with everything below it. */
  function Length(t: Trie): (n: nat)
    ensures n >= 1
  {
    NodeLength(t) + ChildrenLength(t.edges)
  }

  function ChildrenLength(edges: Edges): nat {
    match edges
    case NoEdges => 0
    case Edges(_, child, rest) => Length(child) + ChildrenLength(rest)
  }

  /** The edges of a node whose first child is written at `childAt`. */
  function EdgeBytes(edges: Edges, childAt: nat): (s: seq<Byte>)
    ensures |s| == EdgesLength(edges)
  {
    match edges
    case NoEdges => []
    case Edges(name, child, rest) =>
      (name + [0]) + (Uleb128.EncodePadded(childAt, OFFSET_WIDTH) + EdgeBytes(rest, childAt + Length(child)))
  }

  /** The trie written at offset `at`: the node, then its children in order. */
  function Serialize(t: Trie, at: nat): (s: seq<Byte>)
    ensures |s| == Length(t)
    decreases t, 1
  {
    var childAt := at + NodeLength(t);
    ExportBytes(t.exported)
        + ([Degree(t.edges) % 256] + (EdgeBytes(t.edges, childAt) + SerializeChildren(t.edges, childAt)))
  }

  function SerializeChildren(edges: Edges, at: nat): (s: seq<Byte>)
    ensures |s| == ChildrenLength(edges)
    decreases edges, 0
  {
    match edges
    case NoEdges => []
    case Edges(_, child, rest) => Serialize(child, at) + SerializeChildren(rest, at + Length(child))
  }

  /** Every node has at most 255 edges, and every number fits in a u64. */
  predicate Fits(t: Trie)
    decreases t, 1
  {
    && Degree(t.edges) < 256
    && (t.exported.Some? ==> TerminalFits(t.exported.value))
    && EdgesFit(t.edges)
  }

  predicate TerminalFits(exported: Terminal) {
    match exported
    case DefinedHere(offset) => offset < U64
    case ReexportedFromDependency(ordinal, alias) => ordinal < U64 && |alias| < OFFSET_LIMIT
  }

  predicate EdgesFit(edges: Edges)
    decreases edges, 0
  {
    match edges
    case NoEdges => true
    case Edges(_, child, rest) => Fits(child) && EdgesFit(rest)
  }

  // ----- what is written is an encoding -----

  lemma NumberWritten(bytes: seq<Byte>, cursor: nat, v: nat)
    requires v < U64 && At(bytes, cursor, Uleb128.Encode(v))
    ensures Number(bytes, cursor) == Some((v, |Uleb128.Encode(v)|))
  {
    hide Uleb128.Encode, Uleb128.Decode;
    AtRest(bytes, cursor, Uleb128.Encode(v));
    Uleb128.RoundTrip(v, bytes[cursor + |Uleb128.Encode(v)|..]);
  }

  lemma OffsetWritten(bytes: seq<Byte>, cursor: nat, v: nat)
    requires v < OFFSET_LIMIT && At(bytes, cursor, Uleb128.EncodePadded(v, OFFSET_WIDTH))
    ensures Number(bytes, cursor) == Some((v, OFFSET_WIDTH))
  {
    hide Uleb128.EncodePadded, Uleb128.Decode;
    Pow2Words();
    assert Pow2(64) == 2 * Pow2(63);
    AtRest(bytes, cursor, Uleb128.EncodePadded(v, OFFSET_WIDTH));
    Uleb128.PaddedRoundTrip(v, OFFSET_WIDTH, bytes[cursor + OFFSET_WIDTH..]);
  }

  lemma FlagBits()
    ensures And(0, REEXPORT_FLAG) == 0 && And(REEXPORT_FLAG, REEXPORT_FLAG) != 0
  {}

  lemma PayloadWritten(bytes: seq<Byte>, start: nat, exported: Terminal)
    requires TerminalFits(exported) && At(bytes, start, PayloadBytes(exported))
    ensures PayloadAt(bytes, start, |PayloadBytes(exported)|, exported)
  {
    hide Uleb128.Encode, Number, And, At;
    FlagBits();
    match exported
    case DefinedHere(offset) =>
      AtConcat(bytes, start, Uleb128.Encode(0), Uleb128.Encode(offset));
      NumberWritten(bytes, start, 0);
      NumberWritten(bytes, start + |Uleb128.Encode(0)|, offset);
    case ReexportedFromDependency(ordinal, alias) =>
      var flags, number := Uleb128.Encode(REEXPORT_FLAG), Uleb128.Encode(ordinal);
      AtConcat(bytes, start, flags, number + (alias + [0]));
      AtConcat(bytes, start + |flags|, number, alias + [0]);
      NumberWritten(bytes, start, REEXPORT_FLAG);
      NumberWritten(bytes, start + |flags|, ordinal);
  }

  /** A node's payload size and payload are read back from what is written for them. */
  lemma ExportWritten(bytes: seq<Byte>, at: nat, exported: Option<Terminal>)
    requires At(bytes, at, ExportBytes(exported)) && (exported.Some? ==> TerminalFits(exported.value))
    requires |bytes| < OFFSET_LIMIT
    ensures Number(bytes, at).Some?
    ensures var (size, width) := Number(bytes, at).value;
      && at + width + size == at + |ExportBytes(exported)|
      && (exported.None? <==> size == 0)
      && (exported.Some? ==> PayloadAt(bytes, at + width, size, exported.value))
  {
    hide Uleb128.Encode, Number, PayloadAt, PayloadBytes, At;
    match exported
    case None => NumberWritten(bytes, at, 0);
    case Some(terminal) =>
      var payload := PayloadBytes(terminal);
      var size := Uleb128.Encode(|payload|);
      AtConcat(bytes, at, size, payload);
      AtLength(bytes, at + |size|, payload);
      NumberWritten(bytes, at, |payload|);
      PayloadWritten(bytes, at + |size|, terminal);
  }

  /** A serialized trie encodes the trie, wherever in a buffer it stands. */
  lemma {:induction false} TrieWritten(bytes: seq<Byte>, at: nat, t: Trie)
    requires At(bytes, at, Serialize(t, at)) && |bytes| < OFFSET_LIMIT && Fits(t)
    ensures NodeAt(bytes, at, t)
    decreases t, 1
  {
    hide Uleb128.Encode, Number, PayloadAt, ExportBytes, At, EdgeBytes, SerializeChildren, EdgesAt, EdgesFit;
    var childAt := at + NodeLength(t);
    var head, edges, children := ExportBytes(t.exported), EdgeBytes(t.edges, childAt),
        SerializeChildren(t.edges, childAt);
    var degree: seq<Byte> := [Degree(t.edges) % 256];
    AtConcat(bytes, at, head, degree + (edges + children));
    AtConcat(bytes, at + |head|, degree, edges + children);
    AtConcat(bytes, at + |head| + 1, edges, children);
    AtLength(bytes, at + |head|, degree);
    AtIndex(bytes, at + |head|, degree, 0);
    ExportWritten(bytes, at, t.exported);
    EdgesWritten(bytes, at + |head| + 1, t.edges, childAt);
  }

  lemma {:induction false} EdgesWritten(bytes: seq<Byte>, cursor: nat, edges: Edges, childAt: nat)
    requires At(bytes, cursor, EdgeBytes(edges, childAt)) && At(bytes, childAt, SerializeChildren(edges, childAt))
    requires |bytes| < OFFSET_LIMIT && EdgesFit(edges)
    ensures EdgesAt(bytes, cursor, edges)
    decreases edges, 0
  {
    hide Number, At, NodeAt, Fits, Serialize, Uleb128.EncodePadded;
    AtLength(bytes, cursor, EdgeBytes(edges, childAt));
    match edges
    case NoEdges =>
    case Edges(name, child, rest) =>
      var offset, others := Uleb128.EncodePadded(childAt, OFFSET_WIDTH), EdgeBytes(rest, childAt + Length(child));
      var here, later := Serialize(child, childAt), SerializeChildren(rest, childAt + Length(child));
      AtConcat(bytes, cursor, name + [0], offset + others);
      AtConcat(bytes, cursor + |name| + 1, offset, others);
      AtConcat(bytes, childAt, here, later);
      AtLength(bytes, childAt, here);
      OffsetWritten(bytes, cursor + |name| + 1, childAt);
      TrieWritten(bytes, childAt, child);
      EdgesWritten(bytes, cursor + |name| + 1 + OFFSET_WIDTH, rest, childAt + Length(child));
  }

  /**
   Round trip: a well-formed trie, written and then walked by the linker, answers every symbol from
   its table.
   */
  lemma {:induction false} SerializedWalk(t: Trie, symbol: seq<Byte>, v: Terminal)
    requires WellFormed(t) && Fits(t) && Length(t) < OFFSET_LIMIT
    ensures var bytes := Serialize(t, 0); Walk(bytes, 0, symbol, |bytes|) == Some(v) <==> (symbol, v) in Exports(t)
  {
    hide Walk, NodeAt, WellFormed, Fits, Exports, Serialize;
    var bytes := Serialize(t, 0);
    assert bytes[0..0 + |bytes|] == bytes;
    TrieWritten(bytes, 0, t);
    WalkIsTable(bytes, t, symbol, v);
  }
}
