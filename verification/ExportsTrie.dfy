/** The exports trie as the linker reads it: nodes, payloads, edges, and the budgeted walk. */
module ExportsTrie {
  import opened Prelude
  import opened Bits
  import opened Bytes
  import opened CStrings
  import Uleb128

  const REEXPORT_FLAG: nat := 0x08

  datatype Terminal =
    | DefinedHere(offset: nat)
    | ReexportedFromDependency(ordinal: nat, alias: seq<Byte>)

  /** Where a node's parts lie. */
  datatype Node = Node(edgesStart: nat, payloadStart: nat, payloadSize: nat)
  {
    predicate HasPayload() {
      payloadSize > 0
    }
  }

  /** The node at `offset`; the sum that finds its edges wraps at 64 bits, as a release build does. */
  function Open(bytes: seq<Byte>, offset: nat): (r: Option<Node>)
    ensures r.Some? ==> offset < |bytes| && r.value.edgesStart < |bytes| && offset < r.value.payloadStart <= |bytes|
  {
    if offset >= |bytes| then None
    else
      match Uleb128.Decode(bytes[offset..])
      case None => None
      case Some((size, width)) =>
        var payloadStart := offset + width;
        var edgesStart := (payloadStart + size) % U64;
        if edgesStart >= |bytes| then None else Some(Node(edgesStart, payloadStart, size))
  }

  function ReadPayload(bytes: seq<Byte>, start: nat): Option<Terminal>
    requires start <= |bytes|
  {
    match Uleb128.Decode(bytes[start..])
    case None => None
    case Some((flags, flagsWidth)) =>
      var cursor := start + flagsWidth;
      match Uleb128.Decode(bytes[cursor..])
      case None => None
      case Some((first, firstWidth)) =>
        if And(flags, REEXPORT_FLAG) != 0 then
          match NulAt(bytes, cursor + firstWidth)
          case None => None
          case Some(n) =>
            Some(ReexportedFromDependency(first, bytes[cursor + firstWidth..cursor + firstWidth + n]))
        else Some(DefinedHere(first))
  }

  /** One edge as it stands in the node: its label, its child, and where the next edge begins. */
  datatype Edge = Edge(name: seq<Byte>, child: nat, next: nat)

  function EdgeAt(bytes: seq<Byte>, cursor: nat): (r: Option<Edge>)
    requires cursor <= |bytes|
    ensures r.Some? ==> cursor < r.value.next <= |bytes|
  {
    match NulAt(bytes, cursor)
    case None => None
    case Some(n) =>
      match Uleb128.Decode(bytes[cursor + n + 1..])
      case None => None
      case Some((child, width)) => Some(Edge(bytes[cursor..cursor + n], child, cursor + n + 1 + width))
  }

  /** Among `count` edges from `cursor`, the first whose label starts the suffix. */
  function FindEdge(bytes: seq<Byte>, cursor: nat, count: nat, suffix: seq<Byte>): (r: Option<Edge>)
    requires cursor <= |bytes|
    ensures r.Some? ==> r.value.name != [] && r.value.name <= suffix
    decreases count
  {
    if count == 0 then None
    else
      match EdgeAt(bytes, cursor)
      case None => None
      case Some(edge) =>
        if edge.name != [] && edge.name <= suffix then Some(edge)
        else FindEdge(bytes, edge.next, count - 1, suffix)
  }

  lemma FindEdgeStep(bytes: seq<Byte>, cursor: nat, count: nat, suffix: seq<Byte>)
    requires cursor <= |bytes|
    ensures FindEdge(bytes, cursor, count, suffix) ==
      if count == 0 || EdgeAt(bytes, cursor).None? then None
      else
        var edge := EdgeAt(bytes, cursor).value;
        if edge.name != [] && edge.name <= suffix then Some(edge) else FindEdge(bytes, edge.next, count - 1, suffix)
  {}

  function MatchingEdge(bytes: seq<Byte>, node: Node, suffix: seq<Byte>): (r: Option<Edge>)
    requires node.edgesStart < |bytes|
    ensures r.Some? ==> r.value.name != [] && r.value.name <= suffix
  {
    FindEdge(bytes, node.edgesStart + 1, bytes[node.edgesStart], suffix)
  }

  /** What the walk does at a node: the node is missing, it gives the result, or an edge is followed. */
  datatype Move = Missing | Stop(result: Option<Terminal>) | Descend(child: nat, rest: seq<Byte>)

  function NextMove(bytes: seq<Byte>, offset: nat, suffix: seq<Byte>): (r: Move)
    ensures !r.Missing? ==> offset < |bytes|
    ensures r.Descend? ==> |r.rest| < |suffix|
  {
    match Open(bytes, offset)
    case None => Missing
    case Some(node) =>
      if suffix == [] && node.HasPayload() then Stop(ReadPayload(bytes, node.payloadStart))
      else
        match MatchingEdge(bytes, node, suffix)
        case None => Stop(None)
        case Some(edge) => Descend(edge.child, suffix[|edge.name|..])
  }

  /** The walk from the node at `offset` with `budget` visits left. */
  function Walk(bytes: seq<Byte>, offset: nat, suffix: seq<Byte>, budget: nat): Option<Terminal>
    decreases budget
  {
    if budget == 0 then None
    else
      match NextMove(bytes, offset, suffix)
      case Missing => None
      case Stop(result) => result
      case Descend(child, rest) => Walk(bytes, child, rest, budget - 1)
  }

  // ----- the code -----

  method ChildEdgeMatchingPrefixFind(bytes: seq<Byte>, node: Node, suffix: seq<Byte>) returns (r: Option<Edge>)
    requires node.edgesStart < |bytes|
    ensures r == MatchingEdge(bytes, node, suffix)
  {
    hide FindEdge;
    var cursor: nat := node.edgesStart;
    var count: nat := bytes[cursor];
    cursor := cursor + 1;
    for i := 0 to count
      invariant cursor <= |bytes|
      invariant MatchingEdge(bytes, node, suffix) == FindEdge(bytes, cursor, count - i, suffix)
    {
      ghost var edge := EdgeAt(bytes, cursor);
      FindEdgeStep(bytes, cursor, count - i, suffix);
      var length := NulAt(bytes, cursor);
      if length.None? {
        return None;
      }
      var name := bytes[cursor..cursor + length.value];
      cursor := cursor + length.value + 1;
      var child := Uleb128.ReadUleb128(bytes[cursor..]);
      if child.None? {
        return None;
      }
      cursor := cursor + child.value.1;
      assert edge == Some(Edge(name, child.value.0, cursor));
      if name != [] && name <= suffix {
        return Some(Edge(name, child.value.0, cursor));
      }
    }
    FindEdgeStep(bytes, cursor, 0, suffix);
    return None;
  }

  method ExportsTrieWalkForSymbol(bytes: seq<Byte>, symbol: seq<Byte>) returns (r: Option<Terminal>)
    ensures r == Walk(bytes, 0, symbol, |bytes|)
  {
    var offset: nat, suffix, budget: nat := 0, symbol, |bytes|;
    while true
      invariant Walk(bytes, 0, symbol, |bytes|) == Walk(bytes, offset, suffix, budget)
      decreases budget
    {
      if budget == 0 {
        return None;
      }
      budget := budget - 1;
      var node := Open(bytes, offset);
      if node.None? {
        return None;
      }
      if suffix == [] && node.value.HasPayload() {
        return ReadPayload(bytes, node.value.payloadStart);
      }
      var edge := ChildEdgeMatchingPrefixFind(bytes, node.value, suffix);
      if edge.None? {
        return None;
      }
      suffix := suffix[|edge.value.name|..];
      offset := edge.value.child;
    }
  }

  // ----- the budget -----

  /** The walk without a budget: it ends because every step consumes a non-empty label. */
  function FreeWalk(bytes: seq<Byte>, offset: nat, suffix: seq<Byte>): Option<Terminal>
    decreases |suffix|
  {
    match NextMove(bytes, offset, suffix)
    case Missing => None
    case Stop(result) => result
    case Descend(child, rest) => FreeWalk(bytes, child, rest)
  }

  /** The offsets of the nodes that the unbudgeted walk opens, in order. */
  function Opened(bytes: seq<Byte>, offset: nat, suffix: seq<Byte>): seq<nat>
    decreases |suffix|
  {
    match NextMove(bytes, offset, suffix)
    case Missing => []
    case Stop(_) => [offset]
    case Descend(child, rest) => [offset] + Opened(bytes, child, rest)
  }

  /** On any bytes, the walk opens at most one node per symbol byte, and one more. */
  lemma {:induction false} OpenedBound(bytes: seq<Byte>, offset: nat, suffix: seq<Byte>)
    ensures |Opened(bytes, offset, suffix)| <= |suffix| + 1
    ensures forall k :: k in Opened(bytes, offset, suffix) ==> k < |bytes|
    decreases |suffix|
  {
    match NextMove(bytes, offset, suffix)
    case Descend(child, rest) => OpenedBound(bytes, child, rest);
    case _ =>
  }

  /** On any bytes, the budget matters exactly when the walk would open more nodes than it allows. */
  lemma {:induction false} BudgetEffect(bytes: seq<Byte>, offset: nat, suffix: seq<Byte>, budget: nat)
    ensures Walk(bytes, offset, suffix, budget)
         == if |Opened(bytes, offset, suffix)| <= budget then FreeWalk(bytes, offset, suffix) else None
    decreases budget
  {
    hide NextMove;
    match NextMove(bytes, offset, suffix)
    case Missing =>
    case Stop(_) =>
    case Descend(child, rest) =>
      if budget > 0 {
        BudgetEffect(bytes, child, rest, budget - 1);
      }
  }

  ghost predicate Distinct(s: seq<nat>) {
    forall i, j :: 0 <= i < j < |s| ==> s[i] != s[j]
  }

  /** Distinct numbers below a bound are no more than the bound. */
  lemma {:induction false} Pigeonhole(s: seq<nat>, bound: nat)
    requires Distinct(s) && forall k :: k in s ==> k < bound
    ensures |s| <= bound
    decreases bound
  {
    if s != [] {
      assert s[0] in s && s[0] < bound;
      if bound - 1 in s {
        var i :| 0 <= i < |s| && s[i] == bound - 1;
        var t := s[..i] + s[i + 1..];
        forall k | k in t
          ensures k < bound - 1
        {
          var j :| 0 <= j < |t| && t[j] == k;
          var m := if j < i then j else j + 1;
          assert t[j] == s[m] && s[m] in s && m != i;
        }
        forall a, b | 0 <= a < b < |t|
          ensures t[a] != t[b]
        {
          assert t[a] == s[if a < i then a else a + 1] && t[b] == s[if b < i then b else b + 1];
        }
        Pigeonhole(t, bound - 1);
      } else {
        assert forall k :: k in s ==> k < bound - 1;
        Pigeonhole(s, bound - 1);
      }
    }
  }

  /** The budget of one visit per byte is generous: it changes the result only if the walk reopens a node. */
  lemma {:induction false} BudgetOnlyStopsCycles(bytes: seq<Byte>, symbol: seq<Byte>)
    requires Distinct(Opened(bytes, 0, symbol)) || |symbol| < |bytes|
    ensures Walk(bytes, 0, symbol, |bytes|) == FreeWalk(bytes, 0, symbol)
  {
    BudgetEffect(bytes, 0, symbol, |bytes|);
    OpenedBound(bytes, 0, symbol);
    if Distinct(Opened(bytes, 0, symbol)) {
      Pigeonhole(Opened(bytes, 0, symbol), |bytes|);
    }
  }
}
