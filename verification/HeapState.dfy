/**
 The allocator's state as a value, and what each operation does to it.

 Memory is a map of 64-bit words: every block and free node starts at a multiple of 8 and has a
 size that is a multiple of 8, so words and bytes give the same frames. `nodes`, `live`, `large`,
 `chunks` and `waste` are the ledger the invariants talk about; the code itself keeps only `free`
 and `chunk`, and the free nodes exist as words of `mem`.
 */
module HeapState {
  import opened Prelude
  import opened Bits
  import opened Extents

  const PAGE_SIZE: nat := 4096
  const CHUNK_SIZE: nat := 64 * PAGE_SIZE
  const LARGE_THRESHOLD: nat := CHUNK_SIZE / 2
  const MIN_REUSE: nat := 16
  const MIN_ALIGN: nat := 8

  /** Mapped memory lies in the lower half of the address space. */
  const ADDRESS_LIMIT: nat := 0x8000_0000_0000_0000

  datatype Layout = Layout(size: nat, align: nat)

  datatype Block = Block(addr: nat, layout: Layout)
  {
    function Footprint(): Extent {
      Extent(addr, NormalSize(layout))
    }
  }

  datatype Chunk = Chunk(base: nat, size: nat, offset: nat)

  datatype Cause = Padding | AbandonedTail | Leftover

  datatype Scrap = Scrap(extent: Extent, cause: Cause)

  datatype Heap = Heap(
    mem: map<nat, nat>,
    free: nat,               // address of the first free node, 0 for none
    chunk: Option<Chunk>,
    nodes: seq<Extent>,      // the free list, in list order
    live: seq<Block>,        // small blocks the client holds
    large: seq<Block>,       // blocks taken straight from the backend
    chunks: seq<Extent>,     // every chunk taken from the backend
    waste: seq<Scrap>)       // bytes of chunks that no operation will hand out again

  const EMPTY: Heap := Heap(map[], 0, None, [], [], [], [], [])

  /** The state before the first request. */
  predicate Untouched(h: Heap) {
    && h.mem == map[] && h.free == 0 && h.chunk == None && h.nodes == [] && h.live == [] && h.large == []
    && h.chunks == [] && h.waste == []
  }

  /** The contract of `Layout`: the size rounded up to the alignment is at most `isize::MAX`. */
  ghost predicate ValidLayout(l: Layout) {
    IsPow2(l.align) && l.size + l.align <= ADDRESS_LIMIT
  }

  function Max(a: nat, b: nat): nat {
    if a < b then b else a
  }

  /** `(addr + align - 1) & !(align - 1)` on 64-bit words. */
  function AlignUp(addr: nat, align: nat): nat
    requires 1 <= align <= U64
  {
    And((addr + align - 1) % U64, U64 - align)
  }

  function NormalSize(l: Layout): nat {
    AlignUp(Max(l.size, MIN_REUSE), MIN_ALIGN)
  }

  function NormalAlign(l: Layout): nat {
    Max(l.align, MIN_ALIGN)
  }

  predicate IsLarge(l: Layout) {
    NormalSize(l) >= LARGE_THRESHOLD
  }

  /** How many bytes an allocation asks the backend for, when it asks. */
  function RegionSize(l: Layout): nat {
    if IsLarge(l) then NormalSize(l) else Max(CHUNK_SIZE, NormalSize(l) + NormalAlign(l))
  }

  function Footprints(bs: seq<Block>): (r: seq<Extent>)
    ensures |r| == |bs| && forall i :: 0 <= i < |bs| ==> r[i] == bs[i].Footprint()
  {
    seq(|bs|, i requires 0 <= i < |bs| => bs[i].Footprint())
  }

  function Scraps(ws: seq<Scrap>): (r: seq<Extent>)
    ensures |r| == |ws| && forall i :: 0 <= i < |ws| ==> r[i] == ws[i].extent
  {
    seq(|ws|, i requires 0 <= i < |ws| => ws[i].extent)
  }

  /** The part of the current chunk that was never handed out. */
  function Remainder(c: Option<Chunk>): Extent {
    if c.Some? && c.value.offset <= c.value.size
    then Extent(c.value.base + c.value.offset, c.value.size - c.value.offset)
    else Extent(0, 0)
  }

  function IndexOf(bs: seq<Block>, b: Block): (i: nat)
    requires b in bs
    ensures i < |bs| && bs[i] == b
  {
    if bs[0] == b then 0 else IndexOf(bs[1..], b) + 1
  }

  function Words(e: Extent): set<nat> {
    set w: nat | e.addr <= w < e.addr + e.size && w % 8 == 0
  }

  function Zeroed(e: Extent): map<nat, nat> {
    map w: nat | w in Words(e) :: 0
  }

  // ----- the free list -----

  predicate Fits(node: Extent, size: nat, align: nat)
    requires align > 0
  {
    node.size >= size && node.addr % align == 0
  }

  /** The first node, in list order from index `i`, that is large and aligned enough. */
  function FirstFit(nodes: seq<Extent>, size: nat, align: nat, i: nat): (r: Option<nat>)
    requires align > 0 && i <= |nodes|
    ensures r.Some? ==> i <= r.value < |nodes| && Fits(nodes[r.value], size, align)
    ensures forall j :: i <= j < (if r.Some? then r.value else |nodes|) ==> !Fits(nodes[j], size, align)
    decreases |nodes| - i
  {
    if i == |nodes| then None
    else if Fits(nodes[i], size, align) then Some(i)
    else FirstFit(nodes, size, align, i + 1)
  }

  function AddrAt(nodes: seq<Extent>, i: nat): nat {
    if i < |nodes| then nodes[i].addr else 0
  }

  /** Node `i` leaves the list: its predecessor, or the list head, now points past it. */
  function Unlink(h: Heap, i: nat): Heap
    requires i < |h.nodes|
  {
    var next := AddrAt(h.nodes, i + 1);
    var h' := h.(nodes := Without(h.nodes, i));
    if i == 0 then h'.(free := next) else h'.(mem := h.mem[h.nodes[i - 1].addr := next])
  }

  /** A node is written at the front of the range and becomes the head of the list. */
  function Push(h: Heap, e: Extent): Heap {
    h.(mem := h.mem[e.addr := h.free][e.addr + 8 := e.size], free := e.addr, nodes := [e] + h.nodes)
  }

  function Discard(h: Heap, e: Extent, cause: Cause): Heap {
    if e.size == 0 then h else h.(waste := h.waste + [Scrap(e, cause)])
  }

  function Grant(h: Heap, addr: nat, l: Layout): Heap {
    h.(live := h.live + [Block(addr, l)])
  }

  /** A taken range is cut after `size` bytes; a tail of at least `MIN_REUSE` bytes returns to the list. */
  function Cut(h: Heap, range: Extent, size: nat): Heap
    requires size <= range.size
  {
    var tail := Extent(range.addr + size, range.size - size);
    if tail.size >= MIN_REUSE then Push(h, tail) else Discard(h, tail, Leftover)
  }

  function TakeNode(h: Heap, i: nat, size: nat): Heap
    requires i < |h.nodes| && size <= h.nodes[i].size
  {
    Cut(Unlink(h, i), h.nodes[i], size)
  }

  // ----- the bump chunk -----

  /** The aligned address a chunk can hand out next, if the block still fits. */
  function BumpAddr(c: Option<Chunk>, size: nat, align: nat): Option<nat>
    requires 1 <= align <= U64
  {
    if c.None? then None
    else
      var aligned := AlignUp(c.value.base + c.value.offset, align);
      if aligned + size >= U64 || aligned + size < c.value.base then None
      else if aligned + size - c.value.base > c.value.size then None
      else Some(aligned)
  }

  function TakeBump(h: Heap, addr: nat, size: nat): Heap
    requires h.chunk.Some? && h.chunk.value.base <= addr + size
  {
    var c := h.chunk.value;
    var cur := c.base + c.offset;
    var padding := Extent(cur, if addr >= cur then addr - cur else 0);
    Discard(h, padding, Padding).(chunk := Some(c.(offset := addr + size - c.base)))
  }

  /** A new chunk replaces the current one, whose tail is abandoned. */
  function AddChunk(h: Heap, base: nat, size: nat): Heap {
    Discard(h, Remainder(h.chunk), AbandonedTail).(
      chunk := Some(Chunk(base, size, 0)),
      chunks := h.chunks + [Extent(base, size)],
      mem := h.mem + Zeroed(Extent(base, size)))
  }

  // ----- the operations -----

  /** `alloc`: the new state and the address returned, 0 for null. */
  function Alloc(h: Heap, l: Layout, answer: Option<nat>): (Heap, nat)
    requires l.align <= U64
  {
    var size, align := NormalSize(l), NormalAlign(l);
    if IsLarge(l) then
      match answer
      case None => (h, 0)
      case Some(base) =>
        (h.(large := h.large + [Block(base, l)], mem := h.mem + Zeroed(Extent(base, size))), base)
    else
      match FirstFit(h.nodes, size, align, 0)
      case Some(i) => (Grant(TakeNode(h, i, size), h.nodes[i].addr, l), h.nodes[i].addr)
      case None =>
        match BumpAddr(h.chunk, size, align)
        case Some(p) => (Grant(TakeBump(h, p, size), p, l), p)
        case None =>
          match answer
          case None => (h, 0)
          case Some(base) =>
            var h1 := AddChunk(h, base, RegionSize(l));
            match BumpAddr(h1.chunk, size, align)
            case Some(p) => (Grant(TakeBump(h1, p, size), p, l), p)
            case None => (h1, 0)
  }

  /** `dealloc`, under the contract that a non-null pointer names a block of that layout. */
  function Dealloc(h: Heap, addr: nat, l: Layout): Heap
    requires addr != 0 ==> Block(addr, l) in (if IsLarge(l) then h.large else h.live)
  {
    if addr == 0 then h
    else if IsLarge(l) then
      h.(large := Without(h.large, IndexOf(h.large, Block(addr, l))),
         mem := h.mem - Words(Block(addr, l).Footprint()))
    else
      Push(h.(live := Without(h.live, IndexOf(h.live, Block(addr, l)))), Block(addr, l).Footprint())
  }

  // ----- runs -----

  datatype Event =
    | AllocEvent(layout: Layout, answer: Option<nat>)  // `answer`: what the backend returns if asked
    | DeallocEvent(addr: nat, layout: Layout)
    | StoreEvent(word: nat, value: nat)                // the client writes a word of a block it holds

  /** `w` lies in a region taken from the backend. */
  predicate InRegion(chunks: seq<Extent>, large: seq<Block>, w: nat) {
    Count(chunks, w) + Count(Footprints(large), w) >= 1
  }

  /** What the backend promises about a region: page-aligned, not null, and nowhere in use. */
  ghost predicate Fresh(h: Heap, region: Extent) {
    && region.addr > 0 && region.addr % PAGE_SIZE == 0
    && region.addr + region.size <= ADDRESS_LIMIT
    && forall w: nat :: region.Covers(w) ==> !InRegion(h.chunks, h.large, w)
  }

  /** `w` lies in a block the client holds. */
  predicate Held(h: Heap, w: nat) {
    Count(Footprints(h.live), w) + Count(Footprints(h.large), w) >= 1
  }

  ghost predicate Legal(h: Heap, e: Event) {
    match e
    case AllocEvent(l, answer) =>
      ValidLayout(l) && (answer.Some? ==> Fresh(h, Extent(answer.value, RegionSize(l))))
    case DeallocEvent(addr, l) =>
      addr != 0 ==> Block(addr, l) in (if IsLarge(l) then h.large else h.live)
    case StoreEvent(word, value) => word % 8 == 0 && Held(h, word)
  }

  ghost function Step(h: Heap, e: Event): Heap
    requires Legal(h, e)
  {
    match e
    case AllocEvent(l, answer) => Alloc(h, l, answer).0
    case DeallocEvent(addr, l) => Dealloc(h, addr, l)
    case StoreEvent(word, value) => h.(mem := h.mem[word := value])
  }

  ghost predicate LegalRun(h: Heap, run: seq<Event>)
    decreases |run|
  {
    run == [] || (Legal(h, run[0]) && LegalRun(Step(h, run[0]), run[1..]))
  }

  ghost function Run(h: Heap, run: seq<Event>): Heap
    requires LegalRun(h, run)
    decreases |run|
  {
    if run == [] then h else Run(Step(h, run[0]), run[1..])
  }
}
