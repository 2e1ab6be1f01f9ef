/** The allocator invariant, and that every legal step keeps it. */
module HeapInvariant {
  import opened Prelude
  import opened Bits
  import opened Extents
  import opened HeapState

  // ----- alignment -----

  lemma MultipleGap(a: nat, q: int, m: int)
    requires a > 0 && q < m
    ensures a * q + a <= a * m
  {
    MulAtLeast(a, m - q);
    assert a * (m - q) == a * m - a * q;
  }

  lemma RoundDown(x: nat, a: nat)
    requires a > 0
    ensures 0 <= x % a < a && (x - x % a) % a == 0
  {
    DivModUnique(x - x % a, a, x / a, 0);
  }

  /** A multiple less than `x` rounded down is more than `a - 1` below `x`. */
  lemma RoundDownGreatest(x: nat, a: nat, m: nat)
    requires a > 0 && m % a == 0 && x < m + a
    ensures x - x % a <= m
  {
    assert m == a * (m / a) && x - x % a == a * (x / a);
    if m / a < x / a {
      MultipleGap(a, m / a, x / a);
    } else if m / a > x / a {
      MultipleGap(a, x / a, m / a);
    }
  }

  /** On a power of two, `align_up` is the least multiple that is not below the address. */
  lemma {:induction false} AlignUpMeaning(addr: nat, align: nat)
    requires IsPow2(align) && 1 <= align <= ADDRESS_LIMIT && addr + align <= U64
    ensures var r := AlignUp(addr, align);
      && r % align == 0 && addr <= r < addr + align
      && forall m: nat :: m >= addr && m % align == 0 ==> r <= m
  {
    var x := addr + align - 1;
    AlignMask(x, align);
    ModEdges(x, U64);
    RoundDown(x, align);
    forall m: nat | m >= addr && m % align == 0
      ensures AlignUp(addr, align) <= m
    {
      RoundDownGreatest(x, align, m);
    }
  }

  /** `x & !(align - 1)` is `x` rounded down. */
  lemma AlignMask(x: nat, align: nat)
    requires IsPow2(align) && align <= U64 && x < U64
    ensures And(x, U64 - align) == x - x % align
  {
    var k: nat :| Pow2(k) == align;
    Pow2Constants();
    if k > 64 {
      Pow2Monotone(64, k);
    }
    AndHighMask(x, k, 64);
  }

  lemma {:induction false} Pow2Divides(j: nat, k: nat, x: nat)
    requires j <= k && x % Pow2(k) == 0
    ensures x % Pow2(j) == 0
  {
    hide Pow2;
    Pow2Add(j, k - j);
    var q := x / Pow2(k);
    Assoc(Pow2(j), Pow2(k - j), q);
    assert x == Pow2(k) * q;
    DivModUnique(x, Pow2(j), Pow2(k - j) * q, 0);
  }

  /** A normalized alignment is a power of two, and its multiples are multiples of 8 and of the requested one. */
  lemma {:induction false} NormalAlignMeaning(l: Layout)
    requires ValidLayout(l)
    ensures 8 <= NormalAlign(l) <= ADDRESS_LIMIT && IsPow2(NormalAlign(l))
    ensures forall x: nat :: x % NormalAlign(l) == 0 ==> x % 8 == 0 && x % l.align == 0
  {
    Pow2Constants();
    var k: nat :| Pow2(k) == l.align;
    if k < 3 {
      Pow2Monotone(k, 3);
    } else {
      Pow2Monotone(3, k);
    }
    var n := if k < 3 then 3 else k;
    assert Pow2(n) == NormalAlign(l);
    forall x: nat | x % NormalAlign(l) == 0
      ensures x % 8 == 0 && x % l.align == 0
    {
      Pow2Divides(3, n, x);
      Pow2Divides(k, n, x);
    }
  }

  /** A normalized size is the least multiple of 8 that holds the request and a free node. */
  lemma {:induction false} NormalSizeMeaning(l: Layout)
    requires ValidLayout(l)
    ensures NormalSize(l) % 8 == 0 && NormalSize(l) >= 16
    ensures l.size <= NormalSize(l)
    ensures forall m: nat :: m % 8 == 0 && m >= 16 && m >= l.size ==> NormalSize(l) <= m
  {
    Pow2Constants();
    assert l.align >= 1;
    AlignUpMeaning(Max(l.size, MIN_REUSE), MIN_ALIGN);
  }

  // ----- the invariant -----

  /** Free nodes are aligned and large enough to hold their own header. */
  ghost predicate NodesShaped(nodes: seq<Extent>) {
    forall i :: 0 <= i < |nodes| ==> NodeShaped(nodes[i])
  }

  predicate NodeShaped(e: Extent) {
    e.addr % 8 == 0 && e.size % 8 == 0 && e.size >= 16
  }

  ghost predicate LiveShaped(live: seq<Block>) {
    forall i :: 0 <= i < |live| ==> SmallShaped(live[i])
  }

  ghost predicate SmallShaped(b: Block) {
    ValidLayout(b.layout) && !IsLarge(b.layout) && b.addr > 0 && b.addr % NormalAlign(b.layout) == 0
  }

  ghost predicate LargeShaped(large: seq<Block>) {
    forall i :: 0 <= i < |large| ==> RegionShaped(large[i])
  }

  ghost predicate RegionShaped(b: Block) {
    && ValidLayout(b.layout) && IsLarge(b.layout) && b.addr > 0 && b.addr % PAGE_SIZE == 0
    && b.addr + NormalSize(b.layout) <= ADDRESS_LIMIT
  }

  ghost predicate ChunksShaped(chunks: seq<Extent>) {
    forall i :: 0 <= i < |chunks| ==> chunks[i].addr > 0 && chunks[i].addr + chunks[i].size <= ADDRESS_LIMIT
  }

  ghost predicate WasteShaped(waste: seq<Scrap>) {
    forall i :: 0 <= i < |waste| ==> ScrapShaped(waste[i])
  }

  predicate ScrapShaped(s: Scrap) {
    s.extent.size > 0 && s.extent.size % 8 == 0 && (s.cause == Leftover ==> s.extent.size == 8)
  }

  predicate ChunkShaped(chunk: Option<Chunk>) {
    chunk.Some? ==> SoundChunk(chunk.value)
  }

  predicate SoundChunk(c: Chunk) {
    && c.base > 0 && c.base % PAGE_SIZE == 0 && c.size % 8 == 0 && c.offset % 8 == 0
    && c.offset <= c.size && c.base + c.size <= ADDRESS_LIMIT
  }

  ghost predicate Shaped(h: Heap) {
    && NodesShaped(h.nodes) && LiveShaped(h.live) && LargeShaped(h.large)
    && ChunksShaped(h.chunks) && WasteShaped(h.waste) && ChunkShaped(h.chunk)
  }

  /** How many of the pieces of chunks cover `w`. */
  function Load(nodes: seq<Extent>, live: seq<Block>, waste: seq<Scrap>, chunk: Option<Chunk>, w: nat): nat {
    Count(nodes, w) + Count(Footprints(live), w) + Count(Scraps(waste), w) + One(Remainder(chunk), w)
  }

  const NOTHING: Extent := Extent(0, 0)

  /**
   Every address of a chunk is in exactly one piece, and no piece reaches outside the chunks,
   where `gap` is a range in transit between two pieces (empty between operations).
   */
  ghost predicate Exact(nodes: seq<Extent>, live: seq<Block>, waste: seq<Scrap>, chunk: Option<Chunk>,
                        chunks: seq<Extent>, gap: Extent) {
    forall w: nat :: Load(nodes, live, waste, chunk, w) + One(gap, w) == Count(chunks, w)
  }

  /** No address belongs to two backend regions. */
  ghost predicate Apart(chunks: seq<Extent>, large: seq<Block>) {
    forall w: nat :: Count(chunks, w) + Count(Footprints(large), w) <= 1
  }

  function Bytes(h: Heap): nat {
    Total(h.nodes) + Total(Footprints(h.live)) + Total(Scraps(h.waste)) + Remainder(h.chunk).size
  }

  /** The free list in memory is exactly the ledger's list. */
  ghost predicate Linked(mem: map<nat, nat>, free: nat, nodes: seq<Extent>) {
    && free == AddrAt(nodes, 0)
    && forall i {:trigger LinkAt(mem, nodes, i)} :: 0 <= i < |nodes| ==> LinkAt(mem, nodes, i)
  }

  predicate LinkAt(mem: map<nat, nat>, nodes: seq<Extent>, i: nat)
    requires i < |nodes|
  {
    NodeAt(mem, nodes[i], AddrAt(nodes, i + 1))
  }

  predicate NodeAt(mem: map<nat, nat>, e: Extent, next: nat) {
    && e.addr in mem && mem[e.addr] == next
    && e.addr + 8 in mem && mem[e.addr + 8] == e.size
  }

  /** Memory is mapped exactly where a backend region lies. */
  ghost predicate Mapped(words: set<nat>, chunks: seq<Extent>, large: seq<Block>) {
    forall w: nat :: w in words <==> w % 8 == 0 && InRegion(chunks, large, w)
  }


  /** The invariant while `gap` is in transit. */
  ghost predicate Holding(h: Heap, gap: Extent) {
    && Shaped(h) && Exact(h.nodes, h.live, h.waste, h.chunk, h.chunks, gap) && Bytes(h) + gap.size == Total(h.chunks)
    && Linked(h.mem, h.free, h.nodes)
    && Apart(h.chunks, h.large) && Mapped(h.mem.Keys, h.chunks, h.large)
  }

  ghost predicate Inv(h: Heap) {
    Holding(h, NOTHING)
  }

  lemma EmptyInv(h: Heap)
    requires Untouched(h)
    ensures Inv(h)
  {
    assert Footprints(h.live) == [] && Footprints(h.large) == [] && Scraps(h.waste) == [];
  }

  // ----- consequences used by the steps -----

  lemma FootprintsPush(bs: seq<Block>, b: Block)
    ensures Footprints(bs + [b]) == Footprints(bs) + [b.Footprint()]
  {}

  lemma FootprintsWithout(bs: seq<Block>, i: nat)
    requires i < |bs|
    ensures Footprints(Without(bs, i)) == Without(Footprints(bs), i)
  {}

  lemma ScrapsPush(ws: seq<Scrap>, s: Scrap)
    ensures Scraps(ws + [s]) == Scraps(ws) + [s.extent]
  {}

  /** An address is in at most one piece, and pieces lie in chunks, apart from large blocks. */
  lemma LoadAtMostOne(h: Heap, gap: Extent, w: nat)
    requires Holding(h, gap)
    ensures Load(h.nodes, h.live, h.waste, h.chunk, w) + One(gap, w) <= 1
    ensures Load(h.nodes, h.live, h.waste, h.chunk, w) + One(gap, w) == 1 ==>
              InRegion(h.chunks, h.large, w) && Count(Footprints(h.large), w) == 0
  {
    assert Load(h.nodes, h.live, h.waste, h.chunk, w) + One(gap, w) == Count(h.chunks, w);
    assert Count(h.chunks, w) + Count(Footprints(h.large), w) <= 1;
  }

  /** A range in transit is mapped, and no part of the free list. */
  lemma GapWord(h: Heap, gap: Extent, w: nat)
    requires Holding(h, gap) && gap.Covers(w) && w % 8 == 0
    ensures Count(h.nodes, w) == 0 && w in h.mem && w > 0
  {
    LoadAtMostOne(h, gap, w);
    assert w in h.mem.Keys;
    RegionPositive(h, w);
  }

  /** A word of a block the client holds is mapped, and no part of the free list. */
  lemma HeldWord(h: Heap, gap: Extent, w: nat)
    requires Holding(h, gap) && Held(h, w) && w % 8 == 0
    ensures Count(h.nodes, w) == 0 && w in h.mem && w > 0
  {
    LoadAtMostOne(h, gap, w);
    assert Load(h.nodes, h.live, h.waste, h.chunk, w) + One(gap, w) == Count(h.chunks, w);
    assert Count(h.chunks, w) + Count(Footprints(h.large), w) <= 1;
    assert w in h.mem.Keys;
    RegionPositive(h, w);
  }

  /** Null is in no region. */
  lemma RegionPositive(h: Heap, w: nat)
    requires ChunksShaped(h.chunks) && LargeShaped(h.large) && InRegion(h.chunks, h.large, w)
    ensures w > 0
  {
    if Count(h.chunks, w) >= 1 {
      var i := CountWitness(h.chunks, w);
    } else {
      var i := CountWitness(Footprints(h.large), w);
      assert RegionShaped(h.large[i]);
    }
  }

  lemma NodeNotNull(h: Heap, i: nat)
    requires Inv(h) && i < |h.nodes|
    ensures h.nodes[i].addr > 0
  {
    assert LinkAt(h.mem, h.nodes, i);
    assert h.nodes[i].addr in h.mem.Keys;
    RegionPositive(h, h.nodes[i].addr);
  }

  /** Free nodes do not overlap. */
  lemma NodesApart(h: Heap, gap: Extent, i: nat, j: nat)
    requires Holding(h, gap)
    requires i < |h.nodes| && j < |h.nodes| && i != j
    ensures Disjoint(h.nodes[i], h.nodes[j])
  {
    forall w: nat
      ensures Count(h.nodes, w) <= 1
    {
      LoadAtMostOne(h, gap, w);
    }
    CountedOnceDisjoint(h.nodes, if i < j then i else j, if i < j then j else i);
  }

  /** The list is untouched by writes to words that are in no free node. */
  lemma LinkedElsewhere(mem: map<nat, nat>, mem': map<nat, nat>, free: nat, nodes: seq<Extent>)
    requires NodesShaped(nodes) && Linked(mem, free, nodes)
    requires forall w: nat :: w in mem && Count(nodes, w) >= 1 ==> w in mem' && mem'[w] == mem[w]
    ensures Linked(mem', free, nodes)
  {
    forall i | 0 <= i < |nodes|
      ensures LinkAt(mem', nodes, i)
    {
      assert LinkAt(mem, nodes, i) && NodeShaped(nodes[i]);
      CountAtLeast(nodes, i, nodes[i].addr);
      CountAtLeast(nodes, i, nodes[i].addr + 8);
    }
  }

  // ----- the primitives move a range from one piece to another -----

  predicate Splits(whole: Extent, a: Extent, b: Extent) {
    && whole.size == a.size + b.size
    && ((a.addr == whole.addr && b.addr == whole.addr + a.size)
        || (b.addr == whole.addr && a.addr == whole.addr + b.size))
  }

  /** Taking node `i` off the list sets its range free for other use. */
  lemma UnlinkHolds(h: Heap, i: nat)
    requires Inv(h) && i < |h.nodes|
    ensures Holding(Unlink(h, i), h.nodes[i])
  {
    UnlinkExact(h, i);
    UnlinkLinks(h, i);
    WithoutAt(h.nodes, i);
    assert NodesShaped(Without(h.nodes, i));
    if i > 0 {
      assert LinkAt(h.mem, h.nodes, i - 1);
      assert h.mem.Keys == h.mem[h.nodes[i - 1].addr := AddrAt(h.nodes, i + 1)].Keys;
    }
  }

  lemma UnlinkExact(h: Heap, i: nat)
    requires Exact(h.nodes, h.live, h.waste, h.chunk, h.chunks, NOTHING) && i < |h.nodes|
    ensures Exact(Without(h.nodes, i), h.live, h.waste, h.chunk, h.chunks, h.nodes[i])
    ensures Total(h.nodes) == Total(Without(h.nodes, i)) + h.nodes[i].size
  {
    forall w: nat
      ensures Load(Without(h.nodes, i), h.live, h.waste, h.chunk, w) + One(h.nodes[i], w) == Count(h.chunks, w)
    {
      assert Load(h.nodes, h.live, h.waste, h.chunk, w) + One(NOTHING, w) == Count(h.chunks, w);
      CountWithout(h.nodes, i, w);
    }
    TotalWithout(h.nodes, i);
  }

  lemma UnlinkLinks(h: Heap, i: nat)
    requires Inv(h) && i < |h.nodes|
    ensures Linked(Unlink(h, i).mem, Unlink(h, i).free, Unlink(h, i).nodes)
  {
    hide Exact, Mapped, Apart, Bytes, LiveShaped, LargeShaped, ChunksShaped, WasteShaped, ChunkShaped;
    var u := Unlink(h, i);
    WithoutAt(h.nodes, i);
    forall j | 0 <= j < |u.nodes|
      ensures LinkAt(u.mem, u.nodes, j)
    {
      var k := if j < i then j else j + 1;
      assert LinkAt(h.mem, h.nodes, k);
      if i > 0 && k != i - 1 {
        NodesApart(h, NOTHING, i - 1, k);
      }
      assert NodeShaped(h.nodes[k]) && (i > 0 ==> NodeShaped(h.nodes[i - 1]));
      UnlinkLink(h, i, j, k);
    }
  }

  lemma UnlinkLink(h: Heap, i: nat, j: nat, k: nat)
    requires i < |h.nodes| && j < |h.nodes| - 1 && k == if j < i then j else j + 1
    requires NodeAt(h.mem, h.nodes[k], AddrAt(h.nodes, k + 1))
    requires i > 0 && k != i - 1 ==> Disjoint(h.nodes[i - 1], h.nodes[k])
    requires NodeShaped(h.nodes[k]) && (i > 0 ==> NodeShaped(h.nodes[i - 1]))
    ensures var u := Unlink(h, i); |u.nodes| == |h.nodes| - 1 && NodeAt(u.mem, u.nodes[j], AddrAt(u.nodes, j + 1))
  {
    WithoutAt(h.nodes, i);
    if i > 0 {
      RelinkedNode(h.mem, h.nodes[i - 1], AddrAt(h.nodes, i + 1), h.nodes[k], AddrAt(h.nodes, k + 1));
    }
  }

  /** Rewriting the link of node `p` leaves every other node as it was. */
  lemma RelinkedNode(mem: map<nat, nat>, p: Extent, next: nat, e: Extent, oldNext: nat)
    requires NodeAt(mem, e, oldNext) && NodeShaped(p) && NodeShaped(e)
    requires e == p || Disjoint(p, e)
    ensures NodeAt(mem[p.addr := next], e, if e == p then next else oldNext)
  {}

  /** The back part of the gap becomes the new head of the free list. */
  lemma PushHolds(h: Heap, gap: Extent, front: Extent, tail: Extent)
    requires Holding(h, gap) && Splits(gap, front, tail) && NodeShaped(tail)
    ensures Holding(Push(h, tail), front)
  {
    PushExact(h, gap, front, tail);
    PushLinks(h, gap, tail);
    NodesShapedPush(h.nodes, tail);
  }

  /** Rewriting two mapped words maps nothing new. */
  lemma KeysKept(mem: map<nat, nat>, a: nat, x: nat, b: nat, y: nat)
    requires a in mem && b in mem
    ensures mem[a := x][b := y].Keys == mem.Keys
  {}

  lemma NodesShapedPush(nodes: seq<Extent>, e: Extent)
    requires NodesShaped(nodes) && NodeShaped(e)
    ensures NodesShaped([e] + nodes)
  {}

  lemma PushExact(h: Heap, gap: Extent, front: Extent, tail: Extent)
    requires Exact(h.nodes, h.live, h.waste, h.chunk, h.chunks, gap) && Splits(gap, front, tail)
    ensures Exact([tail] + h.nodes, h.live, h.waste, h.chunk, h.chunks, front)
    ensures Total([tail] + h.nodes) == tail.size + Total(h.nodes)
  {
    forall w: nat
      ensures Load([tail] + h.nodes, h.live, h.waste, h.chunk, w) + One(front, w) == Count(h.chunks, w)
    {
      assert Load(h.nodes, h.live, h.waste, h.chunk, w) + One(gap, w) == Count(h.chunks, w);
      CountPush(h.nodes, tail, w);
    }
    TotalPush(h.nodes, tail);
  }

  lemma PushLinks(h: Heap, gap: Extent, tail: Extent)
    requires Holding(h, gap) && NodeShaped(tail)
    requires gap.addr <= tail.addr && tail.addr + tail.size <= gap.addr + gap.size
    ensures Linked(Push(h, tail).mem, tail.addr, [tail] + h.nodes)
    ensures Push(h, tail).mem.Keys == h.mem.Keys
  {
    hide Exact, Mapped, Apart, Bytes, LiveShaped, LargeShaped, ChunksShaped, WasteShaped, ChunkShaped;
    var mem, nodes := Push(h, tail).mem, [tail] + h.nodes;
    GapWord(h, gap, tail.addr);
    GapWord(h, gap, tail.addr + 8);
    KeysKept(h.mem, tail.addr, h.free, tail.addr + 8, tail.size);
    LinkedElsewhere(h.mem, mem, h.free, h.nodes);
    forall j | 0 <= j < |nodes|
      ensures LinkAt(mem, nodes, j)
    {
      if j > 0 {
        assert LinkAt(mem, h.nodes, j - 1);
      }
    }
  }

  /** One part of the gap is given up. */
  lemma DiscardHolds(h: Heap, gap: Extent, kept: Extent, lost: Extent, cause: Cause)
    requires Holding(h, gap) && Splits(gap, kept, lost)
    requires lost.size % 8 == 0 && (cause == Leftover ==> lost.size <= 8)
    ensures Holding(Discard(h, lost, cause), kept)
  {
    DiscardExact(h, gap, kept, lost, cause);
  }

  lemma DiscardExact(h: Heap, gap: Extent, kept: Extent, lost: Extent, cause: Cause)
    requires Exact(h.nodes, h.live, h.waste, h.chunk, h.chunks, gap) && Splits(gap, kept, lost)
    ensures Exact(h.nodes, h.live, Discard(h, lost, cause).waste, h.chunk, h.chunks, kept)
    ensures Total(Scraps(Discard(h, lost, cause).waste)) == Total(Scraps(h.waste)) + lost.size
  {
    var waste := Discard(h, lost, cause).waste;
    ScrapsPush(h.waste, Scrap(lost, cause));
    forall w: nat
      ensures Load(h.nodes, h.live, waste, h.chunk, w) + One(kept, w) == Count(h.chunks, w)
    {
      assert Load(h.nodes, h.live, h.waste, h.chunk, w) + One(gap, w) == Count(h.chunks, w);
      CountPush(Scraps(h.waste), lost, w);
    }
    TotalPush(Scraps(h.waste), lost);
  }

  /** The whole gap becomes a block of the client. */
  lemma GrantHolds(h: Heap, addr: nat, l: Layout)
    requires Holding(h, Block(addr, l).Footprint())
    requires ValidLayout(l) && !IsLarge(l) && addr % NormalAlign(l) == 0 && addr % 8 == 0
    ensures Inv(Grant(h, addr, l))
  {
    NormalSizeMeaning(l);
    GapWord(h, Block(addr, l).Footprint(), addr);
    GrantExact(h, Block(addr, l));
    LiveShapedPush(h.live, Block(addr, l));
  }

  lemma LiveShapedPush(live: seq<Block>, b: Block)
    requires LiveShaped(live) && SmallShaped(b)
    ensures LiveShaped(live + [b])
  {}

  lemma GrantExact(h: Heap, b: Block)
    requires Exact(h.nodes, h.live, h.waste, h.chunk, h.chunks, b.Footprint())
    ensures Exact(h.nodes, h.live + [b], h.waste, h.chunk, h.chunks, NOTHING)
    ensures Total(Footprints(h.live + [b])) == Total(Footprints(h.live)) + b.Footprint().size
  {
    FootprintsPush(h.live, b);
    forall w: nat
      ensures Load(h.nodes, h.live + [b], h.waste, h.chunk, w) + One(NOTHING, w) == Count(h.chunks, w)
    {
      assert Load(h.nodes, h.live, h.waste, h.chunk, w) + One(b.Footprint(), w) == Count(h.chunks, w);
      CountPush(Footprints(h.live), b.Footprint(), w);
    }
    TotalPush(Footprints(h.live), b.Footprint());
  }

  /** A block leaves the client's hands. */
  lemma ReleaseHolds(h: Heap, i: nat)
    requires Inv(h) && i < |h.live|
    ensures Holding(h.(live := Without(h.live, i)), h.live[i].Footprint())
  {
    ReleaseExact(h, i);
    WithoutAt(h.live, i);
    assert LiveShaped(Without(h.live, i));
  }

  lemma ReleaseExact(h: Heap, i: nat)
    requires Exact(h.nodes, h.live, h.waste, h.chunk, h.chunks, NOTHING) && i < |h.live|
    ensures Exact(h.nodes, Without(h.live, i), h.waste, h.chunk, h.chunks, h.live[i].Footprint())
    ensures Total(Footprints(h.live)) == Total(Footprints(Without(h.live, i))) + h.live[i].Footprint().size
  {
    var live, e := Without(h.live, i), h.live[i].Footprint();
    FootprintsWithout(h.live, i);
    forall w: nat
      ensures Load(h.nodes, live, h.waste, h.chunk, w) + One(e, w) == Count(h.chunks, w)
    {
      assert Load(h.nodes, h.live, h.waste, h.chunk, w) + One(NOTHING, w) == Count(h.chunks, w);
      CountWithout(Footprints(h.live), i, w);
    }
    TotalWithout(Footprints(h.live), i);
  }

  /** The chunk's offset moves up: what it passes is set free. */
  lemma AdvanceHolds(h: Heap, offset: nat)
    requires Inv(h) && h.chunk.Some? && h.chunk.value.offset <= offset <= h.chunk.value.size && offset % 8 == 0
    ensures var c := h.chunk.value;
      Holding(h.(chunk := Some(c.(offset := offset))), Extent(c.base + c.offset, offset - c.offset))
  {
    var c := h.chunk.value;
    var chunk, e := Some(c.(offset := offset)), Extent(c.base + c.offset, offset - c.offset);
    forall w: nat
      ensures Load(h.nodes, h.live, h.waste, chunk, w) + One(e, w) == Count(h.chunks, w)
    {
      assert Load(h.nodes, h.live, h.waste, h.chunk, w) + One(NOTHING, w) == Count(h.chunks, w);
    }
  }

  // ----- the primitives change the regions -----

  /** Mapping a fresh region leaves the old words, and so the list, alone. */
  lemma MapLinks(h: Heap, gap: Extent, region: Extent)
    requires Holding(h, gap) && Fresh(h, region)
    ensures Linked(h.mem + Zeroed(region), h.free, h.nodes)
    ensures forall w: nat :: w in h.mem ==> w !in Zeroed(region)
  {
    forall w: nat | w in h.mem
      ensures w !in Zeroed(region)
    {
      assert w in h.mem.Keys;
    }
    LinkedElsewhere(h.mem, h.mem + Zeroed(region), h.free, h.nodes);
  }

  /** A fresh region is apart from the others and maps its own words. */
  lemma MapRegions(h: Heap, region: Extent, chunks: seq<Extent>, large: seq<Block>)
    requires Apart(h.chunks, h.large) && Mapped(h.mem.Keys, h.chunks, h.large) && Fresh(h, region)
    requires forall w: nat :: Count(chunks, w) + Count(Footprints(large), w)
                              == Count(h.chunks, w) + Count(Footprints(h.large), w) + One(region, w)
    ensures Apart(chunks, large) && Mapped((h.mem + Zeroed(region)).Keys, chunks, large)
  {
    var words := (h.mem + Zeroed(region)).Keys;
    forall w: nat
      ensures Count(chunks, w) + Count(Footprints(large), w) <= 1
      ensures w in words <==> w % 8 == 0 && InRegion(chunks, large, w)
    {
      assert Count(h.chunks, w) + Count(Footprints(h.large), w) <= 1;
      assert w in h.mem.Keys <==> w % 8 == 0 && InRegion(h.chunks, h.large, w);
      assert w in Zeroed(region) <==> region.Covers(w) && w % 8 == 0;
    }
  }

  lemma MapChunkExact(h: Heap, base: nat, size: nat)
    requires Exact(h.nodes, h.live, h.waste, h.chunk, h.chunks, NOTHING)
    ensures var chunks := h.chunks + [Extent(base, size)];
      && Exact(h.nodes, h.live, h.waste, Some(Chunk(base, size, 0)), chunks, Remainder(h.chunk))
      && Total(chunks) == Total(h.chunks) + size
      && forall w: nat :: Count(chunks, w) == Count(h.chunks, w) + One(Extent(base, size), w)
  {
    var chunk, chunks := Some(Chunk(base, size, 0)), h.chunks + [Extent(base, size)];
    forall w: nat
      ensures Count(chunks, w) == Count(h.chunks, w) + One(Extent(base, size), w)
      ensures Load(h.nodes, h.live, h.waste, chunk, w) + One(Remainder(h.chunk), w) == Count(chunks, w)
    {
      CountPush(h.chunks, Extent(base, size), w);
      assert Load(h.nodes, h.live, h.waste, h.chunk, w) + One(NOTHING, w) == Count(h.chunks, w);
    }
    TotalPush(h.chunks, Extent(base, size));
  }

  /** A fresh chunk replaces the current one, whose unused tail is set free. */
  lemma MapChunkHolds(h: Heap, base: nat, size: nat)
    requires Inv(h) && Fresh(h, Extent(base, size)) && size % 8 == 0
    ensures Holding(h.(chunk := Some(Chunk(base, size, 0)), chunks := h.chunks + [Extent(base, size)],
                       mem := h.mem + Zeroed(Extent(base, size))), Remainder(h.chunk))
  {
    MapChunkExact(h, base, size);
    MapLinks(h, NOTHING, Extent(base, size));
    MapRegions(h, Extent(base, size), h.chunks + [Extent(base, size)], h.large);
  }

  lemma AddChunkHolds(h: Heap, base: nat, size: nat)
    requires Inv(h) && Fresh(h, Extent(base, size)) && size % 8 == 0
    ensures Inv(AddChunk(h, base, size))
  {
    hide Exact, Mapped, Apart, Linked, Bytes, NodesShaped, LiveShaped, LargeShaped, ChunksShaped, WasteShaped;
    var rest := Remainder(h.chunk);
    var m := h.(chunk := Some(Chunk(base, size, 0)), chunks := h.chunks + [Extent(base, size)],
                mem := h.mem + Zeroed(Extent(base, size)));
    MapChunkHolds(h, base, size);
    DiscardHolds(m, rest, Extent(rest.addr, 0), rest, AbandonedTail);
    EmptyGap(Discard(m, rest, AbandonedTail), rest.addr);
    assert Discard(m, rest, AbandonedTail) == AddChunk(h, base, size);
  }

  /** Where an empty gap lies does not matter. */
  lemma EmptyGap(h: Heap, addr: nat)
    requires Holding(h, Extent(addr, 0))
    ensures Inv(h)
  {
    forall w: nat
      ensures Load(h.nodes, h.live, h.waste, h.chunk, w) + One(NOTHING, w) == Count(h.chunks, w)
    {
      assert Load(h.nodes, h.live, h.waste, h.chunk, w) + One(Extent(addr, 0), w) == Count(h.chunks, w);
    }
  }

  lemma MapLargeHolds(h: Heap, gap: Extent, base: nat, l: Layout)
    requires Holding(h, gap) && ValidLayout(l) && IsLarge(l) && Fresh(h, Extent(base, NormalSize(l)))
    ensures Holding(h.(large := h.large + [Block(base, l)], mem := h.mem + Zeroed(Extent(base, NormalSize(l)))), gap)
  {
    var b := Block(base, l);
    FootprintsPush(h.large, b);
    forall w: nat
      ensures Count(Footprints(h.large + [b]), w) == Count(Footprints(h.large), w) + One(b.Footprint(), w)
    {
      CountPush(Footprints(h.large), b.Footprint(), w);
    }
    MapLinks(h, gap, b.Footprint());
    MapRegions(h, b.Footprint(), h.chunks, h.large + [b]);
    LargeShapedPush(h.large, b);
  }

  lemma LargeShapedPush(large: seq<Block>, b: Block)
    requires LargeShaped(large) && RegionShaped(b)
    ensures LargeShaped(large + [b])
  {}

  lemma UnmapLargeHolds(h: Heap, gap: Extent, i: nat)
    requires Holding(h, gap) && i < |h.large|
    ensures Holding(h.(large := Without(h.large, i), mem := h.mem - Words(h.large[i].Footprint())), gap)
  {
    var e, large := h.large[i].Footprint(), Without(h.large, i);
    var mem := h.mem - Words(e);
    UnmapRegions(h, i);
    forall w: nat | w in h.mem && Count(h.nodes, w) >= 1
      ensures w in mem && mem[w] == h.mem[w]
    {
      LoadAtMostOne(h, gap, w);
      if e.Covers(w) {
        CountAtLeast(Footprints(h.large), i, w);
      }
    }
    LinkedElsewhere(h.mem, mem, h.free, h.nodes);
    WithoutAt(h.large, i);
    assert LargeShaped(large);
  }

  lemma UnmapRegions(h: Heap, i: nat)
    requires Apart(h.chunks, h.large) && Mapped(h.mem.Keys, h.chunks, h.large) && i < |h.large|
    ensures Apart(h.chunks, Without(h.large, i))
    ensures Mapped((h.mem - Words(h.large[i].Footprint())).Keys, h.chunks, Without(h.large, i))
  {
    var e, large := h.large[i].Footprint(), Without(h.large, i);
    FootprintsWithout(h.large, i);
    assert e == Footprints(h.large)[i];
    forall w: nat
      ensures Count(h.chunks, w) + Count(Footprints(large), w) <= 1
      ensures w in (h.mem - Words(e)).Keys <==> w % 8 == 0 && InRegion(h.chunks, large, w)
    {
      CountWithout(Footprints(h.large), i, w);
      assert Count(h.chunks, w) + Count(Footprints(h.large), w) <= 1;
      assert w in h.mem.Keys <==> w % 8 == 0 && InRegion(h.chunks, h.large, w);
      assert w in Words(e) <==> e.Covers(w) && w % 8 == 0;
    }
  }

  lemma StoreHolds(h: Heap, gap: Extent, word: nat, value: nat)
    requires Holding(h, gap) && word % 8 == 0 && Held(h, word)
    ensures Holding(h.(mem := h.mem[word := value]), gap)
  {
    HeldWord(h, gap, word);
    LinkedElsewhere(h.mem, h.mem[word := value], h.free, h.nodes);
    assert h.mem.Keys == h.mem[word := value].Keys;
  }

  // ----- the operations keep the invariant -----

  /** The gap is cut: its front part stays free for a block, a tail worth reusing joins the list. */
  lemma CutHolds(h: Heap, gap: Extent, size: nat)
    requires Holding(h, gap) && gap.addr % 8 == 0 && gap.size % 8 == 0 && size % 8 == 0 && size <= gap.size
    ensures Holding(Cut(h, gap, size), Extent(gap.addr, size))
  {
    var block, tail := Extent(gap.addr, size), Extent(gap.addr + size, gap.size - size);
    if tail.size >= MIN_REUSE {
      PushHolds(h, gap, block, tail);
      assert Cut(h, gap, size) == Push(h, tail);
    } else {
      assert tail.size <= 8;
      DiscardHolds(h, gap, block, tail, Leftover);
      assert Cut(h, gap, size) == Discard(h, tail, Leftover);
    }
  }

  lemma TakeNodeHolds(h: Heap, i: nat, size: nat)
    requires Inv(h) && i < |h.nodes| && size % 8 == 0 && size <= h.nodes[i].size
    ensures Holding(TakeNode(h, i, size), Extent(h.nodes[i].addr, size))
  {
    assert NodeShaped(h.nodes[i]);
    UnlinkHolds(h, i);
    CutHolds(Unlink(h, i), h.nodes[i], size);
  }

  /** What `bump_alloc` finds is aligned, inside the chunk, and not below the offset. */
  lemma {:induction false} BumpAddrMeaning(c: Chunk, size: nat, align: nat)
    requires SoundChunk(c) && IsPow2(align) && 1 <= align <= ADDRESS_LIMIT
    ensures var r := BumpAddr(Some(c), size, align);
      r.Some? ==>
        && r.value % align == 0
        && c.base + c.offset <= r.value < c.base + c.offset + align
        && r.value + size <= c.base + c.size
  {
    AlignUpMeaning(c.base + c.offset, align);
  }

  /** A chunk with `size + align` unused bytes has room: the retry after a fresh chunk cannot fail. */
  lemma {:induction false} RoomyChunkServes(c: Chunk, size: nat, align: nat)
    requires SoundChunk(c) && IsPow2(align) && 1 <= align <= ADDRESS_LIMIT
    requires c.offset + size + align <= c.size
    ensures BumpAddr(Some(c), size, align).Some?
  {
    AlignUpMeaning(c.base + c.offset, align);
  }

  lemma BumpMultiples(c: Chunk, p: nat, size: nat)
    requires SoundChunk(c) && p % 8 == 0 && size % 8 == 0
    requires c.base + c.offset <= p && p + size <= c.base + c.size
    ensures (p + size - c.base) % 8 == 0 && (p - (c.base + c.offset)) % 8 == 0
  {
    PageMultiple(c.base);
    Multiples(p, size);
    Multiples(p + size, c.base);
    Multiples(c.base, c.offset);
    Multiples(p, c.base + c.offset);
  }

  lemma PageMultiple(base: nat)
    requires base % PAGE_SIZE == 0
    ensures base % 8 == 0
  {
    assert base == 8 * (512 * (base / PAGE_SIZE));
  }

  lemma Multiples(a: int, b: int)
    requires a % 8 == 0 && b % 8 == 0
    ensures (a + b) % 8 == 0 && (a - b) % 8 == 0
  {}

  lemma ChunkHolds(h: Heap)
    requires Inv(h) && h.chunk.Some?
    ensures SoundChunk(h.chunk.value)
  {}

  /** The chunk is advanced past an aligned range, which is set free for a block. */
  lemma TakeBumpHolds(h: Heap, p: nat, size: nat)
    requires Inv(h) && h.chunk.Some? && p % 8 == 0 && size % 8 == 0
    requires var c := h.chunk.value; c.base + c.offset <= p && p + size <= c.base + c.size
    ensures Holding(TakeBump(h, p, size), Extent(p, size))
  {
    hide Holding, SoundChunk, TakeBump, Discard, Exact, Mapped, Apart, Linked, Bytes, NodesShaped, LiveShaped,
      LargeShaped, ChunksShaped, WasteShaped;
    var c := h.chunk.value;
    var cur, end := c.base + c.offset, p + size - c.base;
    ChunkHolds(h);
    BumpMultiples(c, p, size);
    var a := h.(chunk := Some(c.(offset := end)));
    AdvanceHolds(h, end);
    DiscardHolds(a, Extent(cur, end - c.offset), Extent(p, size), Extent(cur, p - cur), Padding);
    TakeBumpIs(h, p, size);
  }

  lemma TakeBumpIs(h: Heap, p: nat, size: nat)
    requires h.chunk.Some? && h.chunk.value.base + h.chunk.value.offset <= p
    ensures var c := h.chunk.value;
      var cur := c.base + c.offset;
      TakeBump(h, p, size) == Discard(h.(chunk := Some(c.(offset := p + size - c.base))), Extent(cur, p - cur), Padding)
  {}

  lemma BumpAllocHolds(h: Heap, l: Layout)
    requires Inv(h) && ValidLayout(l) && !IsLarge(l)
    requires l.align <= U64 && BumpAddr(h.chunk, NormalSize(l), NormalAlign(l)).Some?
    ensures var p := BumpAddr(h.chunk, NormalSize(l), NormalAlign(l)).value;
      p + NormalSize(l) >= h.chunk.value.base && Inv(Grant(TakeBump(h, p, NormalSize(l)), p, l))
  {
    var p := BumpAddr(h.chunk, NormalSize(l), NormalAlign(l)).value;
    NormalAlignMeaning(l);
    NormalSizeMeaning(l);
    BumpAddrMeaning(h.chunk.value, NormalSize(l), NormalAlign(l));
    TakeBumpHolds(h, p, NormalSize(l));
    GrantHolds(TakeBump(h, p, NormalSize(l)), p, l);
  }

  lemma FreshChunkSound(base: nat, size: nat, align: nat)
    requires base > 0 && base % PAGE_SIZE == 0 && base + Max(CHUNK_SIZE, size + align) <= ADDRESS_LIMIT
    requires size % 8 == 0 && align % 8 == 0
    ensures SoundChunk(Chunk(base, Max(CHUNK_SIZE, size + align), 0))
  {}

  /** The chunk asked for has room for the request. */
  lemma {:induction false} FreshChunkServes(base: nat, l: Layout)
    requires ValidLayout(l) && !IsLarge(l)
    requires base > 0 && base % PAGE_SIZE == 0 && base + RegionSize(l) <= ADDRESS_LIMIT
    ensures l.align <= U64 && SoundChunk(Chunk(base, RegionSize(l), 0))
    ensures BumpAddr(Some(Chunk(base, RegionSize(l), 0)), NormalSize(l), NormalAlign(l)).Some?
  {
    NormalAlignMeaning(l);
    NormalSizeMeaning(l);
    var size, align := NormalSize(l), NormalAlign(l);
    DivModUnique(align, align, 1, 0);
    FreshChunkSound(base, size, align);
    RoomyChunkServes(Chunk(base, RegionSize(l), 0), size, align);
  }

  lemma AllocHolds(h: Heap, l: Layout, answer: Option<nat>)
    requires Inv(h) && Legal(h, AllocEvent(l, answer))
    ensures l.align <= U64 && Inv(Alloc(h, l, answer).0)
  {
    NormalAlignMeaning(l);
    var size, align := NormalSize(l), NormalAlign(l);
    if IsLarge(l) {
      if answer.Some? {
        MapLargeHolds(h, NOTHING, answer.value, l);
      }
    } else if FirstFit(h.nodes, size, align, 0).Some? {
      var i := FirstFit(h.nodes, size, align, 0).value;
      NormalSizeMeaning(l);
      TakeNodeHolds(h, i, size);
      GrantHolds(TakeNode(h, i, size), h.nodes[i].addr, l);
    } else if BumpAddr(h.chunk, size, align).Some? {
      BumpAllocHolds(h, l);
    } else if answer.Some? {
      FreshChunkServes(answer.value, l);
      AddChunkHolds(h, answer.value, RegionSize(l));
      BumpAllocHolds(AddChunk(h, answer.value, RegionSize(l)), l);
    }
  }

  lemma DeallocHolds(h: Heap, addr: nat, l: Layout)
    requires Inv(h) && Legal(h, DeallocEvent(addr, l))
    ensures Inv(Dealloc(h, addr, l))
  {
    if addr != 0 {
      var b := Block(addr, l);
      if IsLarge(l) {
        UnmapLargeHolds(h, NOTHING, IndexOf(h.large, b));
      } else {
        var i := IndexOf(h.live, b);
        assert SmallShaped(h.live[i]);
        NormalAlignMeaning(l);
        NormalSizeMeaning(l);
        ReleaseHolds(h, i);
        PushHolds(h.(live := Without(h.live, i)), b.Footprint(), Extent(addr, 0), b.Footprint());
        EmptyGap(Dealloc(h, addr, l), addr);
      }
    }
  }

  lemma StepHolds(h: Heap, e: Event)
    requires Inv(h) && Legal(h, e)
    ensures Inv(Step(h, e))
  {
    match e
    case AllocEvent(l, answer) => AllocHolds(h, l, answer);
    case DeallocEvent(addr, l) => DeallocHolds(h, addr, l);
    case StoreEvent(word, value) => StoreHolds(h, NOTHING, word, value);
  }

  /** The invariant holds after every legal run, from the allocator's initial state on. */
  lemma {:induction false} RunHolds(h: Heap, run: seq<Event>)
    requires Inv(h) && LegalRun(h, run)
    ensures Inv(Run(h, run))
    decreases |run|
  {
    if run != [] {
      StepHolds(h, run[0]);
      RunHolds(Step(h, run[0]), run[1..]);
    }
  }
}
