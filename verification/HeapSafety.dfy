/** What the invariant means for a client: separation, frames, conservation, alignment, progress. */
module HeapSafety {
  import opened Prelude
  import opened Bits
  import opened Extents
  import opened HeapState
  import opened HeapInvariant

  // ----- separation -----

  /** Every range the allocator or its client has a claim on. */
  function Pieces(h: Heap): seq<Extent> {
    h.nodes + (Footprints(h.live) + (Footprints(h.large) + (Scraps(h.waste) + [Remainder(h.chunk)])))
  }

  lemma CountPieces(h: Heap, w: nat)
    ensures Count(Pieces(h), w) == Load(h.nodes, h.live, h.waste, h.chunk, w) + Count(Footprints(h.large), w)
  {
    CountPush(Scraps(h.waste), Remainder(h.chunk), w);
    CountConcat(Footprints(h.large), Scraps(h.waste) + [Remainder(h.chunk)], w);
    CountConcat(Footprints(h.live), Footprints(h.large) + (Scraps(h.waste) + [Remainder(h.chunk)]), w);
    CountConcat(h.nodes, Footprints(h.live) + (Footprints(h.large) + (Scraps(h.waste) + [Remainder(h.chunk)])), w);
  }

  /** Free nodes, blocks, scraps and the unused tail of the chunk never overlap and stay inside backend regions. */
  lemma {:induction false} PiecesSeparate(h: Heap)
    requires Inv(h)
    ensures forall i, j :: 0 <= i < j < |Pieces(h)| ==> Disjoint(Pieces(h)[i], Pieces(h)[j])
    ensures forall i, w: nat :: 0 <= i < |Pieces(h)| && Pieces(h)[i].Covers(w) ==>
          InRegion(h.chunks, h.large, w) && w > 0
  {
    forall w: nat
      ensures Count(Pieces(h), w) <= 1
    {
      PieceCovered(h, w);
    }
    forall i, j | 0 <= i < j < |Pieces(h)|
      ensures Disjoint(Pieces(h)[i], Pieces(h)[j])
    {
      CountedOnceDisjoint(Pieces(h), i, j);
    }
    forall i, w: nat | 0 <= i < |Pieces(h)| && Pieces(h)[i].Covers(w)
      ensures InRegion(h.chunks, h.large, w) && w > 0
    {
      CountAtLeast(Pieces(h), i, w);
      PieceCovered(h, w);
      RegionPositive(h, w);
    }
  }

  lemma PieceCovered(h: Heap, w: nat)
    requires Inv(h)
    ensures Count(Pieces(h), w) <= 1
    ensures Count(Pieces(h), w) == 1 ==> InRegion(h.chunks, h.large, w)
  {
    CountPieces(h, w);
    assert Load(h.nodes, h.live, h.waste, h.chunk, w) + One(NOTHING, w) == Count(h.chunks, w);
    assert Count(h.chunks, w) + Count(Footprints(h.large), w) <= 1;
  }

  /** The addresses and sizes found by following the links in memory from `head`, `n` times. */
  function ReadList(mem: map<nat, nat>, head: nat, n: nat): seq<Extent>
    decreases n
  {
    if n == 0 || head !in mem || head + 8 !in mem then []
    else [Extent(head, mem[head + 8])] + ReadList(mem, mem[head], n - 1)
  }

  lemma {:induction false} ReadFrom(mem: map<nat, nat>, free: nat, nodes: seq<Extent>, i: nat, n: nat)
    requires Linked(mem, free, nodes) && i <= |nodes| <= i + n && 0 !in mem
    ensures ReadList(mem, AddrAt(nodes, i), n) == nodes[i..]
    decreases n
  {
    if i < |nodes| {
      assert LinkAt(mem, nodes, i);
      ReadFrom(mem, free, nodes, i + 1, n - 1);
    }
  }

  /**
   The list in memory ends: however far its links are followed, they yield the same finitely many
   nodes, no two of them at the same address, each aligned and large enough for its header.
   */
  lemma {:induction false} FreeListEnds(h: Heap, n: nat)
    requires Inv(h) && n >= |h.nodes|
    ensures ReadList(h.mem, h.free, n) == h.nodes
    ensures forall i, j :: 0 <= i < j < |h.nodes| ==> h.nodes[i].addr != h.nodes[j].addr
    ensures forall i :: 0 <= i < |h.nodes| ==>
          h.nodes[i].addr % 8 == 0 && h.nodes[i].size % 8 == 0 && h.nodes[i].size >= 16
  {
    if 0 in h.mem.Keys {
      RegionPositive(h, 0);
    }
    ReadFrom(h.mem, h.free, h.nodes, 0, n);
    forall i | 0 <= i < |h.nodes|
      ensures h.nodes[i].addr % 8 == 0 && h.nodes[i].size % 8 == 0 && h.nodes[i].size >= 16
    {
      assert NodeShaped(h.nodes[i]);
    }
    forall i, j | 0 <= i < j < |h.nodes|
      ensures h.nodes[i].addr != h.nodes[j].addr
    {
      NodesApart(h, NOTHING, i, j);
    }
  }

  /** Every byte of a chunk is live, free, unused or waste, and the amounts add up. */
  lemma {:induction false} BytesConserved(h: Heap, run: seq<Event>)
    requires Inv(h) && LegalRun(h, run)
    ensures var r := Run(h, run);
      Total(r.chunks) == Total(Footprints(r.live)) + Total(r.nodes) + Remainder(r.chunk).size + Total(Scraps(r.waste))
  {
    RunHolds(h, run);
  }

  // ----- frames -----

  ghost predicate Touches(h: Heap, e: Event, w: nat) {
    match e
    case AllocEvent(_, _) => false
    case DeallocEvent(addr, l) => addr != 0 && Block(addr, l).Footprint().Covers(w)
    case StoreEvent(word, _) => w == word
  }

  /**
   The words a step rewrites: the header of a node, links and tails all lie in free memory or in the block
   being freed.
   */
  lemma {:induction false} StepFrame(h: Heap, e: Event, w: nat)
    requires Inv(h) && Legal(h, e)
    requires w in h.mem && Count(h.nodes, w) == 0 && !Touches(h, e, w)
    ensures w in Step(h, e).mem && Step(h, e).mem[w] == h.mem[w]
  {
    match e
    case AllocEvent(l, answer) => AllocFrame(h, l, answer, w);
    case DeallocEvent(addr, l) =>
      if addr != 0 {
        NormalAlignMeaning(l);
        if !IsLarge(l) {
          assert SmallShaped(h.live[IndexOf(h.live, Block(addr, l))]);
          NormalSizeMeaning(l);
        }
      }
    case StoreEvent(word, value) =>
  }

  lemma NodeWord(h: Heap, i: nat, w: nat)
    requires i < |h.nodes| && Count(h.nodes, w) == 0
    ensures !h.nodes[i].Covers(w)
  {
    if h.nodes[i].Covers(w) {
      CountAtLeast(h.nodes, i, w);
    }
  }

  lemma TakeNodeFrame(h: Heap, i: nat, size: nat, w: nat)
    requires NodesShaped(h.nodes) && i < |h.nodes| && size <= h.nodes[i].size
    requires w in h.mem && Count(h.nodes, w) == 0
    ensures w in TakeNode(h, i, size).mem && TakeNode(h, i, size).mem[w] == h.mem[w]
  {
    NodeWord(h, i, w);
    assert NodeShaped(h.nodes[i]);
    if i > 0 {
      NodeWord(h, i - 1, w);
      assert NodeShaped(h.nodes[i - 1]);
    }
  }

  lemma AllocFrame(h: Heap, l: Layout, answer: Option<nat>, w: nat)
    requires Inv(h) && Legal(h, AllocEvent(l, answer))
    requires w in h.mem && Count(h.nodes, w) == 0
    ensures l.align <= U64 && w in Alloc(h, l, answer).0.mem && Alloc(h, l, answer).0.mem[w] == h.mem[w]
  {
    hide NormalSize, NormalAlign, FirstFit, BumpAddr, TakeNode, Exact, Mapped, Apart, Bytes, Linked;
    NormalAlignMeaning(l);
    var fit := FirstFit(h.nodes, NormalSize(l), NormalAlign(l), 0);
    if answer.Some? {
      MapLinks(h, NOTHING, Extent(answer.value, RegionSize(l)));
    }
    if !IsLarge(l) && fit.Some? {
      TakeNodeFrame(h, fit.value, NormalSize(l), w);
    }
  }

  predicate Holds(h: Heap, b: Block) {
    b in h.live || b in h.large
  }

  /** No event of the run gives the block back. */
  predicate Keeps(run: seq<Event>, b: Block) {
    forall i :: 0 <= i < |run| && run[i].DeallocEvent? ==> run[i].addr != b.addr
  }

  /** What a word holds after the client's own stores. */
  function LastStore(run: seq<Event>, w: nat, value: nat): nat {
    if run == [] then value
    else LastStore(run[1..], w, if run[0].StoreEvent? && run[0].word == w then run[0].value else value)
  }

  lemma HeldCount(h: Heap, b: Block, w: nat)
    requires Holds(h, b) && b.Footprint().Covers(w)
    ensures Held(h, w)
  {
    if b in h.live {
      CountAtLeast(Footprints(h.live), IndexOf(h.live, b), w);
    } else {
      CountAtLeast(Footprints(h.large), IndexOf(h.large, b), w);
    }
  }

  lemma WithoutKeeps(bs: seq<Block>, i: nat, b: Block)
    requires i < |bs| && b in bs && bs[i] != b
    ensures b in Without(bs, i)
  {
    var j :| 0 <= j < |bs| && bs[j] == b;
    assert Without(bs, i)[if j < i then j else j - 1] == b;
  }

  lemma StepKeepsBlock(h: Heap, e: Event, b: Block)
    requires Legal(h, e) && Holds(h, b) && Keeps([e], b)
    ensures Holds(Step(h, e), b)
  {
    if e.DeallocEvent? && e.addr != 0 {
      assert [e][0] == e;
      var freed := Block(e.addr, e.layout);
      if IsLarge(e.layout) {
        if b in h.large {
          WithoutKeeps(h.large, IndexOf(h.large, freed), b);
        }
      } else if b in h.live {
        WithoutKeeps(h.live, IndexOf(h.live, freed), b);
      }
    }
  }

  /** Two different blocks held at once share no address. */
  lemma BlocksApart(h: Heap, b: Block, c: Block, w: nat)
    requires Inv(h) && Holds(h, b) && Holds(h, c) && b != c
    ensures !(b.Footprint().Covers(w) && c.Footprint().Covers(w))
  {
    hide Pieces;
    var i := PieceIndex(h, b);
    var j := PieceIndex(h, c);
    PiecesSeparate(h);
    assert Disjoint(Pieces(h)[if i < j then i else j], Pieces(h)[if i < j then j else i]);
  }

  lemma PieceIndex(h: Heap, b: Block) returns (i: nat)
    requires Holds(h, b)
    ensures i < |Pieces(h)| && Pieces(h)[i] == b.Footprint()
    ensures b in h.live ==> |h.nodes| <= i < |h.nodes| + |h.live| && h.live[i - |h.nodes|] == b
    ensures b !in h.live ==>
          |h.nodes| + |h.live| <= i < |h.nodes| + |h.live| + |h.large| && h.large[i - |h.nodes| - |h.live|] == b
  {
    if b in h.live {
      i := |h.nodes| + IndexOf(h.live, b);
    } else {
      i := |h.nodes| + |h.live| + IndexOf(h.large, b);
    }
  }

  /**
   A client's memory is its own: after any legal run that does not free the block, every word of
   the block is still mapped and holds what the client last stored there.
   */
  lemma {:induction false} BlockKeepsContents(h: Heap, run: seq<Event>, b: Block, w: nat)
    requires Inv(h) && LegalRun(h, run) && Holds(h, b) && Keeps(run, b)
    requires b.Footprint().Covers(w) && w % 8 == 0
    ensures Holds(Run(h, run), b)
    ensures w in h.mem && w in Run(h, run).mem && Run(h, run).mem[w] == LastStore(run, w, h.mem[w])
    decreases |run|
  {
    hide Holding, Holds, Step, Legal, Held;
    HeldCount(h, b, w);
    HeldWord(h, NOTHING, w);
    if run != [] {
      assert Keeps([run[0]], b) by {
        assert run[0].DeallocEvent? ==> run[0].addr != b.addr;
      }
      StepKeepsContents(h, run[0], b, w);
      StepHolds(h, run[0]);
      BlockKeepsContents(Step(h, run[0]), run[1..], b, w);
    }
  }

  lemma StepKeepsContents(h: Heap, e: Event, b: Block, w: nat)
    requires Inv(h) && Legal(h, e) && Holds(h, b) && Keeps([e], b)
    requires b.Footprint().Covers(w) && w % 8 == 0 && w in h.mem && Count(h.nodes, w) == 0
    ensures Holds(Step(h, e), b) && w in Step(h, e).mem
    ensures Step(h, e).mem[w] == if e.StoreEvent? && e.word == w then e.value else h.mem[w]
  {
    assert [e][0] == e;
    StepKeepsBlock(h, e, b);
    if e.DeallocEvent? && e.addr != 0 {
      BlocksApart(h, b, Block(e.addr, e.layout), w);
    }
    if !(e.StoreEvent? && e.word == w) {
      StepFrame(h, e, w);
    }
  }

  // ----- what an allocation returns -----

  /** How an allocation changes what the client holds. */
  lemma AllocHeld(h: Heap, l: Layout, answer: Option<nat>)
    requires l.align <= U64
    ensures var (h', p) := Alloc(h, l, answer);
      p != 0 ==>
        if IsLarge(l) then h'.large == h.large + [Block(p, l)] && h'.live == h.live
        else h'.live == h.live + [Block(p, l)] && h'.large == h.large
  {}

  /** A block added to those held overlaps none of them. */
  lemma NewBlockApart(h: Heap, h': Heap, added: Block, b: Block, w: nat)
    requires Inv(h') && Holds(h, b) && b.Footprint().Covers(w)
    requires (h'.large == h.large + [added] && h'.live == h.live)
          || (h'.live == h.live + [added] && h'.large == h.large)
    ensures !added.Footprint().Covers(w)
  {
    PieceCovered(h', w);
    CountPieces(h', w);
    HeldCount(h, b, w);
    FootprintsPush(h.large, added);
    CountPush(Footprints(h.large), added.Footprint(), w);
    FootprintsPush(h.live, added);
    CountPush(Footprints(h.live), added.Footprint(), w);
  }

  /**
   A successful allocation returns a non-null block with room for the request, aligned as asked
   (for a large request, up to the page size), apart from every block already held; nothing held is lost.
   */
  lemma {:induction false} AllocGivesBlock(h: Heap, l: Layout, answer: Option<nat>)
    requires Inv(h) && Legal(h, AllocEvent(l, answer)) && l.align <= U64
    requires Alloc(h, l, answer).1 != 0
    ensures var (h', p) := Alloc(h, l, answer);
      && (if IsLarge(l) then h'.large == h.large + [Block(p, l)] && h'.live == h.live
          else h'.live == h.live + [Block(p, l)] && h'.large == h.large)
      && l.size <= NormalSize(l)
      && (!IsLarge(l) || l.align <= PAGE_SIZE ==> p % l.align == 0)
      && forall b, w: nat :: Holds(h, b) && b.Footprint().Covers(w) ==> !Block(p, l).Footprint().Covers(w)
  {
    NormalSizeMeaning(l);
    AllocHolds(h, l, answer);
    AllocHeld(h, l, answer);
    var (h', p) := Alloc(h, l, answer);
    if IsLarge(l) {
      LargeBlockAligned(h', |h.large|);
    } else {
      SmallBlockAligned(h', |h.live|);
    }
    forall b, w: nat | Holds(h, b) && b.Footprint().Covers(w)
      ensures !Block(p, l).Footprint().Covers(w)
    {
      NewBlockApart(h, h', Block(p, l), b, w);
    }
  }

  lemma SmallBlockAligned(h: Heap, i: nat)
    requires LiveShaped(h.live) && i < |h.live|
    ensures h.live[i].addr % h.live[i].layout.align == 0
  {
    assert SmallShaped(h.live[i]);
    NormalAlignMeaning(h.live[i].layout);
  }

  lemma LargeBlockAligned(h: Heap, i: nat)
    requires LargeShaped(h.large) && i < |h.large|
    ensures h.large[i].layout.align <= PAGE_SIZE ==> h.large[i].addr % h.large[i].layout.align == 0
  {
    assert RegionShaped(h.large[i]);
    if h.large[i].layout.align <= PAGE_SIZE {
      PageAligned(h.large[i].addr, h.large[i].layout.align);
    }
  }

  lemma PageAligned(p: nat, align: nat)
    requires IsPow2(align) && align <= PAGE_SIZE && p % PAGE_SIZE == 0
    ensures p % align == 0
  {
    var k: nat :| Pow2(k) == align;
    Pow2Constants();
    Pow2Add(8, 4);
    if k > 12 {
      Pow2Monotone(12, k);
    } else {
      Pow2Divides(k, 12, p);
    }
  }

  /** In state `h`, a large request answered with the region at `base` returns a misaligned address. */
  ghost predicate Misaligned(h: Heap, base: nat, l: Layout) {
    && Inv(h) && Legal(h, AllocEvent(l, Some(base))) && 0 < l.align <= U64
    && Alloc(h, l, Some(base)).1 % l.align != 0
  }

  /**
   The large path ignores the alignment: the address it returns meets it in every state and whatever
   region the backend offers exactly when the alignment is at most a page.
   */
  lemma {:induction false} LargeAlignment(l: Layout)
    requires ValidLayout(l) && IsLarge(l)
    ensures l.align <= PAGE_SIZE <==> !exists h: Heap, base: nat :: Misaligned(h, base, l)
  {
    if l.align <= PAGE_SIZE {
      forall h: Heap, base: nat
        ensures !Misaligned(h, base, l)
      {
        if base % PAGE_SIZE == 0 {
          PageAligned(base, l.align);
        }
      }
    } else {
      FirstPageMisaligned(l);
    }
  }

  lemma FirstPageMisaligned(l: Layout)
    requires ValidLayout(l) && IsLarge(l) && l.align > PAGE_SIZE
    ensures Misaligned(EMPTY, PAGE_SIZE, l)
  {
    hide Alloc, Inv, Fresh, NormalSize, Untouched;
    ModEdges(PAGE_SIZE, l.align);
    SizeBelow(l);
    EmptyFresh(NormalSize(l));
    EmptyHeap();
    EmptyInv(EMPTY);
    LargeAlloc(EMPTY, l, PAGE_SIZE);
  }

  lemma EmptyHeap()
    ensures Untouched(EMPTY)
  {}

  /** A large request is answered with the region itself. */
  lemma LargeAlloc(h: Heap, l: Layout, base: nat)
    requires IsLarge(l) && l.align <= U64
    ensures Alloc(h, l, Some(base)).1 == base && RegionSize(l) == NormalSize(l)
  {}

  lemma EmptyFresh(size: nat)
    requires PAGE_SIZE + size <= ADDRESS_LIMIT
    ensures Fresh(EMPTY, Extent(PAGE_SIZE, size))
  {
    forall w: nat
      ensures !InRegion(EMPTY.chunks, EMPTY.large, w)
    {
      assert Footprints(EMPTY.large) == [];
    }
  }

  lemma SizeBelow(l: Layout)
    requires ValidLayout(l) && l.align > PAGE_SIZE
    ensures PAGE_SIZE + NormalSize(l) <= ADDRESS_LIMIT
  {
    Pow2Constants();
    AlignUpMeaning(Max(l.size, MIN_REUSE), MIN_ALIGN);
  }

  /** An allocation returns null exactly when nothing at hand serves it and the backend refuses. */
  lemma {:induction false} AllocNull(h: Heap, l: Layout, answer: Option<nat>)
    requires Inv(h) && Legal(h, AllocEvent(l, answer)) && l.align <= U64
    ensures Alloc(h, l, answer).1 == 0 <==>
      && answer.None?
      && (IsLarge(l) || ((forall i :: 0 <= i < |h.nodes| ==> !Fits(h.nodes[i], NormalSize(l), NormalAlign(l)))
                         && BumpAddr(h.chunk, NormalSize(l), NormalAlign(l)).None?))
    ensures Alloc(h, l, answer).1 == 0 ==> Alloc(h, l, answer).0 == h
  {
    NormalAlignMeaning(l);
    NormalSizeMeaning(l);
    AllocHolds(h, l, answer);
    var size, align := NormalSize(l), NormalAlign(l);
    if !IsLarge(l) {
      var fit := FirstFit(h.nodes, size, align, 0);
      if fit.Some? {
        NodeNotNull(h, fit.value);
      } else if BumpAddr(h.chunk, size, align).Some? {
        BumpAddrMeaning(h.chunk.value, size, align);
      } else if answer.Some? {
        FreshChunkServes(answer.value, l);
        BumpAddrMeaning(Chunk(answer.value, RegionSize(l), 0), size, align);
      }
    }
  }

  // ----- waste -----

  predicate Grows(before: seq<Scrap>, after: seq<Scrap>, e: Extent, cause: Cause) {
    after == if e.size == 0 then before else before + [Scrap(e, cause)]
  }

  /** Eight bytes behind a taken node, too few for a node of their own. */
  ghost predicate LeftoverOnly(before: seq<Scrap>, after: seq<Scrap>) {
    exists r: Extent :: r.size == 8 && Grows(before, after, r, Leftover)
  }

  /** Fewer bytes than the alignment, skipped in the chunk. */
  ghost predicate PaddingOnly(before: seq<Scrap>, after: seq<Scrap>, align: nat) {
    exists r: Extent :: r.size < align && Grows(before, after, r, Padding)
  }

  /** All that was unused of the old chunk, then padding in the new one. */
  ghost predicate TailAndPadding(before: seq<Scrap>, after: seq<Scrap>, tail: Extent, align: nat) {
    exists mid :: Grows(before, mid, tail, AbandonedTail) && PaddingOnly(mid, after, align)
  }

  /** Waste never shrinks, and grows only on an allocation, in one of three ways. */
  lemma {:induction false} WasteGrowth(h: Heap, e: Event)
    requires Inv(h) && Legal(h, e)
    ensures var w' := Step(h, e).waste;
      || w' == h.waste
      || (e.AllocEvent? && LeftoverOnly(h.waste, w'))
      || (e.AllocEvent? && PaddingOnly(h.waste, w', NormalAlign(e.layout)))
      || (e.AllocEvent? && TailAndPadding(h.waste, w', Remainder(h.chunk), NormalAlign(e.layout)))
  {
    if e.AllocEvent? && !IsLarge(e.layout) {
      var l := e.layout;
      NormalAlignMeaning(l);
      NormalSizeMeaning(l);
      var size, align := NormalSize(l), NormalAlign(l);
      var fit := FirstFit(h.nodes, size, align, 0);
      if fit.Some? {
        assert NodeShaped(h.nodes[fit.value]);
        WasteTake(h, fit.value, size);
      } else if BumpAddr(h.chunk, size, align).Some? {
        WasteBump(h, size, align);
      } else if e.answer.Some? {
        FreshChunkServes(e.answer.value, l);
        WasteBump(AddChunk(h, e.answer.value, RegionSize(l)), size, align);
        assert Grows(h.waste, AddChunk(h, e.answer.value, RegionSize(l)).waste, Remainder(h.chunk), AbandonedTail);
      }
    }
  }

  lemma WasteTake(h: Heap, i: nat, size: nat)
    requires i < |h.nodes| && NodeShaped(h.nodes[i]) && size % 8 == 0 && size <= h.nodes[i].size
    ensures TakeNode(h, i, size).waste == h.waste || LeftoverOnly(h.waste, TakeNode(h, i, size).waste)
  {
    var n := h.nodes[i];
    var tail := Extent(n.addr + size, n.size - size);
    if tail.size == 8 {
      assert Grows(h.waste, TakeNode(h, i, size).waste, tail, Leftover);
    }
  }

  lemma WasteBump(h: Heap, size: nat, align: nat)
    requires h.chunk.Some? && SoundChunk(h.chunk.value) && IsPow2(align) && 1 <= align <= ADDRESS_LIMIT
    requires BumpAddr(h.chunk, size, align).Some?
    ensures var p := BumpAddr(h.chunk, size, align).value;
      h.chunk.value.base <= p + size && PaddingOnly(h.waste, TakeBump(h, p, size).waste, align)
  {
    var c, p := h.chunk.value, BumpAddr(h.chunk, size, align).value;
    BumpAddrMeaning(c, size, align);
    assert Grows(h.waste, TakeBump(h, p, size).waste, Extent(c.base + c.offset, p - c.base - c.offset), Padding);
  }

  // ----- a freed block comes back -----

  /** Freeing a small block and asking again for its layout returns the same block and restores every ledger. */
  lemma {:induction false} FreeThenAlloc(h: Heap, p: nat, l: Layout, answer: Option<nat>)
    requires Inv(h) && p != 0 && ValidLayout(l) && !IsLarge(l) && Block(p, l) in h.live && l.align <= U64
    ensures var (h', q) := Alloc(Dealloc(h, p, l), l, answer);
      && q == p && h'.nodes == h.nodes && h'.free == h.free && h'.chunk == h.chunk
      && h'.waste == h.waste && h'.chunks == h.chunks && h'.large == h.large
      && h'.live == Without(h.live, IndexOf(h.live, Block(p, l))) + [Block(p, l)]
      && multiset(h'.live) == multiset(h.live)
  {
    NormalAlignMeaning(l);
    NormalSizeMeaning(l);
    var b := Block(p, l);
    var i := IndexOf(h.live, b);
    assert SmallShaped(h.live[i]);
    var d := Dealloc(h, p, l);
    assert Fits(d.nodes[0], NormalSize(l), NormalAlign(l));
    assert FirstFit(d.nodes, NormalSize(l), NormalAlign(l), 0) == Some(0);
    assert Without(d.nodes, 0) == h.nodes;
    Reordered(h.live, i);
  }

  lemma Reordered(bs: seq<Block>, i: nat)
    requires i < |bs|
    ensures multiset(Without(bs, i) + [bs[i]]) == multiset(bs)
  {
    assert bs == bs[..i] + [bs[i]] + bs[i + 1..];
  }

  // ----- what a free gives back -----

  /** Every block the client holds. */
  function HeldBlocks(h: Heap): multiset<Block> {
    multiset(h.live) + multiset(h.large)
  }

  lemma WithoutOnce(bs: seq<Block>, b: Block)
    requires b in bs
    ensures multiset(Without(bs, IndexOf(bs, b))) == multiset(bs) - multiset{b}
  {
    Reordered(bs, IndexOf(bs, b));
  }

  /** A free takes exactly the block freed out of the client's hands, large or small. */
  lemma {:induction false} DeallocReturns(h: Heap, addr: nat, l: Layout)
    requires Inv(h) && Legal(h, DeallocEvent(addr, l)) && addr != 0
    ensures HeldBlocks(Dealloc(h, addr, l)) == HeldBlocks(h) - multiset{Block(addr, l)}
    ensures Block(addr, l) !in HeldBlocks(Dealloc(h, addr, l))
  {
    var b := Block(addr, l);
    if IsLarge(l) {
      WithoutOnce(h.large, b);
    } else {
      WithoutOnce(h.live, b);
    }
    HeldOnce(h, b);
  }

  /** No block is held twice. */
  lemma {:induction false} HeldOnce(h: Heap, b: Block)
    requires Inv(h)
    ensures HeldBlocks(h)[b] <= 1
  {
    if HeldBlocks(h)[b] > 1 {
      var i, j := TwoPieces(h, b);
      PiecesSeparate(h);
      assert Disjoint(Pieces(h)[i], Pieces(h)[j]);
      BlockHasRoom(h, b);
    }
  }

  lemma {:induction false} BlockHasRoom(h: Heap, b: Block)
    requires Inv(h) && Holds(h, b)
    ensures b.Footprint().size > 0
  {
    if b in h.live {
      assert SmallShaped(h.live[IndexOf(h.live, b)]);
    } else {
      assert RegionShaped(h.large[IndexOf(h.large, b)]);
    }
    NormalSizeMeaning(b.layout);
  }

  /** Where a block that is held twice stands among the pieces. */
  lemma {:induction false} TwoPieces(h: Heap, b: Block) returns (i: nat, j: nat)
    requires HeldBlocks(h)[b] > 1
    ensures Holds(h, b)
    ensures i < j < |Pieces(h)| && Pieces(h)[i] == b.Footprint() && Pieces(h)[j] == b.Footprint()
  {
    var all := h.live + h.large;
    assert multiset(all) == HeldBlocks(h);
    i, j := TwoPlaces(all, b);
    PieceOf(h, i);
    PieceOf(h, j);
    assert all[i] == b;
    i, j := |h.nodes| + i, |h.nodes| + j;
  }

  lemma PieceOf(h: Heap, i: nat)
    requires i < |h.live| + |h.large|
    ensures |h.nodes| + i < |Pieces(h)| && Pieces(h)[|h.nodes| + i] == (h.live + h.large)[i].Footprint()
  {}

  lemma {:induction false} TwoPlaces(bs: seq<Block>, b: Block) returns (i: nat, j: nat)
    requires multiset(bs)[b] > 1
    ensures i < j < |bs| && bs[i] == b && bs[j] == b
  {
    i := IndexOf(bs, b);
    var rest := bs[i + 1..];
    FirstIndex(bs, b);
    assert bs == bs[..i] + [b] + rest;
    assert b !in multiset(bs[..i]);
    assert b in multiset(rest);
    j := i + 1 + IndexOf(rest, b);
  }

  lemma {:induction false} FirstIndex(bs: seq<Block>, b: Block)
    requires b in bs
    ensures b !in bs[..IndexOf(bs, b)]
  {
    if bs[0] != b {
      FirstIndex(bs[1..], b);
      assert bs[..IndexOf(bs, b)] == [bs[0]] + bs[1..][..IndexOf(bs[1..], b)];
    }
  }

  /**
   Freeing a large block gives its region back: none of it stays mapped, all other memory stays as it
   was, and the backend may hand the region out again.
   */
  lemma {:induction false} LargeFreeUnmaps(h: Heap, addr: nat, l: Layout)
    requires Inv(h) && Legal(h, DeallocEvent(addr, l)) && addr != 0 && IsLarge(l)
    ensures var h' := Dealloc(h, addr, l);
      && (forall w: nat :: Block(addr, l).Footprint().Covers(w) ==> w !in h'.mem)
      && (forall w: nat :: w in h.mem && !Block(addr, l).Footprint().Covers(w) ==> w in h'.mem && h'.mem[w] == h.mem[w])
      && h'.mem.Keys <= h.mem.Keys && Fresh(h', Block(addr, l).Footprint())
  {
    var b, h' := Block(addr, l), Dealloc(h, addr, l);
    var i := IndexOf(h.large, b);
    assert RegionShaped(h.large[i]);
    UnmapLargeHolds(h, NOTHING, i);
    forall w: nat | b.Footprint().Covers(w)
      ensures w !in h'.mem && !InRegion(h'.chunks, h'.large, w)
    {
      FootprintsWithout(h.large, i);
      CountWithout(Footprints(h.large), i, w);
      assert Count(h.chunks, w) + Count(Footprints(h.large), w) <= 1;
      assert w in h'.mem.Keys ==> InRegion(h'.chunks, h'.large, w);
    }
  }

  /** Freeing a small block maps and unmaps nothing, and its range becomes the first free node. */
  lemma {:induction false} SmallFreeLinks(h: Heap, addr: nat, l: Layout)
    requires Inv(h) && Legal(h, DeallocEvent(addr, l)) && addr != 0 && !IsLarge(l)
    ensures var h' := Dealloc(h, addr, l);
      && h'.mem.Keys == h.mem.Keys && h'.free == addr && h'.nodes == [Block(addr, l).Footprint()] + h.nodes
      && h'.chunk == h.chunk && h'.chunks == h.chunks && h'.waste == h.waste && h'.large == h.large
  {
    DeallocHolds(h, addr, l);
    var h' := Dealloc(h, addr, l);
    forall w: nat
      ensures w in h'.mem.Keys <==> w in h.mem.Keys
    {
      assert w in h'.mem.Keys <==> w % 8 == 0 && InRegion(h'.chunks, h'.large, w);
    }
  }

  // ----- where an allocation comes from -----

  predicate FitsAt(h: Heap, l: Layout, i: nat)
    requires NormalAlign(l) > 0
  {
    i < |h.nodes| && Fits(h.nodes[i], NormalSize(l), NormalAlign(l))
  }

  /** `p` is the least aligned address of the unused part of a chunk, and a block at `p` ends inside the chunk. */
  ghost predicate FirstRoom(c: Chunk, l: Layout, p: nat)
    requires NormalAlign(l) > 0
  {
    && p >= c.base + c.offset && p % NormalAlign(l) == 0 && p + NormalSize(l) <= c.base + c.size
    && forall m: nat :: m >= c.base + c.offset && m % NormalAlign(l) == 0 ==> p <= m
  }

  lemma {:induction false} RoomIsBump(c: Chunk, l: Layout, p: nat)
    requires SoundChunk(c) && ValidLayout(l)
    ensures 1 <= NormalAlign(l) <= U64
    ensures FirstRoom(c, l, p) <==> BumpAddr(Some(c), NormalSize(l), NormalAlign(l)) == Some(p)
  {
    hide NormalSize, AlignUp;
    NormalAlignMeaning(l);
    AlignUpMeaning(c.base + c.offset, NormalAlign(l));
  }

  /** What a small request finds: a free node, room in the current chunk, or nothing without a new chunk. */
  ghost predicate NodeFits(h: Heap, l: Layout)
    requires NormalAlign(l) > 0
  {
    exists i :: FitsAt(h, l, i)
  }

  ghost predicate ChunkHasRoom(h: Heap, l: Layout)
    requires NormalAlign(l) > 0
  {
    h.chunk.Some? && exists p :: FirstRoom(h.chunk.value, l, p)
  }

  /** `p` is the address of the first free node that fits. */
  ghost predicate FirstFitting(h: Heap, l: Layout, p: nat)
    requires NormalAlign(l) > 0
  {
    exists i: nat :: FitsAt(h, l, i) && p == h.nodes[i].addr && forall j :: 0 <= j < i ==> !FitsAt(h, l, j)
  }

  lemma {:induction false} FitIsFirst(h: Heap, l: Layout)
    requires NormalAlign(l) > 0
    ensures var fit := FirstFit(h.nodes, NormalSize(l), NormalAlign(l), 0);
      && (fit.Some? <==> NodeFits(h, l)) && (fit.Some? ==> FirstFitting(h, l, h.nodes[fit.value].addr))
  {
    hide NormalSize, NormalAlign, FirstFit;
    var fit := FirstFit(h.nodes, NormalSize(l), NormalAlign(l), 0);
    if fit.Some? {
      assert FitsAt(h, l, fit.value);
    }
  }

  lemma {:induction false} RoomInChunk(h: Heap, l: Layout)
    requires ChunkShaped(h.chunk) && ValidLayout(l)
    ensures 1 <= NormalAlign(l) <= U64
    ensures var bump := BumpAddr(h.chunk, NormalSize(l), NormalAlign(l));
      && (bump.Some? <==> ChunkHasRoom(h, l)) && (bump.Some? ==> FirstRoom(h.chunk.value, l, bump.value))
  {
    hide NormalSize, NormalAlign, AlignUp, FirstRoom;
    NormalAlignMeaning(l);
    if h.chunk.Some? {
      forall p: nat
        ensures FirstRoom(h.chunk.value, l, p) <==> BumpAddr(h.chunk, NormalSize(l), NormalAlign(l)) == Some(p)
      {
        RoomIsBump(h.chunk.value, l, p);
      }
    }
  }

  /**
   A small allocation takes the first free node that fits, if there is one; else the first room in the
   current chunk, if there is any; else the first room in the chunk the backend gives it.
   */
  lemma {:induction false} AllocPlace(h: Heap, l: Layout, answer: Option<nat>)
    requires Inv(h) && Legal(h, AllocEvent(l, answer)) && !IsLarge(l)
    ensures 1 <= NormalAlign(l) && l.align <= U64
    ensures var (h', p) := Alloc(h, l, answer);
      p != 0 ==>
        if NodeFits(h, l) then FirstFitting(h, l, p) && h'.chunk == h.chunk && h'.chunks == h.chunks
        else if ChunkHasRoom(h, l) then
          FirstRoom(h.chunk.value, l, p) && h'.nodes == h.nodes && h'.chunks == h.chunks
        else
          && answer.Some? && FirstRoom(Chunk(answer.value, RegionSize(l), 0), l, p)
          && h'.nodes == h.nodes && h'.chunks == h.chunks + [Extent(answer.value, RegionSize(l))]
  {
    hide NormalSize, NormalAlign, AlignUp, BumpAddr, FirstRoom, Linked, Exact, Mapped, Apart, Bytes, RegionSize,
      FirstFit, NodeFits, ChunkHasRoom, FirstFitting;
    NormalAlignMeaning(l);
    FitIsFirst(h, l);
    RoomInChunk(h, l);
    if !NodeFits(h, l) && !ChunkHasRoom(h, l) && answer.Some? {
      FreshChunkServes(answer.value, l);
      FreshRoom(h, l, answer.value);
    }
  }

  lemma {:induction false} FreshRoom(h: Heap, l: Layout, base: nat)
    requires ValidLayout(l) && SoundChunk(Chunk(base, RegionSize(l), 0))
    requires l.align <= U64 && BumpAddr(Some(Chunk(base, RegionSize(l), 0)), NormalSize(l), NormalAlign(l)).Some?
    ensures NormalAlign(l) > 0
    ensures FirstRoom(Chunk(base, RegionSize(l), 0), l,
                      BumpAddr(Some(Chunk(base, RegionSize(l), 0)), NormalSize(l), NormalAlign(l)).value)
  {
    hide NormalSize, NormalAlign, AlignUp, FirstRoom, BumpAddr;
    NormalAlignMeaning(l);
    var c := Chunk(base, RegionSize(l), 0);
    RoomIsBump(c, l, BumpAddr(Some(c), NormalSize(l), NormalAlign(l)).value);
  }
}
