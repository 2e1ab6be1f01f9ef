/** The allocator's code: it walks and rewrites the free list in memory. */
module Allocator {
  import opened Prelude
  import opened Bits
  import opened Extents
  import opened HeapState
  import opened HeapInvariant

  /** Where a link to the next free node is stored: the list head, or the first word of a node. */
  datatype Cursor = Head | NextOf(node: nat)

  class Allocator {
    var mem: map<nat, nat>
    var free: nat
    var chunk: Option<Chunk>

    ghost var nodes: seq<Extent>
    ghost var live: seq<Block>
    ghost var large: seq<Block>
    ghost var chunks: seq<Extent>
    ghost var waste: seq<Scrap>

    ghost function State(): Heap
      reads this
    {
      Heap(mem, free, chunk, nodes, live, large, chunks, waste)
    }

    constructor ()
      ensures State() == EMPTY
    {
      mem, free, chunk := map[], 0, None;
      nodes, live, large, chunks, waste := [], [], [], [], [];
    }

    method TakeFromFreeList(size: nat, align: nat) returns (r: Option<nat>)
      requires Linked(mem, free, nodes) && 0 !in mem && align > 0
      modifies this
      ensures var fit := FirstFit(old(nodes), size, align, 0);
        if fit.Some?
        then r == Some(old(nodes)[fit.value].addr) && State() == TakeNode(old(State()), fit.value, size)
        else r.None? && State() == old(State())
    {
      hide FirstFit;
      var cursor := Head;
      ghost var i := 0;
      while true
        invariant State() == old(State()) && i <= |nodes|
        invariant cursor == if i == 0 then Head else NextOf(nodes[i - 1].addr)
        invariant FirstFit(nodes, size, align, 0) == FirstFit(nodes, size, align, i)
        decreases |nodes| - i
      {
        LinkRead(State(), i);
        FirstFitStep(nodes, size, align, i);
        var node: nat := if cursor.Head? then free else mem[cursor.node];
        if node == 0 {
          return None;
        }
        var nodeSize, nodeNext := mem[node + 8], mem[node];
        if nodeSize >= size && node % align == 0 {
          if cursor.Head? {
            free := nodeNext;
          } else {
            mem := mem[cursor.node := nodeNext];
          }
          nodes := Without(nodes, i);
          assert State() == Unlink(old(State()), i);
          Split(node, nodeSize, size);
          return Some(node);
        }
        cursor := NextOf(node);
        i := i + 1;
      }
    }

    /** A taken node's tail returns to the list if it can hold a node; otherwise it is lost. */
    method Split(node: nat, nodeSize: nat, size: nat)
      requires size <= nodeSize
      modifies this
      ensures State() == Cut(old(State()), Extent(node, nodeSize), size)
    {
      var leftover: nat := nodeSize - size;
      if leftover >= MIN_REUSE {
        var tail: nat := node + size;
        mem := mem[tail := free];
        mem := mem[tail + 8 := leftover];
        free := tail;
        nodes := [Extent(tail, leftover)] + nodes;
      } else if leftover > 0 {
        waste := waste + [Scrap(Extent(node + size, leftover), Leftover)];
      }
    }

    method BumpAlloc(size: nat, align: nat) returns (r: Option<nat>)
      requires ChunkShaped(chunk) && IsPow2(align) && 1 <= align <= ADDRESS_LIMIT
      modifies this
      ensures r == BumpAddr(old(chunk), size, align)
      ensures r.Some? ==> old(chunk.value.base) <= r.value + size && State() == TakeBump(old(State()), r.value, size)
      ensures r.None? ==> State() == old(State())
    {
      if chunk.None? {
        return None;
      }
      BumpAddrMeaning(chunk.value, size, align);
      var base := chunk.value.base;
      var cur := base + chunk.value.offset;
      var aligned := AlignUp(cur, align);
      if aligned + size >= U64 || aligned + size < base {
        return None;
      }
      var newOffset := aligned + size - base;
      if newOffset > chunk.value.size {
        return None;
      }
      chunk := Some(chunk.value.(offset := newOffset));
      if aligned > cur {
        waste := waste + [Scrap(Extent(cur, aligned - cur), Padding)];
      }
      return Some(aligned);
    }

    method AllocImpl(layout: Layout, answer: Option<nat>) returns (p: nat)
      requires Linked(mem, free, nodes) && 0 !in mem && ChunkShaped(chunk)
      requires Legal(State(), AllocEvent(layout, answer))
      modifies this
      ensures layout.align <= U64 && (State(), p) == HeapState.Alloc(old(State()), layout, answer)
    {
      hide FirstFit, AlignUp, BumpAddr, TakeNode, TakeBump, Linked, IsPow2;
      NormalAlignMeaning(layout);
      var size, align := NormalSize(layout), NormalAlign(layout);
      if size >= LARGE_THRESHOLD {
        match answer
        case None => return 0;
        case Some(base) =>
          mem := mem + Zeroed(Extent(base, size));
          large := large + [Block(base, layout)];
          return base;
      }

      var taken := TakeFromFreeList(size, align);
      if taken.Some? {
        live := live + [Block(taken.value, layout)];
        return taken.value;
      }

      var bumped := BumpAlloc(size, align);
      if bumped.Some? {
        live := live + [Block(bumped.value, layout)];
        return bumped.value;
      }

      var chunkSize := Max(CHUNK_SIZE, size + align);
      match answer
      case None => return 0;
      case Some(base) =>
        FreshChunkServes(base, layout);
        var abandoned := Remainder(chunk);
        if abandoned.size > 0 {
          waste := waste + [Scrap(abandoned, AbandonedTail)];
        }
        chunk := Some(Chunk(base, chunkSize, 0));
        chunks := chunks + [Extent(base, chunkSize)];
        mem := mem + Zeroed(Extent(base, chunkSize));
        assert State() == AddChunk(old(State()), base, chunkSize);

        var retried := BumpAlloc(size, align);
        live := live + [Block(retried.value, layout)];
        return retried.value;
    }

    method DeallocImpl(addr: nat, layout: Layout)
      requires Legal(State(), DeallocEvent(addr, layout))
      modifies this
      ensures State() == HeapState.Dealloc(old(State()), addr, layout)
    {
      if addr == 0 {
        return;
      }
      var size := NormalSize(layout);
      if size >= LARGE_THRESHOLD {
        mem := mem - Words(Extent(addr, size));
        large := Without(large, IndexOf(large, Block(addr, layout)));
        return;
      }
      mem := mem[addr := free][addr + 8 := size];
      free := addr;
      live := Without(live, IndexOf(live, Block(addr, layout)));
      nodes := [Extent(addr, size)] + nodes;
    }

    /** `GlobalAlloc::alloc`. */
    method Alloc(layout: Layout, answer: Option<nat>) returns (p: nat)
      requires Inv(State()) && Legal(State(), AllocEvent(layout, answer))
      modifies this
      ensures Inv(State())
      ensures layout.align <= U64 && (State(), p) == HeapState.Alloc(old(State()), layout, answer)
    {
      ghost var before := State();
      NullUnmapped(before);
      p := AllocImpl(layout, answer);
      AllocHolds(before, layout, answer);
    }

    /** `GlobalAlloc::dealloc`. */
    method Dealloc(addr: nat, layout: Layout)
      requires Inv(State()) && Legal(State(), DeallocEvent(addr, layout))
      modifies this
      ensures Inv(State()) && State() == HeapState.Dealloc(old(State()), addr, layout)
    {
      ghost var before := State();
      DeallocImpl(addr, layout);
      DeallocHolds(before, addr, layout);
    }
  }

  /** The words that the walk reads at node `i` and at the cursor before it. */
  lemma LinkRead(h: Heap, i: nat)
    requires Linked(h.mem, h.free, h.nodes) && i <= |h.nodes|
    ensures i == 0 ==> h.free == AddrAt(h.nodes, 0)
    ensures i > 0 ==> h.nodes[i - 1].addr in h.mem && h.mem[h.nodes[i - 1].addr] == AddrAt(h.nodes, i)
    ensures i < |h.nodes| ==> NodeAt(h.mem, h.nodes[i], AddrAt(h.nodes, i + 1))
  {
    if i > 0 {
      assert LinkAt(h.mem, h.nodes, i - 1);
    }
    if i < |h.nodes| {
      assert LinkAt(h.mem, h.nodes, i);
    }
  }

  lemma FirstFitStep(nodes: seq<Extent>, size: nat, align: nat, i: nat)
    requires align > 0 && i <= |nodes|
    ensures FirstFit(nodes, size, align, i)
         == if i == |nodes| then None
             else if Fits(nodes[i], size, align) then Some(i) else FirstFit(nodes, size, align, i + 1)
  {}

  lemma NullUnmapped(h: Heap)
    requires Inv(h)
    ensures 0 !in h.mem
  {
    if 0 in h.mem.Keys {
      RegionPositive(h, 0);
    }
  }
}
