/**
 Threads sharing one allocator through its spinlock.

 Small requests run their closure inside the lock, one small step at a time; between any two steps
 other threads may spin, take the large path, which never touches the lock, or store into blocks
 they hold. `Phase` is where a closure stands and carries the range it has in transit.
 */
module AllocatorThreads {
  import opened Prelude
  import opened Bits
  import opened Extents
  import opened HeapState
  import opened HeapInvariant
  import opened HeapSafety

  datatype Phase =
    | Entered(op: Event)                                  // nothing done yet
    | Unlinked(layout: Layout, gap: Extent)               // a node is off the list
    | Replaced(layout: Layout, gap: Extent)               // a fresh chunk is current; the old tail is in transit
    | Retrying(layout: Layout)                            // the bump retry on the fresh chunk
    | Advanced(layout: Layout, gap: Extent, p: nat)       // the chunk's offset has moved past padding and block
    | Ready(layout: Layout, addr: nat)                    // the block is cut out
    | Freed(gap: Extent)                                  // a block was given back, its node is not written yet
    | Finished(addr: nat)                                 // the block to return, 0 for null and for `dealloc`

  function Transit(ph: Phase): Extent {
    match ph
    case Unlinked(_, gap) => gap
    case Replaced(_, gap) => gap
    case Advanced(_, gap, _) => gap
    case Ready(l, addr) => Block(addr, l).Footprint()
    case Freed(gap) => gap
    case _ => NOTHING
  }

  /** Requests that go through the lock. */
  predicate Locking(op: Event) {
    (op.AllocEvent? || op.DeallocEvent?) && !IsLarge(op.layout)
  }

  /** What a closure may rely on when it takes its next step: the client's and the backend's promises. */
  ghost predicate Enabled(h: Heap, ph: Phase) {
    match ph
    case Entered(op) => Locking(op) && op.layout.align <= U64 && Legal(h, op)
    case Unlinked(l, gap) => NormalSize(l) <= gap.size
    case Retrying(l) => l.align <= U64 && h.chunk.Some? && BumpAddr(h.chunk, NormalSize(l), NormalAlign(l)).Some?
    case Advanced(l, gap, p) => gap.addr <= p
    case Finished(_) => false
    case _ => true
  }

  function BumpStep(h: Heap, l: Layout): (Heap, Phase)
    requires l.align <= U64 && BumpAddr(h.chunk, NormalSize(l), NormalAlign(l)).Some?
  {
    var c, p := h.chunk.value, BumpAddr(h.chunk, NormalSize(l), NormalAlign(l)).value;
    var end := p + NormalSize(l) - c.base;
    var gap := Extent(c.base + c.offset, if end >= c.offset then end - c.offset else 0);
    (h.(chunk := Some(c.(offset := end))), Advanced(l, gap, p))
  }

  function EnterAlloc(h: Heap, l: Layout, answer: Option<nat>): (Heap, Phase)
    requires l.align <= U64
  {
    var fit := FirstFit(h.nodes, NormalSize(l), NormalAlign(l), 0);
    if fit.Some? then (Unlink(h, fit.value), Unlinked(l, h.nodes[fit.value]))
    else if BumpAddr(h.chunk, NormalSize(l), NormalAlign(l)).Some? then BumpStep(h, l)
    else if answer.None? then (h, Finished(0))
    else
      var region := Extent(answer.value, RegionSize(l));
      (h.(chunk := Some(Chunk(region.addr, region.size, 0)), chunks := h.chunks + [region],
          mem := h.mem + Zeroed(region)),
       Replaced(l, Remainder(h.chunk)))
  }

  /** One step of a closure. */
  ghost function Micro(h: Heap, ph: Phase): (Heap, Phase)
    requires Enabled(h, ph)
  {
    match ph
    case Entered(AllocEvent(l, answer)) => EnterAlloc(h, l, answer)
    case Entered(DeallocEvent(addr, l)) =>
      if addr == 0 then (h, Finished(0))
      else (h.(live := Without(h.live, IndexOf(h.live, Block(addr, l)))), Freed(Block(addr, l).Footprint()))
    case Unlinked(l, gap) => (Cut(h, gap, NormalSize(l)), Ready(l, gap.addr))
    case Replaced(l, gap) => (Discard(h, gap, AbandonedTail), Retrying(l))
    case Retrying(l) => BumpStep(h, l)
    case Advanced(l, gap, p) => (Discard(h, Extent(gap.addr, p - gap.addr), Padding), Ready(l, p))
    case Ready(l, addr) => (Grant(h, addr, l), Finished(addr))
    case Freed(gap) => (Push(h, gap), Finished(0))
  }

  // ----- threads -----

  datatype Thread = Idle | Spinning(op: Event) | Inside(phase: Phase, op: Event)

  /**
   `done` lists the requests whose closure has completed, in order, `callers` the threads that made them, and
   `returned` the addresses their calls return; no step reads them.
   */
  datatype System = System(
    locked: bool,
    heap: Heap,
    threads: map<nat, Thread>,
    done: seq<Event>,
    callers: seq<nat>,
    returned: seq<nat>)

  datatype Action =
    | Call(t: nat, op: Event)            // a thread calls `alloc` or `dealloc` for a small block
    | Try(t: nat, spurious: bool)        // one weak compare-and-exchange on the flag
    | Work(t: nat)                       // one step of the closure
    | Release(t: nat)                    // the flag is cleared
    | Bypass(t: nat, op: Event)          // a large request, or a store of the client, outside the lock

  ghost predicate Can(s: System, a: Action) {
    && a.t in s.threads
    && match a
       case Call(t, op) => s.threads[t].Idle? && Locking(op) && (op.AllocEvent? ==> ValidLayout(op.layout))
       case Try(t, _) => s.threads[t].Spinning?
       case Work(t) => s.threads[t].Inside? && Enabled(s.heap, s.threads[t].phase)
       case Release(t) => s.threads[t].Inside? && s.threads[t].phase.Finished?
       case Bypass(t, op) => s.threads[t].Idle? && !Locking(op) && Legal(s.heap, op)
  }

  ghost function Act(s: System, a: Action): System
    requires Can(s, a)
  {
    match a
    case Call(t, op) => s.(threads := s.threads[t := Spinning(op)])
    case Try(t, spurious) =>
      if s.locked || spurious then s
      else s.(locked := true, threads := s.threads[t := Inside(Entered(s.threads[t].op), s.threads[t].op)])
    case Work(t) =>
      var (h, ph) := Micro(s.heap, s.threads[t].phase);
      s.(heap := h, threads := s.threads[t := s.threads[t].(phase := ph)])
    case Release(t) =>
      s.(locked := false, threads := s.threads[t := Idle], done := s.done + [s.threads[t].op],
         callers := s.callers + [t], returned := s.returned + [s.threads[t].phase.addr])
    case Bypass(t, op) => s.(heap := Step(s.heap, op))
  }

  ghost predicate Possible(s: System, run: seq<Action>)
    decreases |run|
  {
    run == [] || (Can(s, run[0]) && Possible(Act(s, run[0]), run[1..]))
  }

  ghost function Perform(s: System, run: seq<Action>): System
    requires Possible(s, run)
    decreases |run|
  {
    if run == [] then s else Perform(Act(s, run[0]), run[1..])
  }

  // ----- the invariant -----

  ghost predicate IsInside(s: System, t: nat) {
    t in s.threads && s.threads[t].Inside?
  }

  /** What a closure has in transit fits what it is about to do. */
  ghost predicate PhaseShaped(h: Heap, ph: Phase) {
    match ph
    case Entered(op) => Locking(op) && (op.AllocEvent? ==> ValidLayout(op.layout))
    case Unlinked(l, gap) =>
        SmallRequest(l) && NodeShaped(gap) && NormalSize(l) <= gap.size && gap.addr % NormalAlign(l) == 0
    case Replaced(l, gap) => SmallRequest(l) && gap.size % 8 == 0 && FreshFor(h.chunk, l)
    case Retrying(l) => SmallRequest(l) && FreshFor(h.chunk, l)
    case Advanced(l, gap, p) =>
      SmallRequest(l) && p % 8 == 0 && gap.addr % 8 == 0 && gap.addr <= p && p + NormalSize(l) == gap.addr + gap.size
      && p % NormalAlign(l) == 0
    case Ready(l, addr) => SmallRequest(l) && addr % 8 == 0 && addr % NormalAlign(l) == 0
    case Freed(gap) => NodeShaped(gap)
    case Finished(_) => true
  }

  ghost predicate SmallRequest(l: Layout) {
    ValidLayout(l) && !IsLarge(l) && 8 <= NormalAlign(l) <= ADDRESS_LIMIT && l.align <= U64
  }

  ghost predicate FreshFor(chunk: Option<Chunk>, l: Layout)
  {
    chunk.Some? && l.align <= U64 && BumpAddr(chunk, NormalSize(l), NormalAlign(l)).Some?
  }

  ghost predicate Excluded(s: System) {
    && (s.locked <==> exists t :: IsInside(s, t))
    && (forall t, u :: IsInside(s, t) && IsInside(s, u) ==> t == u)
  }

  ghost predicate Waiting(s: System) {
    forall t :: t in s.threads && s.threads[t].Spinning? ==>
      Locking(s.threads[t].op) && (s.threads[t].op.AllocEvent? ==> ValidLayout(s.threads[t].op.layout))
  }

  ghost predicate Consistent(s: System) {
    && (!s.locked ==> Inv(s.heap))
    && (forall t :: IsInside(s, t) ==>
        Holding(s.heap, Transit(s.threads[t].phase)) && PhaseShaped(s.heap, s.threads[t].phase))
  }

  /** Every completed request returned the address it returns when all requests before it are run one after another. */
  ghost predicate Answered(start: Heap, done: seq<Event>, returned: seq<nat>) {
    && |returned| == |done|
    && forall i :: 0 <= i < |done| ==> returned[i] == Outcome(Serial(start, done[..i]), done[i]).1
  }

  /** The small state is the serial outcome of the completed requests, or on its way to the next one. */
  ghost predicate Serialized(s: System, start: Heap) {
    && Answered(start, s.done, s.returned)
    && (!s.locked ==> SmallOf(s.heap) == SmallOf(Serial(start, s.done)))
    && (forall t :: IsInside(s, t) ==>
        Heading(s.heap, s.threads[t].phase, Outcome(Serial(start, s.done), s.threads[t].op)))
  }

  ghost predicate Heading(h: Heap, ph: Phase, goal: (Heap, nat)) {
    PhaseShaped(h, ph) && ChunkShaped(h.chunk) && SmallOf(Remaining(h, ph).0) == SmallOf(goal.0)
        && Remaining(h, ph).1 == goal.1
  }

  ghost predicate Safe(s: System) {
    Excluded(s) && Waiting(s) && Consistent(s)
  }

  // ----- one step of a closure -----

  lemma BumpStepHolds(h: Heap, l: Layout)
    requires Inv(h) && SmallRequest(l) && FreshFor(h.chunk, l)
    ensures Holding(BumpStep(h, l).0, Transit(BumpStep(h, l).1))
    ensures PhaseShaped(BumpStep(h, l).0, BumpStep(h, l).1)
  {
    BumpStepShape(h, l);
    var c, p := h.chunk.value, BumpAddr(h.chunk, NormalSize(l), NormalAlign(l)).value;
    AdvanceHolds(h, p + NormalSize(l) - c.base);
  }

  lemma BumpStepShape(h: Heap, l: Layout)
    requires ChunkShaped(h.chunk) && SmallRequest(l) && FreshFor(h.chunk, l)
    ensures var c, end := h.chunk.value,
          BumpAddr(h.chunk, NormalSize(l), NormalAlign(l)).value + NormalSize(l) - h.chunk.value.base;
      && c.offset <= end <= c.size && end % 8 == 0
      && BumpStep(h, l).0 == h.(chunk := Some(c.(offset := end)))
      && Transit(BumpStep(h, l).1) == Extent(c.base + c.offset, end - c.offset)
    ensures PhaseShaped(BumpStep(h, l).0, BumpStep(h, l).1)
  {
    BumpFound(h.chunk.value, l);
  }

  /** Where a bump allocation lands. */
  lemma BumpFound(c: Chunk, l: Layout)
    requires SoundChunk(c) && SmallRequest(l) && FreshFor(Some(c), l)
    ensures var p := BumpAddr(Some(c), NormalSize(l), NormalAlign(l)).value;
      && p % NormalAlign(l) == 0 && p % 8 == 0 && (p + NormalSize(l) - c.base) % 8 == 0 && (c.base + c.offset) % 8 == 0
      && c.base + c.offset <= p && p + NormalSize(l) <= c.base + c.size
  {
    var p := BumpAddr(Some(c), NormalSize(l), NormalAlign(l)).value;
    assert IsPow2(NormalAlign(l)) by {
      NormalAlignMeaning(l);
    }
    BumpAddrMeaning(c, NormalSize(l), NormalAlign(l));
    assert p % 8 == 0 && NormalSize(l) % 8 == 0 by {
      NormalAlignMeaning(l);
      NormalSizeMeaning(l);
    }
    PageWords(c.base);
    SumAligned(p, NormalSize(l), c.base, c.offset);
  }

  lemma PageWords(base: nat)
    requires base % PAGE_SIZE == 0
    ensures base % 8 == 0
  {
    assert base == 8 * (512 * (base / PAGE_SIZE));
  }

  lemma SumAligned(p: nat, size: nat, base: nat, offset: nat)
    requires p % 8 == 0 && size % 8 == 0 && base % 8 == 0 && offset % 8 == 0
    ensures (p + size - base) % 8 == 0 && (base + offset) % 8 == 0
  {}

  lemma EnterAllocHolds(h: Heap, l: Layout, answer: Option<nat>)
    requires Inv(h) && Legal(h, AllocEvent(l, answer)) && SmallRequest(l)
    ensures Holding(EnterAlloc(h, l, answer).0, Transit(EnterAlloc(h, l, answer).1))
  {
    var fit := FirstFit(h.nodes, NormalSize(l), NormalAlign(l), 0);
    if fit.Some? {
      UnlinkHolds(h, fit.value);
    } else if BumpAddr(h.chunk, NormalSize(l), NormalAlign(l)).Some? {
      BumpStepHolds(h, l);
    } else if answer.Some? {
      FreshChunkServes(answer.value, l);
      MapChunkHolds(h, answer.value, RegionSize(l));
    }
  }

  lemma EnterAllocShape(h: Heap, l: Layout, answer: Option<nat>)
    requires NodesShaped(h.nodes) && ChunkShaped(h.chunk) && Legal(h, AllocEvent(l, answer)) && SmallRequest(l)
    ensures PhaseShaped(EnterAlloc(h, l, answer).0, EnterAlloc(h, l, answer).1)
  {
    hide NormalSize, FirstFit, AlignUp, RegionSize, Unlink;
    var fit := FirstFit(h.nodes, NormalSize(l), NormalAlign(l), 0);
    if fit.Some? {
      assert NodeShaped(h.nodes[fit.value]);
    } else if BumpAddr(h.chunk, NormalSize(l), NormalAlign(l)).Some? {
      BumpStepShape(h, l);
    } else if answer.Some? {
      FreshChunkServes(answer.value, l);
    }
  }

  lemma EnterDeallocHolds(h: Heap, addr: nat, l: Layout)
    requires Inv(h) && Legal(h, DeallocEvent(addr, l)) && !IsLarge(l) && addr != 0
    ensures var i := IndexOf(h.live, Block(addr, l));
      Holding(h.(live := Without(h.live, i)), Block(addr, l).Footprint()) && NodeShaped(Block(addr, l).Footprint())
  {
    var i := IndexOf(h.live, Block(addr, l));
    assert SmallShaped(h.live[i]);
    NormalAlignMeaning(l);
    NormalSizeMeaning(l);
    ReleaseHolds(h, i);
  }

  lemma EnteredHolds(h: Heap, op: Event)
    requires Inv(h) && PhaseShaped(h, Entered(op)) && Enabled(h, Entered(op))
    ensures Holding(Micro(h, Entered(op)).0, Transit(Micro(h, Entered(op)).1))
  {
    match op
    case AllocEvent(l, answer) =>
      NormalAlignMeaning(l);
      EnterAllocHolds(h, l, answer);
    case DeallocEvent(addr, l) =>
      if addr != 0 {
        EnterDeallocHolds(h, addr, l);
      }
  }

  lemma AdvancedHolds(h: Heap, l: Layout, gap: Extent, p: nat)
    requires Holding(h, gap) && p % 8 == 0 && gap.addr % 8 == 0 && gap.addr <= p
          && p + NormalSize(l) == gap.addr + gap.size
    ensures var (h', ph) := Micro(h, Advanced(l, gap, p)); Holding(h', Transit(ph))
  {
    hide Holding, NormalSize, Discard;
    MultipleBetween(gap.addr, p);
    DiscardHolds(h, gap, Extent(p, NormalSize(l)), Extent(gap.addr, p - gap.addr), Padding);
  }

  lemma MultipleBetween(a: nat, b: nat)
    requires a <= b && a % 8 == 0 && b % 8 == 0
    ensures (b - a) % 8 == 0
  {}

  lemma UnlinkedHolds(h: Heap, l: Layout, gap: Extent)
    requires Holding(h, gap) && NodeShaped(gap) && ValidLayout(l) && NormalSize(l) <= gap.size
    ensures var (h', ph) := Micro(h, Unlinked(l, gap)); Holding(h', Transit(ph))
  {
    NormalSizeMeaning(l);
    CutHolds(h, gap, NormalSize(l));
  }

  lemma ReplacedHolds(h: Heap, l: Layout, gap: Extent)
    requires Holding(h, gap) && gap.size % 8 == 0
    ensures Inv(Discard(h, gap, AbandonedTail))
  {
    DiscardHolds(h, gap, Extent(gap.addr, 0), gap, AbandonedTail);
    EmptyGap(Discard(h, gap, AbandonedTail), gap.addr);
  }

  lemma FreedHolds(h: Heap, gap: Extent)
    requires Holding(h, gap) && NodeShaped(gap)
    ensures Inv(Push(h, gap))
  {
    PushHolds(h, gap, Extent(gap.addr, 0), gap);
    EmptyGap(Push(h, gap), gap.addr);
  }

  /** Every step of a closure leaves exactly its range in transit outside the ledger. */
  lemma MicroHolds(h: Heap, ph: Phase)
    requires Holding(h, Transit(ph)) && PhaseShaped(h, ph) && Enabled(h, ph)
    ensures Holding(Micro(h, ph).0, Transit(Micro(h, ph).1))
  {
    match ph
    case Entered(op) => EnteredHolds(h, op);
    case Retrying(l) => BumpStepHolds(h, l);
    case Replaced(_, _) => EmptyingHolds(h, ph);
    case Freed(_) => EmptyingHolds(h, ph);
    case Ready(l, addr) => GrantHolds(h, addr, l);
    case Unlinked(l, gap) => UnlinkedHolds(h, l, gap);
    case Advanced(l, gap, p) => AdvancedHolds(h, l, gap, p);
  }

  lemma EmptyingHolds(h: Heap, ph: Phase)
    requires Holding(h, Transit(ph)) && PhaseShaped(h, ph) && Enabled(h, ph) && (ph.Replaced? || ph.Freed?)
    ensures Holding(Micro(h, ph).0, Transit(Micro(h, ph).1))
  {
    hide Exact, Mapped, Apart, Linked, Bytes, LiveShaped, LargeShaped, ChunksShaped, WasteShaped, NodesShaped, Push,
      Discard;
    match ph
    case Replaced(l, gap) => ReplacedHolds(h, l, gap);
    case Freed(gap) => FreedHolds(h, gap);
  }

  lemma MicroShape(h: Heap, ph: Phase)
    requires Holding(h, Transit(ph)) && PhaseShaped(h, ph) && Enabled(h, ph)
    ensures PhaseShaped(Micro(h, ph).0, Micro(h, ph).1)
  {
    match ph
    case Entered(AllocEvent(l, answer)) =>
      NormalAlignMeaning(l);
      EnterAllocShape(h, l, answer);
    case Entered(DeallocEvent(addr, l)) =>
      if addr != 0 {
        EnterDeallocHolds(h, addr, l);
      }
    case Retrying(l) => BumpStepShape(h, l);
    case _ =>
  }

  /** An upper bound on the steps a closure has left. */
  function StepsLeft(ph: Phase): nat {
    match ph
    case Entered(_) => 5
    case Replaced(_, _) => 4
    case Retrying(_) => 3
    case Advanced(_, _, _) => 2
    case Unlinked(_, _) => 2
    case Ready(_, _) => 1
    case Freed(_) => 1
    case Finished(_) => 0
  }

  /** Once begun, a closure is never stuck, and it ends within five steps. */
  lemma {:induction false} ClosureEnds(h: Heap, ph: Phase)
    requires Holding(h, Transit(ph)) && PhaseShaped(h, ph) && !ph.Finished?
    ensures !ph.Entered? ==> Enabled(h, ph)
    ensures Enabled(h, ph) ==> StepsLeft(Micro(h, ph).1) < StepsLeft(ph)
  {
    hide Exact, Mapped, Apart, Linked, Bytes, NormalSize, FirstFit, AlignUp;
  }

  // ----- closures are atomic -----

  /** The part of the state that only closures read and write. */
  datatype Small = Small(free: nat, chunk: Option<Chunk>, nodes: seq<Extent>, live: seq<Block>, chunks: seq<Extent>,
      waste: seq<Scrap>)

  function SmallOf(h: Heap): Small {
    Small(h.free, h.chunk, h.nodes, h.live, h.chunks, h.waste)
  }

  /** A request carried out in one piece: the new state and the address returned. */
  ghost function Outcome(h: Heap, op: Event): (Heap, nat) {
    match op
    case AllocEvent(l, answer) => if l.align <= U64 then Alloc(h, l, answer) else (h, 0)
    case DeallocEvent(addr, l) =>
      (if Locking(op) && (addr == 0 || Block(addr, l) in h.live) then Dealloc(h, addr, l) else h, 0)
    case StoreEvent(_, _) => (h, 0)
  }

  ghost function Serial(h: Heap, ops: seq<Event>): Heap {
    if ops == [] then h else Outcome(Serial(h, ops[..|ops| - 1]), ops[|ops| - 1]).0
  }

  function BumpGrant(h: Heap, l: Layout): (Heap, nat)
    requires FreshFor(h.chunk, l) && ChunkShaped(h.chunk)
  {
    var p := BumpAddr(h.chunk, NormalSize(l), NormalAlign(l)).value;
    (Grant(TakeBump(h, p, NormalSize(l)), p, l), p)
  }

  /** The state a closure will leave, and the address it will return, if it runs on undisturbed. */
  ghost function Remaining(h: Heap, ph: Phase): (Heap, nat)
    requires PhaseShaped(h, ph) && ChunkShaped(h.chunk)
  {
    match ph
    case Entered(op) => Outcome(h, op)
    case Unlinked(l, gap) => (Grant(Cut(h, gap, NormalSize(l)), gap.addr, l), gap.addr)
    case Replaced(l, gap) => BumpGrant(Discard(h, gap, AbandonedTail), l)
    case Retrying(l) => BumpGrant(h, l)
    case Advanced(l, gap, p) => (Grant(Discard(h, Extent(gap.addr, p - gap.addr), Padding), p, l), p)
    case Ready(l, addr) => (Grant(h, addr, l), addr)
    case Freed(gap) => (Push(h, gap), 0)
    case Finished(addr) => (h, addr)
  }

  /** A closure's own step does not change where it is heading. */
  lemma MicroRemaining(h: Heap, ph: Phase)
    requires Holding(h, Transit(ph)) && PhaseShaped(h, ph) && Enabled(h, ph)
    ensures var (h', ph') := Micro(h, ph);
      PhaseShaped(h', ph') && ChunkShaped(h'.chunk) && Remaining(h', ph') == Remaining(h, ph)
  {
    hide NormalSize, NormalAlign, Exact, Mapped, Apart, Linked, Bytes, NodesShaped, LiveShaped, LargeShaped,
      ChunksShaped, WasteShaped;
    MicroShape(h, ph);
    MicroHolds(h, ph);
    match ph
    case Entered(AllocEvent(l, answer)) => EnterAllocRemaining(h, l, answer);
    case Retrying(l) => BumpStepRemaining(h, l);
    case _ =>
  }

  lemma BumpStepRemaining(h: Heap, l: Layout)
    requires ChunkShaped(h.chunk) && SmallRequest(l) && FreshFor(h.chunk, l)
    ensures var (h', ph') := BumpStep(h, l);
      PhaseShaped(h', ph') && ChunkShaped(h'.chunk) && Remaining(h', ph') == BumpGrant(h, l)
  {
    BumpStepShape(h, l);
    BumpFound(h.chunk.value, l);
  }

  lemma EnterAllocRemaining(h: Heap, l: Layout, answer: Option<nat>)
    requires Inv(h) && Legal(h, AllocEvent(l, answer)) && !IsLarge(l)
    ensures l.align <= U64
    ensures var (h', ph') := EnterAlloc(h, l, answer);
      PhaseShaped(h', ph') && ChunkShaped(h'.chunk) && Remaining(h', ph') == Alloc(h, l, answer)
  {
    NormalAlignMeaning(l);
    EnterAllocShape(h, l, answer);
    var fit := FirstFit(h.nodes, NormalSize(l), NormalAlign(l), 0);
    if fit.None? {
      if BumpAddr(h.chunk, NormalSize(l), NormalAlign(l)).Some? {
        BumpStepRemaining(h, l);
      } else if answer.Some? {
        FreshChunkServes(answer.value, l);
      }
    }
  }

  /** What closures do to the small state depends on the small state alone. */
  lemma SmallDetermines(h: Heap, g: Heap, op: Event)
    requires SmallOf(h) == SmallOf(g) && Locking(op)
    ensures SmallOf(Outcome(h, op).0) == SmallOf(Outcome(g, op).0) && Outcome(h, op).1 == Outcome(g, op).1
  {
    match op
    case AllocEvent(l, answer) =>
      if l.align <= U64 {
        AllocDetermined(h, g, l, answer);
      }
    case DeallocEvent(addr, l) =>
  }

  lemma AllocDetermined(h: Heap, g: Heap, l: Layout, answer: Option<nat>)
    requires SmallOf(h) == SmallOf(g) && l.align <= U64 && !IsLarge(l)
    ensures SmallOf(Alloc(h, l, answer).0) == SmallOf(Alloc(g, l, answer).0)
          && Alloc(h, l, answer).1 == Alloc(g, l, answer).1
  {
    hide NormalSize, FirstFit, BumpAddr, TakeNode, AddChunk;
    var size, align := NormalSize(l), NormalAlign(l);
    var fit := FirstFit(h.nodes, size, align, 0);
    if fit.Some? {
      TakeDetermined(h, g, fit.value, size);
    } else if BumpAddr(h.chunk, size, align).Some? {
    } else if answer.Some? {
      ChunkDetermined(h, g, answer.value, RegionSize(l));
    }
  }

  lemma TakeDetermined(h: Heap, g: Heap, i: nat, size: nat)
    requires SmallOf(h) == SmallOf(g) && i < |h.nodes| && size <= h.nodes[i].size
    ensures SmallOf(TakeNode(h, i, size)) == SmallOf(TakeNode(g, i, size))
  {}

  lemma ChunkDetermined(h: Heap, g: Heap, base: nat, size: nat)
    requires SmallOf(h) == SmallOf(g)
    ensures SmallOf(AddChunk(h, base, size)) == SmallOf(AddChunk(g, base, size))
  {}

  lemma RemainingDetermined(h: Heap, g: Heap, ph: Phase)
    requires SmallOf(h) == SmallOf(g) && PhaseShaped(h, ph) && ChunkShaped(h.chunk)
    ensures PhaseShaped(g, ph) && SmallOf(Remaining(h, ph).0) == SmallOf(Remaining(g, ph).0)
          && Remaining(h, ph).1 == Remaining(g, ph).1
  {
    match ph
    case Entered(op) => SmallDetermines(h, g, op);
    case Replaced(l, gap) =>
      BumpDetermined(Discard(h, gap, AbandonedTail), Discard(g, gap, AbandonedTail), l);
    case _ =>
  }

  lemma BumpDetermined(h: Heap, g: Heap, l: Layout)
    requires SmallOf(h) == SmallOf(g) && FreshFor(h.chunk, l) && ChunkShaped(h.chunk)
    ensures SmallOf(BumpGrant(h, l).0) == SmallOf(BumpGrant(g, l).0) && BumpGrant(h, l).1 == BumpGrant(g, l).1
  {}

  lemma BypassSmall(h: Heap, op: Event)
    requires !Locking(op) && Legal(h, op)
    ensures (op.AllocEvent? ==> op.layout.align <= U64) && SmallOf(Step(h, op)) == SmallOf(h)
  {
    if op.AllocEvent? {
      NormalAlignMeaning(op.layout);
    }
  }

  // ----- steps outside the lock -----

  /** Large requests and stores keep the invariant whatever another thread has in transit. */
  lemma BypassHolds(h: Heap, gap: Extent, op: Event)
    requires Holding(h, gap) && !Locking(op) && Legal(h, op)
    ensures Holding(Step(h, op), gap) && Step(h, op).chunk == h.chunk
  {
    match op
    case AllocEvent(l, answer) =>
      NormalAlignMeaning(l);
      if answer.Some? {
        MapLargeHolds(h, gap, answer.value, l);
      }
    case DeallocEvent(addr, l) =>
      if addr != 0 {
        UnmapLargeHolds(h, gap, IndexOf(h.large, Block(addr, l)));
      }
    case StoreEvent(word, value) => StoreHolds(h, gap, word, value);
  }

  // ----- every step of the system -----

  lemma TrySafe(s: System, t: nat)
    requires Safe(s) && Can(s, Try(t, false)) && !s.locked
    ensures Safe(Act(s, Try(t, false)))
  {
    hide Holding;
    var s' := Act(s, Try(t, false));
    assert IsInside(s', t);
    assert forall u :: IsInside(s', u) ==> u == t || IsInside(s, u);
  }

  lemma WorkSafe(s: System, t: nat)
    requires Safe(s) && Can(s, Work(t))
    ensures Safe(Act(s, Work(t)))
  {
    hide Holding, PhaseShaped, Micro, Enabled;
    assert IsInside(s, t);
    MicroHolds(s.heap, s.threads[t].phase);
    MicroShape(s.heap, s.threads[t].phase);
    assert forall u :: IsInside(Act(s, Work(t)), u) <==> IsInside(s, u);
  }

  lemma ReleaseSafe(s: System, t: nat)
    requires Safe(s) && Can(s, Release(t))
    ensures Safe(Act(s, Release(t)))
  {
    hide Holding, PhaseShaped;
    assert IsInside(s, t);
    assert forall u :: IsInside(Act(s, Release(t)), u) ==> IsInside(s, u) && u != t;
  }

  lemma BypassSafe(s: System, t: nat, op: Event)
    requires Safe(s) && Can(s, Bypass(t, op))
    ensures Safe(Act(s, Bypass(t, op)))
  {
    hide Holding, PhaseShaped, Step, Legal;
    var s' := Act(s, Bypass(t, op));
    assert forall u :: IsInside(s', u) <==> IsInside(s, u);
    if !s.locked {
      BypassHolds(s.heap, NOTHING, op);
    }
    forall u | IsInside(s', u)
      ensures Holding(s'.heap, Transit(s'.threads[u].phase)) && PhaseShaped(s'.heap, s'.threads[u].phase)
    {
      BypassHolds(s.heap, Transit(s.threads[u].phase), op);
      BypassShape(s.heap, s.threads[u].phase, op);
    }
  }

  /** A closure's phase says nothing about what is changed outside the lock. */
  lemma BypassShape(h: Heap, ph: Phase, op: Event)
    requires !Locking(op) && Legal(h, op) && PhaseShaped(h, ph)
    ensures PhaseShaped(Step(h, op), ph)
  {}

  lemma {:induction false} ActSafe(s: System, a: Action)
    requires Safe(s) && Can(s, a)
    ensures Safe(Act(s, a))
  {
    hide Holding, PhaseShaped, Micro, Enabled, Step, Legal;
    match a
    case Call(t, op) =>
      assert forall u :: IsInside(Act(s, a), u) <==> IsInside(s, u);
    case Try(t, spurious) =>
      if !s.locked && !spurious {
        TrySafe(s, t);
      }
    case Work(t) => WorkSafe(s, t);
    case Release(t) => ReleaseSafe(s, t);
    case Bypass(t, op) => BypassSafe(s, t, op);
  }

  lemma TrySerialized(s: System, start: Heap, t: nat)
    requires Safe(s) && Serialized(s, start) && !s.locked && Can(s, Try(t, false))
    ensures Serialized(Act(s, Try(t, false)), start)
  {
    var s' := Act(s, Try(t, false));
    assert forall u :: IsInside(s', u) ==> u == t || IsInside(s, u);
    assert Locking(s.threads[t].op);
    SmallDetermines(s.heap, Serial(start, s.done), s.threads[t].op);
  }

  lemma WorkSerialized(s: System, start: Heap, t: nat)
    requires Safe(s) && Serialized(s, start) && Can(s, Work(t))
    ensures Serialized(Act(s, Work(t)), start)
  {
    assert IsInside(s, t);
    MicroRemaining(s.heap, s.threads[t].phase);
    assert forall u :: IsInside(Act(s, Work(t)), u) ==> IsInside(s, u);
  }

  lemma ReleaseSerialized(s: System, start: Heap, t: nat)
    requires Safe(s) && Serialized(s, start) && Can(s, Release(t))
    ensures Serialized(Act(s, Release(t)), start)
  {
    var s' := Act(s, Release(t));
    assert IsInside(s, t);
    assert forall u :: IsInside(s', u) ==> IsInside(s, u) && u != t;
    var n := |s.done|;
    assert s'.done[..n] == s.done;
    forall i | 0 <= i <= n
      ensures s'.returned[i] == Outcome(Serial(start, s'.done[..i]), s'.done[i]).1
    {
      if i < n {
        assert s'.done[..i] == s.done[..i];
      }
    }
  }

  lemma BypassSerialized(s: System, start: Heap, t: nat, op: Event)
    requires Safe(s) && Serialized(s, start) && Can(s, Bypass(t, op))
    ensures Serialized(Act(s, Bypass(t, op)), start)
  {
    var s' := Act(s, Bypass(t, op));
    BypassSmall(s.heap, op);
    forall u | IsInside(s', u)
      ensures Heading(s'.heap, s'.threads[u].phase, Outcome(Serial(start, s'.done), s'.threads[u].op))
    {
      assert IsInside(s, u);
      RemainingDetermined(s.heap, s'.heap, s.threads[u].phase);
    }
  }

  lemma {:induction false} ActSerialized(s: System, start: Heap, a: Action)
    requires Safe(s) && Serialized(s, start) && Can(s, a)
    ensures Serialized(Act(s, a), start)
  {
    match a
    case Call(t, op) =>
      assert forall u :: IsInside(Act(s, a), u) <==> IsInside(s, u);
    case Try(t, spurious) =>
      if !s.locked && !spurious {
        TrySerialized(s, start, t);
      }
    case Work(t) => WorkSerialized(s, start, t);
    case Release(t) => ReleaseSerialized(s, start, t);
    case Bypass(t, op) => BypassSerialized(s, start, t, op);
  }

  // ----- blocks held by clients -----

  /** A word of a block a client holds is in no free node and not in transit. */
  lemma ClientWord(h: Heap, gap: Extent, b: Block, w: nat)
    requires Holding(h, gap) && Holds(h, b) && b.Footprint().Covers(w) && w % 8 == 0
    ensures w in h.mem && Count(h.nodes, w) == 0 && !gap.Covers(w)
  {
    HeldCount(h, b, w);
    HeldWord(h, gap, w);
    LoadAtMostOne(h, gap, w);
    assert Count(h.chunks, w) + Count(Footprints(h.large), w) <= 1;
    assert Load(h.nodes, h.live, h.waste, h.chunk, w) + One(gap, w) == Count(h.chunks, w);
  }

  /** A closure's step writes only to free nodes and to what it has in transit. */
  lemma {:induction false} MicroFrame(h: Heap, ph: Phase, w: nat)
    requires Holding(h, Transit(ph)) && PhaseShaped(h, ph) && Enabled(h, ph)
    requires w in h.mem && Count(h.nodes, w) == 0 && !Transit(ph).Covers(w)
    ensures w in Micro(h, ph).0.mem && Micro(h, ph).0.mem[w] == h.mem[w]
  {
    hide Exact, Mapped, Apart, Linked, Bytes, LiveShaped, LargeShaped, ChunksShaped, WasteShaped, NormalSize;
    match ph
    case Entered(AllocEvent(l, answer)) => EnterAllocFrame(h, l, answer, w);
    case _ =>
  }

  lemma EnterAllocFrame(h: Heap, l: Layout, answer: Option<nat>, w: nat)
    requires Inv(h) && Legal(h, AllocEvent(l, answer)) && !IsLarge(l) && l.align <= U64
    requires w in h.mem && Count(h.nodes, w) == 0
    ensures w in EnterAlloc(h, l, answer).0.mem && EnterAlloc(h, l, answer).0.mem[w] == h.mem[w]
  {
    hide FirstFit, BumpAddr, AlignUp;
    var fit := FirstFit(h.nodes, NormalSize(l), NormalAlign(l), 0);
    if fit.Some? {
      if fit.value > 0 {
        assert NodeShaped(h.nodes[fit.value - 1]);
        NodeWord(h, fit.value - 1, w);
      }
    } else if answer.Some? {
      MapLinks(h, NOTHING, Extent(answer.value, RegionSize(l)));
    }
  }

  /** The action takes the block out of the client's hands. */
  predicate Surrenders(s: System, a: Action, b: Block) {
    match a
    case Work(t) =>
      t in s.threads && s.threads[t].Inside? && s.threads[t].phase.Entered?
      && s.threads[t].phase.op.DeallocEvent? && s.threads[t].phase.op.addr == b.addr
    case Bypass(_, op) => op.DeallocEvent? && op.addr == b.addr
    case _ => false
  }

  lemma MicroKeepsBlock(h: Heap, ph: Phase, b: Block)
    requires Enabled(h, ph) && Holds(h, b) && !(ph.Entered? && ph.op.DeallocEvent? && ph.op.addr == b.addr)
    ensures Holds(Micro(h, ph).0, b)
  {
    match ph
    case Entered(DeallocEvent(addr, l)) =>
      if addr != 0 && b in h.live {
        WithoutKeeps(h.live, IndexOf(h.live, Block(addr, l)), b);
      }
    case _ =>
  }

  /** Two blocks held at once share no address, whatever is in transit. */
  lemma LargeElsewhere(h: Heap, gap: Extent, b: Block, i: nat, w: nat)
    requires Holding(h, gap) && Holds(h, b) && i < |h.large| && h.large[i] != b && b.Footprint().Covers(w)
    ensures !h.large[i].Footprint().Covers(w)
  {
    assert Load(h.nodes, h.live, h.waste, h.chunk, w) + One(gap, w) == Count(h.chunks, w);
    assert Count(h.chunks, w) + Count(Footprints(h.large), w) <= 1;
    CountWithout(Footprints(h.large), i, w);
    FootprintsWithout(h.large, i);
    if b in h.live {
      CountAtLeast(Footprints(h.live), IndexOf(h.live, b), w);
    } else {
      WithoutKeeps(h.large, i, b);
      CountAtLeast(Footprints(Without(h.large, i)), IndexOf(Without(h.large, i), b), w);
    }
  }

  lemma BypassFrame(h: Heap, gap: Extent, op: Event, b: Block, w: nat)
    requires Holding(h, gap) && !Locking(op) && Legal(h, op) && Holds(h, b) && b.Footprint().Covers(w) && w % 8 == 0
    requires op.DeallocEvent? ==> op.addr != b.addr
    ensures Holds(Step(h, op), b) && w in h.mem && w in Step(h, op).mem
    ensures Step(h, op).mem[w] == if op.StoreEvent? && op.word == w then op.value else h.mem[w]
  {
    ClientWord(h, gap, b, w);
    match op
    case AllocEvent(l, answer) =>
      if answer.Some? {
        MapLinks(h, gap, Extent(answer.value, RegionSize(l)));
      }
    case DeallocEvent(addr, l) =>
      if addr != 0 {
        var i := IndexOf(h.large, Block(addr, l));
        LargeElsewhere(h, gap, b, i, w);
        if b in h.large {
          WithoutKeeps(h.large, i, b);
        }
      }
    case StoreEvent(_, _) =>
  }

  /** One action leaves a block that its client keeps as the client last wrote it. */
  lemma ActKeepsContents(s: System, a: Action, b: Block, w: nat)
    requires Safe(s) && Can(s, a) && Holds(s.heap, b) && !Surrenders(s, a, b)
    requires b.Footprint().Covers(w) && w % 8 == 0
    ensures Holds(Act(s, a).heap, b) && w in s.heap.mem && w in Act(s, a).heap.mem
    ensures Act(s, a).heap.mem[w]
          == if a.Bypass? && a.op.StoreEvent? && a.op.word == w then a.op.value else s.heap.mem[w]
  {
    hide Micro, Enabled, Step, Holding, PhaseShaped;
    var gap := SomeGap(s);
    ClientWord(s.heap, gap, b, w);
    match a
    case Work(t) =>
      assert IsInside(s, t);
      var ph := s.threads[t].phase;
      ClientWord(s.heap, Transit(ph), b, w);
      MicroFrame(s.heap, ph, w);
      MicroKeepsBlock(s.heap, ph, b);
    case Bypass(t, op) => BypassFrame(s.heap, gap, op, b, w);
    case _ =>
  }

  lemma SomeGap(s: System) returns (gap: Extent)
    requires Safe(s)
    ensures Holding(s.heap, gap)
  {
    hide Holding, PhaseShaped;
    if s.locked {
      var t :| IsInside(s, t);
      gap := Transit(s.threads[t].phase);
    } else {
      gap := NOTHING;
    }
  }

  /** Nobody gives the block back during the run. */
  ghost predicate KeptAlong(s: System, run: seq<Action>, b: Block)
    requires Possible(s, run)
    decreases |run|
  {
    run == [] || (!Surrenders(s, run[0], b) && KeptAlong(Act(s, run[0]), run[1..], b))
  }

  /** What a word holds after the stores of a run. */
  function LastWritten(run: seq<Action>, w: nat, value: nat): nat {
    if run == [] then value
    else
      var a := run[0];
      LastWritten(run[1..], w, if a.Bypass? && a.op.StoreEvent? && a.op.word == w then a.op.value else value)
  }

  /**
   However the threads interleave, inside the lock and around it, every word of a block that is not
   given back stays mapped and holds what was last stored in it.
   */
  lemma {:induction false} RunKeepsContents(s: System, run: seq<Action>, b: Block, w: nat)
    requires Safe(s) && Possible(s, run) && Holds(s.heap, b) && KeptAlong(s, run, b)
    requires b.Footprint().Covers(w) && w % 8 == 0
    ensures Holds(Perform(s, run).heap, b) && w in s.heap.mem && w in Perform(s, run).heap.mem
    ensures Perform(s, run).heap.mem[w] == LastWritten(run, w, s.heap.mem[w])
    decreases |run|
  {
    hide Act, Can, Safe, Surrenders;
    if run == [] {
      var gap := SomeGap(s);
      ClientWord(s.heap, gap, b, w);
    } else {
      ActKeepsContents(s, run[0], b, w);
      ActSafe(s, run[0]);
      RunKeepsContents(Act(s, run[0]), run[1..], b, w);
    }
  }

  // ----- all runs -----

  ghost predicate Initial(s: System) {
    !s.locked && Untouched(s.heap) && s.done == [] && s.callers == [] && s.returned == []
        && forall t :: t in s.threads ==> s.threads[t].Idle?
  }

  /**
   For any number of threads and any interleaving: at most one thread is inside a closure, the flag
   is set exactly when one is, and whenever it is clear the allocator's invariant holds; while it is
   set, the invariant fails only by the range that the one closure has in transit. And the list, the
   chunk and the small blocks are what the completed requests give when run one after another, and each
   of those requests returned the address it returns then.
   */
  lemma {:induction false} RunSafe(s: System, start: Heap, run: seq<Action>)
    requires Safe(s) && Serialized(s, start) && Possible(s, run)
    ensures Safe(Perform(s, run)) && Serialized(Perform(s, run), start)
    decreases |run|
  {
    if run != [] {
      ActSafe(s, run[0]);
      ActSerialized(s, start, run[0]);
      RunSafe(Act(s, run[0]), start, run[1..]);
    }
  }

  lemma {:induction false} InitialSafe(s: System)
    requires Initial(s)
    ensures Safe(s) && Serialized(s, s.heap)
  {
    EmptyInv(s.heap);
  }

  // ----- the requests made are the requests carried out -----

  /** What thread `t` calls for during a run, in order. */
  function Calls(run: seq<Action>, t: nat): seq<Event> {
    if run == [] then []
    else (if run[0].Call? && run[0].t == t then [run[0].op] else []) + Calls(run[1..], t)
  }

  /** The completed requests of thread `t`, in order. */
  function DoneBy(done: seq<Event>, callers: seq<nat>, t: nat): seq<Event>
    requires |done| == |callers|
  {
    if done == [] then []
    else
      var n := |done| - 1;
      DoneBy(done[..n], callers[..n], t) + (if callers[n] == t then [done[n]] else [])
  }

  /** The request that thread `t` is waiting to carry out, or carrying out. */
  function Pending(s: System, t: nat): seq<Event> {
    if t !in s.threads then []
    else
      match s.threads[t]
      case Idle => []
      case Spinning(op) => [op]
      case Inside(_, op) => [op]
  }

  function History(s: System, t: nat): seq<Event>
    requires |s.done| == |s.callers|
  {
    DoneBy(s.done, s.callers, t) + Pending(s, t)
  }

  lemma {:induction false} ActHistory(s: System, a: Action, t: nat)
    requires Can(s, a) && |s.done| == |s.callers|
    ensures |Act(s, a).done| == |Act(s, a).callers|
    ensures History(Act(s, a), t) == History(s, t) + (if a.Call? && a.t == t then [a.op] else [])
  {
    hide Micro, Enabled, Step, Legal, ValidLayout, DoneBy;
    match a
    case Release(u) => DoneByPush(s.done, s.callers, s.threads[u].op, u, t);
    case _ =>
  }

  lemma {:induction false} DoneByPush(done: seq<Event>, callers: seq<nat>, op: Event, u: nat, t: nat)
    requires |done| == |callers|
    ensures DoneBy(done + [op], callers + [u], t) == DoneBy(done, callers, t) + (if u == t then [op] else [])
  {
    var n := |done|;
    assert (done + [op])[..n] == done && (callers + [u])[..n] == callers;
  }

  /**
   Whatever the interleaving: thread by thread and in order, the requests carried out are those called
   for, except a last one that its thread is still spinning for or is carrying out.
   */
  lemma {:induction false} RunHistory(s: System, run: seq<Action>, t: nat)
    requires Possible(s, run) && |s.done| == |s.callers|
    ensures |Perform(s, run).done| == |Perform(s, run).callers|
    ensures History(Perform(s, run), t) == History(s, t) + Calls(run, t)
    decreases |run|
  {
    hide Act, Can, History;
    if run != [] {
      ActHistory(s, run[0], t);
      RunHistory(Act(s, run[0]), run[1..], t);
    }
  }

  // ----- a request alone -----

  /** A thread inside its closure, left alone, finishes it and releases the lock. */
  lemma {:induction false} FinishAlone(s: System, t: nat) returns (run: seq<Action>)
    requires Safe(s) && IsInside(s, t)
    requires s.threads[t].phase.Entered? ==> Enabled(s.heap, s.threads[t].phase)
    ensures PhaseShaped(s.heap, s.threads[t].phase) && ChunkShaped(s.heap.chunk)
    ensures Possible(s, run) && |run| <= StepsLeft(s.threads[t].phase) + 1
    ensures var (heap, addr) := Remaining(s.heap, s.threads[t].phase);
      Perform(s, run) == s.(locked := false, heap := heap, threads := s.threads[t := Idle],
                            done := s.done + [s.threads[t].op], callers := s.callers + [t],
                                returned := s.returned + [addr])
    decreases StepsLeft(s.threads[t].phase)
  {
    hide Safe, Holding, PhaseShaped, Enabled, Micro, Remaining;
    var ph := s.threads[t].phase;
    InsideShape(s, t);
    if ph.Finished? {
      run := [Release(t)];
      RemainingDone(s.heap, ph);
      PerformOne(s, Release(t));
    } else {
      ClosureEnds(s.heap, ph);
      MicroRemaining(s.heap, ph);
      ActSafe(s, Work(t));
      var s' := Act(s, Work(t));
      MicroPhase(s.heap, ph);
      var rest := FinishAlone(s', t);
      run := [Work(t)] + rest;
      PerformFirst(s, Work(t), rest);
      assert s'.threads[t := Idle] == s.threads[t := Idle];
    }
  }

  lemma InsideShape(s: System, t: nat)
    requires Safe(s) && IsInside(s, t)
    ensures Holding(s.heap, Transit(s.threads[t].phase)) && PhaseShaped(s.heap, s.threads[t].phase)
    ensures ChunkShaped(s.heap.chunk) && s.locked
  {}

  lemma RemainingDone(h: Heap, ph: Phase)
    requires ph.Finished? && ChunkShaped(h.chunk)
    ensures PhaseShaped(h, ph) && Remaining(h, ph) == (h, ph.addr)
  {}

  /** No closure begins again. */
  lemma {:induction false} MicroPhase(h: Heap, ph: Phase)
    requires Enabled(h, ph)
    ensures !Micro(h, ph).1.Entered?
  {
    hide NormalSize, NormalAlign, FirstFit, BumpAddr, AlignUp;
  }

  lemma PerformFirst(s: System, a: Action, rest: seq<Action>)
    requires Can(s, a) && Possible(Act(s, a), rest)
    ensures Possible(s, [a] + rest) && Perform(s, [a] + rest) == Perform(Act(s, a), rest)
  {
    hide Can, Act;
    assert ([a] + rest)[1..] == rest;
  }

  lemma PerformOne(s: System, a: Action)
    requires Can(s, a)
    ensures Possible(s, [a]) && Perform(s, [a]) == Act(s, a)
  {
    hide Can, Act;
    assert [a] == [a] + [];
    PerformFirst(s, a, []);
  }

  /**
   Progress: with the lock free, a thread that calls and is left alone takes the lock at its first attempt
   that does not fail spuriously, needs at most five steps inside, and releases it; the heap is then what
   its very request makes of it, and the address returned is the one it gives.
   */
  lemma {:induction false} RequestAlone(s: System, t: nat, op: Event) returns (run: seq<Action>)
    requires Safe(s) && !s.locked && t in s.threads && s.threads[t].Idle?
    requires Locking(op) && ValidLayout(op.layout) && Legal(s.heap, op)
    ensures |run| <= 8 && |run| > 2 && run[0] == Call(t, op) && run[1] == Try(t, false) && Possible(s, run)
    ensures var (heap, addr) := Outcome(s.heap, op);
      Perform(s, run) == s.(heap := heap, done := s.done + [op], callers := s.callers + [t],
          returned := s.returned + [addr])
  {
    hide Safe, Legal, ValidLayout, Outcome;
    LayoutBelow(op.layout);
    var called := Act(s, Call(t, op));
    var inside := Act(called, Try(t, false));
    ActSafe(s, Call(t, op));
    ActSafe(called, Try(t, false));
    assert inside.threads[t] == Inside(Entered(op), op) && IsInside(inside, t);
    var rest := FinishAlone(inside, t);
    run := [Call(t, op)] + ([Try(t, false)] + rest);
    PerformFirst(called, Try(t, false), rest);
    PerformFirst(s, Call(t, op), [Try(t, false)] + rest);
    assert inside.threads[t := Idle] == s.threads;
  }

  lemma LayoutBelow(l: Layout)
    requires ValidLayout(l)
    ensures l.align <= U64
  {}

  lemma LargeAllocHolds(h: Heap, l: Layout, answer: Option<nat>)
    requires Legal(h, AllocEvent(l, answer)) && IsLarge(l)
    ensures answer.None? ==> Alloc(h, l, answer).0 == h
    ensures answer.Some? ==> HeldBlocks(Alloc(h, l, answer).0) == HeldBlocks(h) + multiset{Block(answer.value, l)}
  {
    hide FirstFit, BumpAddr, AlignUp, NormalSize, RegionSize;
    LayoutBelow(l);
  }

  lemma LargeDeallocHolds(h: Heap, addr: nat, l: Layout)
    requires Legal(h, DeallocEvent(addr, l)) && IsLarge(l) && addr != 0
    ensures HeldBlocks(Dealloc(h, addr, l)) == HeldBlocks(h) - multiset{Block(addr, l)}
  {
    hide NormalSize, RegionSize, Without, IndexOf;
    WithoutOnce(h.large, Block(addr, l));
  }

  /** What the actions outside the lock do: a large request or free, and a store of the client. */
  lemma {:induction false} BypassEffect(s: System, t: nat, op: Event)
    requires Can(s, Bypass(t, op))
    ensures var h' := Act(s, Bypass(t, op)).heap;
      match op
      case AllocEvent(l, None) => h' == s.heap
      case AllocEvent(l, Some(base)) => HeldBlocks(h') == HeldBlocks(s.heap) + multiset{Block(base, l)}
      case DeallocEvent(addr, l) => addr != 0 ==> HeldBlocks(h') == HeldBlocks(s.heap) - multiset{Block(addr, l)}
      case StoreEvent(word, value) => h' == s.heap.(mem := s.heap.mem[word := value])
  {
    hide Alloc, Dealloc, HeldBlocks;
    match op
    case AllocEvent(l, answer) => LargeAllocHolds(s.heap, l, answer);
    case DeallocEvent(addr, l) =>
      if addr != 0 {
        LargeDeallocHolds(s.heap, addr, l);
      }
    case StoreEvent(_, _) =>
  }
}
