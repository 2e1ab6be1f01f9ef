/** Writing fixups as chains into an image, and that the parser reads them back. */
module FixupRoundTrip {
  import opened Prelude
  import opened Bits
  import opened Bytes
  import opened CStrings
  import opened ChainedPointers
  import opened FixupParser
  import opened Patches

  /** A place in the image to be fixed up. */
  datatype Slot = Slot(offset: nat, pointer: Pointer)
  {
    /** What the linker makes of the slot's pointer. */
    function Entry(): Entry {
      pointer.Entry()
    }
  }

  /** A segment's record and, page by page, its slots; `None` in a plan is a segment without fixups. */
  datatype Planned = Planned(seg: Segment, format: Format, pages: seq<seq<Slot>>)

  // ----- writing -----

  function Steps(f: Format, slots: seq<Slot>): nat
    requires slots != []
  {
    if |slots| > 1 && slots[0].offset <= slots[1].offset then (slots[1].offset - slots[0].offset) / Stride(f) else 0
  }

  /** A page's slots as the words of one chain, each pointing at the next. */
  function ChainWords(f: Format, slots: seq<Slot>): (r: seq<Patch>)
    ensures |r| == |slots|
    ensures forall i :: 0 <= i < |slots| ==> r[i].offset == slots[i].offset
  {
    if slots == [] then []
    else
      [Patch(slots[0].offset, ChainedPointers.Encode(f, slots[0].pointer, Steps(f, slots)))] + ChainWords(f, slots[1..])
  }

  function PageWords(f: Format, pages: seq<seq<Slot>>): seq<Patch> {
    if pages == [] then [] else ChainWords(f, pages[0]) + PageWords(f, pages[1..])
  }

  function PlanWords(plan: seq<Option<Planned>>): seq<Patch> {
    if plan == [] then []
    else (if plan[0].Some? then PageWords(plan[0].value.format, plan[0].value.pages) else []) + PlanWords(plan[1..])
  }

  // ----- what should come back -----

  /** Library ordinal and name of each import. */
  type Imports = seq<(nat, seq<Byte>)>

  predicate Named(slot: Slot, imports: Imports) {
    slot.Entry().BindTo? ==> slot.Entry().ordinal < |imports|
  }

  function SlotFixup(slot: Slot, imports: Imports): Fixup
    requires Named(slot, imports)
  {
    match slot.Entry()
    case RebaseTo(target) => Fixup(slot.offset, Rebase(target))
    case BindTo(ordinal, addend, isAuth) =>
      Fixup(slot.offset, Bind(imports[ordinal].1, imports[ordinal].0, isAuth, addend))
  }

  predicate AllNamed(slots: seq<Slot>, imports: Imports) {
    forall i :: 0 <= i < |slots| ==> Named(slots[i], imports)
  }

  function ChainFixups(slots: seq<Slot>, imports: Imports): (r: seq<Fixup>)
    requires AllNamed(slots, imports)
    ensures |r| == |slots|
  {
    if slots == [] then [] else [SlotFixup(slots[0], imports)] + ChainFixups(slots[1..], imports)
  }

  predicate PagesNamed(pages: seq<seq<Slot>>, imports: Imports) {
    forall i :: 0 <= i < |pages| ==> AllNamed(pages[i], imports)
  }

  function PageFixups(pages: seq<seq<Slot>>, imports: Imports): seq<Fixup>
    requires PagesNamed(pages, imports)
  {
    if pages == [] then [] else ChainFixups(pages[0], imports) + PageFixups(pages[1..], imports)
  }

  predicate PlanNamed(plan: seq<Option<Planned>>, imports: Imports) {
    forall i :: 0 <= i < |plan| ==> plan[i].Some? ==> PagesNamed(plan[i].value.pages, imports)
  }

  function PlanFixups(plan: seq<Option<Planned>>, imports: Imports): seq<Fixup>
    requires PlanNamed(plan, imports)
  {
    if plan == [] then []
    else (if plan[0].Some? then PageFixups(plan[0].value.pages, imports) else []) + PlanFixups(plan[1..], imports)
  }

  // ----- what an image must offer -----

  /** Slots a chain can hold: 8 bytes apart at least, by multiples of the stride that fit the `next` field. */
  predicate ChainFits(f: Format, slots: seq<Slot>) {
    && slots != []
    && (forall i :: 0 <= i < |slots| ==> Encodable(f, slots[i].pointer))
    && (forall i :: 0 <= i < |slots| - 1 ==> GapFits(f, slots[i].offset, slots[i + 1].offset))
  }

  predicate GapFits(f: Format, a: nat, b: nat) {
    a + 8 <= b && (b - a) % Stride(f) == 0 && (b - a) / Stride(f) < NextLimit(f)
  }

  predicate PlanFits(plan: seq<Option<Planned>>) {
    forall i :: 0 <= i < |plan| && plan[i].Some? ==> PagesFit(plan[i].value)
  }

  predicate PagesFit(p: Planned) {
    forall i :: 0 <= i < |p.pages| ==> ChainFits(p.format, p.pages[i])
  }

  /** The segment's page table starts page `page`'s chain at its first slot. */
  predicate PageDescribed(bytes: seq<Byte>, p: Planned, page: nat)
    requires page < |p.pages|
  {
    && p.pages[page] != []
    && PageStart(bytes, p.seg, page).Ok?
    && ChainStart(p.seg, page, PageStart(bytes, p.seg, page).value) == p.pages[page][0].offset
  }

  predicate SegmentDescribed(bytes: seq<Byte>, p: Planned) {
    && p.seg.pages == |p.pages| && FormatOf(p.seg.format) == Some(p.format)
    && forall i :: 0 <= i < |p.pages| ==> PageDescribed(bytes, p, i)
  }

  function RecordOf(p: Option<Planned>): Option<Segment> {
    match p
    case None => None
    case Some(planned) => Some(planned.seg)
  }

  /** The metadata of the image announces the plan. */
  predicate Described(bytes: seq<Byte>, header: Header, plan: seq<Option<Planned>>) {
    && header.segments == |plan|
    && forall i :: 0 <= i < |plan| ==>
         SegmentAt(bytes, header, i) == Ok(RecordOf(plan[i]))
             && (plan[i].Some? ==> SegmentDescribed(bytes, plan[i].value))
  }

  /** The import that a slot binds to is read as what it should be. */
  predicate SlotImported(bytes: seq<Byte>, tables: Tables, slot: Slot, imports: Imports)
    requires Named(slot, imports)
  {
    slot.Entry().BindTo? ==> ImportAt(bytes, tables, slot.Entry().ordinal) == Ok(imports[slot.Entry().ordinal])
  }

  predicate ChainImported(bytes: seq<Byte>, tables: Tables, slots: seq<Slot>, imports: Imports)
    requires AllNamed(slots, imports)
  {
    forall i :: 0 <= i < |slots| ==> SlotImported(bytes, tables, slots[i], imports)
  }

  predicate PagesImported(bytes: seq<Byte>, tables: Tables, pages: seq<seq<Slot>>, imports: Imports)
    requires PagesNamed(pages, imports)
  {
    forall i :: 0 <= i < |pages| ==> ChainImported(bytes, tables, pages[i], imports)
  }

  /** Every import that the plan uses is read as what it should be. */
  predicate PlanImported(bytes: seq<Byte>, tables: Tables, plan: seq<Option<Planned>>, imports: Imports)
    requires PlanNamed(plan, imports)
  {
    forall i :: 0 <= i < |plan| && plan[i].Some? ==> PagesImported(bytes, tables, plan[i].value.pages, imports)
  }

  predicate Standing(bytes: seq<Byte>, ps: seq<Patch>) {
    forall i :: 0 <= i < |ps| ==> Read(bytes, ps[i].offset, 8) == Some(ps[i].value)
  }

  // ----- reading back -----

  lemma StandingSplit(bytes: seq<Byte>, a: seq<Patch>, b: seq<Patch>)
    requires Standing(bytes, a + b)
    ensures Standing(bytes, a) && Standing(bytes, b)
  {
    forall i | 0 <= i < |a|
      ensures Read(bytes, a[i].offset, 8) == Some(a[i].value)
    {
      assert (a + b)[i] == a[i];
    }
    forall i | 0 <= i < |b|
      ensures Read(bytes, b[i].offset, 8) == Some(b[i].value)
    {
      assert (a + b)[|a| + i] == b[i];
    }
  }

  /** Parsed parts in a row are what they should be exactly when each part is, if the first has the right length. */
  lemma BothSplit(a: Outcome<seq<Fixup>>, b: Outcome<seq<Fixup>>, first: seq<Fixup>, second: seq<Fixup>)
    requires a.Ok? ==> |a.value| == |first|
    ensures Both(a, b) == Ok(first + second) <==> a == Ok(first) && b == Ok(second)
  {
    if a.Ok? && b.Ok? && a.value + b.value == first + second {
      assert (a.value + b.value)[..|first|] == a.value && (first + second)[..|first|] == first;
      assert (a.value + b.value)[|first|..] == b.value && (first + second)[|first|..] == second;
    }
  }

  /**
   The word of a slot parses to the distance to the next slot, and to its fixup exactly when its import is read
   right.
   */
  lemma SlotParsed(bytes: seq<Byte>, tables: Tables, code: nat, f: Format, slots: seq<Slot>, imports: Imports)
    requires ChainFits(f, slots) && FormatOf(code) == Some(f)
    requires Read(bytes, slots[0].offset, 8) == Some(ChainedPointers.Encode(f, slots[0].pointer, Steps(f, slots)))
    requires Named(slots[0], imports)
    ensures var r := ParseOne(bytes, tables, code, slots[0].offset);
      && (r.Ok? ==> r.value.0 == if |slots| > 1 then slots[1].offset - slots[0].offset else 0)
      && (r.Ok? && r.value.1 == SlotFixup(slots[0], imports) <==> SlotImported(bytes, tables, slots[0], imports))
  {
    hide Decode, ChainedPointers.Encode, ImportAt, Read, FormatOf;
    if |slots| > 1 {
      assert GapFits(f, slots[0].offset, slots[1].offset);
    }
    WordRoundTrip(f, slots[0].pointer, Steps(f, slots));
  }

  /** A word that packs the pointer in this format parses to the pointer's entry and the distance packed with it. */
  ghost predicate ParsesAs(bytes: seq<Byte>, tables: Tables, code: nat, offset: nat, f: Format) {
    forall p: Pointer, steps: nat ::
      Encodable(f, p) && steps < NextLimit(f) && Read(bytes, offset, 8) == Some(ChainedPointers.Encode(f, p, steps)) ==>
        var fixup := FixupOf(bytes, tables, offset, p.Entry());
        ParseOne(bytes, tables, code, offset)
          == if fixup.Ok? then Ok((steps * Stride(f), fixup.value)) else fixup.PropagateFailure()
  }

  /** The layout that each format code stands for; with any other code, a word that can be read panics. */
  lemma FormatCodes(bytes: seq<Byte>, tables: Tables, offset: nat)
    ensures ParsesAs(bytes, tables, 1, offset, Arm64e) && ParsesAs(bytes, tables, 9, offset, Arm64e)
    ensures ParsesAs(bytes, tables, 2, offset, Ptr64) && ParsesAs(bytes, tables, 6, offset, Ptr64)
    ensures ParsesAs(bytes, tables, 12, offset, Userland24)
    ensures offset + 8 <= |bytes| ==>
              forall code: nat :: code !in {1, 2, 6, 9, 12} ==> ParseOne(bytes, tables, code, offset) == Panic
  {
    hide Decode, ChainedPointers.Encode, FixupOf, Encodable;
    forall f, p: Pointer, steps: nat | Encodable(f, p) && steps < NextLimit(f)
      ensures Decode(f, ChainedPointers.Encode(f, p, steps)) == Link(steps * Stride(f), p.Entry())
    {
      WordRoundTrip(f, p, steps);
    }
  }

  lemma {:induction false} ChainParsed(bytes: seq<Byte>, tables: Tables, code: nat, f: Format, slots: seq<Slot>,
                                       imports: Imports)
    requires ChainFits(f, slots) && FormatOf(code) == Some(f) && Standing(bytes, ChainWords(f, slots))
    requires AllNamed(slots, imports)
    ensures var r := ParseChain(bytes, tables, code, slots[0].offset);
      && (r.Ok? ==> |r.value| == |slots|)
      && (r == Ok(ChainFixups(slots, imports)) <==> ChainImported(bytes, tables, slots, imports))
    decreases |slots|
  {
    hide ParseOne, ParseChain, ChainedPointers.Encode, Read, FormatOf, Encodable, SlotImported, SlotFixup;
    var words := ChainWords(f, slots);
    assert Read(bytes, words[0].offset, 8) == Some(words[0].value);
    SlotParsed(bytes, tables, code, f, slots, imports);
    ChainStep(bytes, tables, code, slots[0].offset);
    var one, rest := ParseOne(bytes, tables, code, slots[0].offset), slots[1..];
    if |slots| > 1 {
      assert GapFits(f, slots[0].offset, slots[1].offset);
      TailFits(f, slots);
      StandingSplit(bytes, [words[0]], ChainWords(f, rest));
      ChainParsed(bytes, tables, code, f, rest, imports);
      if one.Ok? {
        BothSplit(Ok([one.value.1]), ParseChain(bytes, tables, code, slots[1].offset), [SlotFixup(slots[0], imports)],
            ChainFixups(rest, imports));
      }
      ImportedRest(bytes, tables, slots, imports);
    } else {
      assert ChainFixups(slots, imports) == [SlotFixup(slots[0], imports)] + [] == [SlotFixup(slots[0], imports)];
    }
  }

  lemma ImportedRest(bytes: seq<Byte>, tables: Tables, slots: seq<Slot>, imports: Imports)
    requires AllNamed(slots, imports) && slots != []
    ensures ChainImported(bytes, tables, slots, imports)
       <==> SlotImported(bytes, tables, slots[0], imports) && ChainImported(bytes, tables, slots[1..], imports)
  {
    hide SlotImported;
  }

  lemma TailFits(f: Format, slots: seq<Slot>)
    requires ChainFits(f, slots) && |slots| > 1
    ensures ChainFits(f, slots[1..])
  {
    var rest := slots[1..];
    forall i | 0 <= i < |rest| - 1
      ensures GapFits(f, rest[i].offset, rest[i + 1].offset)
    {
      assert GapFits(f, slots[i + 1].offset, slots[i + 2].offset);
    }
  }

  lemma {:induction false} PagesParsed(bytes: seq<Byte>, tables: Tables, p: Planned, page: nat, imports: Imports)
    requires page <= |p.pages| && SegmentDescribed(bytes, p) && PagesFit(p)
    requires Standing(bytes, PageWords(p.format, p.pages[page..]))
    requires PagesNamed(p.pages, imports)
    ensures var r, expected := ParsePages(bytes, tables, p.seg, page), PageFixups(p.pages[page..], imports);
      && (r.Ok? ==> |r.value| == |expected|)
      && (r == Ok(expected) <==> PagesImported(bytes, tables, p.pages[page..], imports))
    decreases |p.pages| - page
  {
    hide ParseChain, ParsePages, ChainFits, Standing, FormatOf, ChainImported, PageStart, ChainStart, AllNamed;
    PagesStep(bytes, tables, p.seg, page);
    if page < |p.pages| {
      var todo := p.pages[page..];
      assert todo[0] == p.pages[page] && todo[1..] == p.pages[page + 1..];
      assert PageDescribed(bytes, p, page);
      StandingSplit(bytes, ChainWords(p.format, todo[0]), PageWords(p.format, todo[1..]));
      ChainParsed(bytes, tables, p.seg.format, p.format, todo[0], imports);
      PagesParsed(bytes, tables, p, page + 1, imports);
      BothSplit(ParseChain(bytes, tables, p.seg.format, todo[0][0].offset), ParsePages(bytes, tables, p.seg, page + 1),
                ChainFixups(todo[0], imports), PageFixups(todo[1..], imports));
      PagesImportedRest(bytes, tables, todo, imports);
    }
  }

  lemma PagesImportedRest(bytes: seq<Byte>, tables: Tables, pages: seq<seq<Slot>>, imports: Imports)
    requires PagesNamed(pages, imports) && pages != []
    ensures PagesImported(bytes, tables, pages, imports)
       <==> ChainImported(bytes, tables, pages[0], imports) && PagesImported(bytes, tables, pages[1..], imports)
  {
    hide ChainImported;
  }

  lemma {:induction false} SegmentsParsed(bytes: seq<Byte>, header: Header, plan: seq<Option<Planned>>, index: nat,
                                          imports: Imports)
    requires index <= |plan| && Described(bytes, header, plan) && PlanFits(plan)
    requires Standing(bytes, PlanWords(plan[index..])) && PlanNamed(plan, imports)
    ensures ParseSegments(bytes, header, index) == Ok(PlanFixups(plan[index..], imports))
       <==> PlanImported(bytes, header.tables, plan[index..], imports)
    decreases |plan| - index
  {
    hide ParsePages, ParseSegments, SegmentAt, PagesFit, Standing, PagesImported, SegmentDescribed, PagesNamed;
    SegmentsStep(bytes, header, index);
    if index < |plan| {
      var todo := plan[index..];
      assert todo[0] == plan[index] && todo[1..] == plan[index + 1..];
      assert SegmentAt(bytes, header, index) == Ok(RecordOf(plan[index]));
      var words := if todo[0].Some? then PageWords(todo[0].value.format, todo[0].value.pages) else [];
      assert PlanWords(todo) == words + PlanWords(todo[1..]);
      StandingSplit(bytes, words, PlanWords(todo[1..]));
      SegmentsParsed(bytes, header, plan, index + 1, imports);
      PlanImportedRest(bytes, header.tables, todo, imports);
      if todo[0].Some? {
        var p := todo[0].value;
        assert p.pages[0..] == p.pages;
        PagesParsed(bytes, header.tables, p, 0, imports);
        BothSplit(ParsePages(bytes, header.tables, p.seg, 0), ParseSegments(bytes, header, index + 1),
                  PageFixups(p.pages, imports), PlanFixups(todo[1..], imports));
      } else {
        assert [] + PlanFixups(todo[1..], imports) == PlanFixups(todo[1..], imports);
      }
    }
  }

  lemma PlanImportedRest(bytes: seq<Byte>, tables: Tables, plan: seq<Option<Planned>>, imports: Imports)
    requires PlanNamed(plan, imports) && plan != []
    ensures PlanNamed(plan[1..], imports)
    ensures PlanImported(bytes, tables, plan, imports)
       <==> (plan[0].Some? ==> PagesImported(bytes, tables, plan[0].value.pages, imports))
            && PlanImported(bytes, tables, plan[1..], imports)
  {
    hide PagesImported, PagesNamed;
  }

  /**
   An image in which a plan's words stand, its metadata announcing them, parses to the plan's fixups, in
   order, exactly when every import the plan uses is read right.
   */
  lemma {:induction false} PlanParsed(bytes: seq<Byte>, at: nat, header: Header, plan: seq<Option<Planned>>,
                                      imports: Imports)
    requires HeaderAt(bytes, at) == Ok(header) && Described(bytes, header, plan) && PlanFits(plan)
    requires Standing(bytes, PlanWords(plan)) && PlanNamed(plan, imports)
    ensures ParseAll(bytes, Some(at)) == Ok(PlanFixups(plan, imports))
          <==> PlanImported(bytes, header.tables, plan, imports)
  {
    hide HeaderAt, ParseSegments, Described, PlanFits, Standing, PlanNamed, PlanImported;
    assert plan[0..] == plan;
    SegmentsParsed(bytes, header, plan, 0, imports);
  }

  // ----- writing keeps the metadata -----

  /** The two images agree from `fence` on. */
  predicate Beyond(a: seq<Byte>, b: seq<Byte>, fence: nat) {
    |a| == |b| && forall k :: fence <= k < |a| ==> a[k] == b[k]
  }

  lemma ReadBeyond(a: seq<Byte>, b: seq<Byte>, fence: nat, offset: nat, n: nat)
    requires Beyond(a, b, fence) && offset >= fence
    ensures Read(a, offset, n) == Read(b, offset, n)
  {
    if offset + n <= |a| {
      assert a[offset..offset + n] == b[offset..offset + n];
    }
  }

  lemma {:induction false} NulBeyond(a: seq<Byte>, b: seq<Byte>, fence: nat, offset: nat)
    requires Beyond(a, b, fence) && fence <= offset <= |a|
    ensures NulAt(a, offset) == NulAt(b, offset)
    decreases |a| - offset
  {
    if offset < |a| {
      NulBeyond(a, b, fence, offset + 1);
    }
  }

  lemma NameBeyond(a: seq<Byte>, b: seq<Byte>, fence: nat, offset: nat)
    requires Beyond(a, b, fence) && offset >= fence
    ensures NameAt(a, offset) == NameAt(b, offset)
  {
    hide Utf8;
    if offset <= |a| {
      NulBeyond(a, b, fence, offset);
      var n := NulAt(a, offset);
      if n.Some? {
        assert a[offset..offset + n.value] == b[offset..offset + n.value];
      }
    }
  }

  lemma ImportBeyond(a: seq<Byte>, b: seq<Byte>, fence: nat, tables: Tables, ordinal: nat)
    requires Beyond(a, b, fence) && tables.imports >= fence && tables.symbols >= fence
    ensures ImportAt(a, tables, ordinal) == ImportAt(b, tables, ordinal)
  {
    hide Read, NameAt, And, Shr;
    ReadBeyond(a, b, fence, tables.imports + ordinal * 4, 4);
    ReadBeyond(a, b, fence, tables.imports + ordinal * 8, 4);
    ReadBeyond(a, b, fence, tables.imports + ordinal * 8 + 4, 4);
    ReadBeyond(a, b, fence, tables.imports + ordinal * 16, 4);
    ReadBeyond(a, b, fence, tables.imports + ordinal * 16 + 4, 8);
    var fields := ImportFields(a, tables, ordinal);
    if fields.Ok? {
      NameBeyond(a, b, fence, tables.symbols + fields.value.1);
    }
  }

  lemma HeaderBeyond(a: seq<Byte>, b: seq<Byte>, fence: nat, at: nat, header: Header)
    requires Beyond(a, b, fence) && at >= fence && HeaderAt(a, at) == Ok(header) && header.starts >= fence
    ensures HeaderAt(b, at) == Ok(header)
  {
    hide Read;
    ReadBeyond(a, b, fence, at + 4, 4);
    ReadBeyond(a, b, fence, at + 8, 4);
    ReadBeyond(a, b, fence, at + 12, 4);
    ReadBeyond(a, b, fence, at + 20, 4);
    ReadBeyond(a, b, fence, header.starts, 4);
  }

  /** The record of segment `index` and its page table lie beyond the fence. */
  predicate RecordBeyond(bytes: seq<Byte>, header: Header, index: nat, fence: nat) {
    var offset := Read(bytes, header.starts + 4 + index * 4, 4);
    && offset.Some?
    && (|| offset.value == 0
        || (&& (header.starts + offset.value) % U32 >= fence
            && ((header.starts + offset.value) % U32 + 22) % U32 >= fence))
  }

  lemma SegmentBeyond(a: seq<Byte>, b: seq<Byte>, fence: nat, header: Header, index: nat)
    requires Beyond(a, b, fence) && header.starts >= fence && RecordBeyond(a, header, index, fence)
    ensures SegmentAt(a, header, index) == SegmentAt(b, header, index)
    ensures var s := SegmentAt(a, header, index); s.Ok? && s.value.Some? ==> s.value.value.starts >= fence
  {
    hide Read;
    ReadBeyond(a, b, fence, header.starts + 4 + index * 4, 4);
    var offset := Read(a, header.starts + 4 + index * 4, 4).value;
    if offset != 0 {
      var at := (header.starts + offset) % U32;
      ReadBeyond(a, b, fence, at + 4, 2);
      ReadBeyond(a, b, fence, at + 6, 2);
      ReadBeyond(a, b, fence, at + 8, 8);
      ReadBeyond(a, b, fence, at + 20, 2);
    }
  }

  lemma PagesBeyond(a: seq<Byte>, b: seq<Byte>, fence: nat, p: Planned)
    requires Beyond(a, b, fence) && p.seg.starts >= fence && SegmentDescribed(a, p)
    ensures SegmentDescribed(b, p)
  {
    hide Read, ChainStart, FormatOf;
    forall i | 0 <= i < |p.pages|
      ensures PageDescribed(b, p, i)
    {
      assert PageDescribed(a, p, i);
      ReadBeyond(a, b, fence, p.seg.starts + i * 2, 2);
    }
  }

  lemma DescribedBeyond(a: seq<Byte>, b: seq<Byte>, fence: nat, header: Header, plan: seq<Option<Planned>>)
    requires Beyond(a, b, fence) && header.starts >= fence && Described(a, header, plan)
    requires forall i :: 0 <= i < |plan| ==> RecordBeyond(a, header, i, fence)
    ensures Described(b, header, plan)
  {
    hide Read, SegmentAt, SegmentDescribed, Beyond, RecordBeyond;
    forall i | 0 <= i < |plan|
      ensures SegmentAt(b, header, i) == Ok(RecordOf(plan[i])) && (plan[i].Some? ==> SegmentDescribed(b, plan[i].value))
    {
      assert RecordBeyond(a, header, i, fence);
      SegmentBeyond(a, b, fence, header, i);
      if plan[i].Some? {
        PagesBeyond(a, b, fence, plan[i].value);
      }
    }
  }

  /** What the writer asks of an image: metadata for the plan beyond a fence, slots apart and before it. */
  predicate Prepared(bytes: seq<Byte>, fence: nat, at: nat, header: Header, plan: seq<Option<Planned>>,
                     imports: Imports) {
    && fence <= |bytes| && at >= fence && HeaderAt(bytes, at) == Ok(header)
    && header.starts >= fence && header.tables.imports >= fence && header.tables.symbols >= fence
    && Described(bytes, header, plan) && (forall i :: 0 <= i < |plan| ==> RecordBeyond(bytes, header, i, fence))
    && PlanFits(plan) && PlanNamed(plan, imports)
    && Inside(fence, PlanWords(plan)) && Apart(PlanWords(plan))
  }

  lemma {:induction false} ImportedBeyond(a: seq<Byte>, b: seq<Byte>, fence: nat, tables: Tables,
                                          plan: seq<Option<Planned>>, imports: Imports)
    requires Beyond(a, b, fence) && tables.imports >= fence && tables.symbols >= fence && PlanNamed(plan, imports)
    ensures PlanImported(a, tables, plan, imports) <==> PlanImported(b, tables, plan, imports)
  {
    hide ImportAt, Beyond;
    forall ordinal: nat
      ensures ImportAt(a, tables, ordinal) == ImportAt(b, tables, ordinal)
    {
      ImportBeyond(a, b, fence, tables, ordinal);
    }
  }

  /**
   Round trip: the words of a plan, written into an image prepared for it, parse to the plan's fixups,
   every segment, page and slot in order, with its offset, target or name, ordinal and addend, exactly
   when the image's imports that the plan uses are read right.
   */
  lemma {:induction false} WrittenThenParsed(bytes: seq<Byte>, fence: nat, at: nat, header: Header,
                                             plan: seq<Option<Planned>>, imports: Imports)
    requires Prepared(bytes, fence, at, header, plan, imports)
    ensures Inside(|bytes|, PlanWords(plan))
    ensures ParseAll(PutAll(bytes, PlanWords(plan)), Some(at)) == Ok(PlanFixups(plan, imports))
       <==> PlanImported(bytes, header.tables, plan, imports)
  {
    hide HeaderAt, ParseAll, Described, PlanFits, PlanNamed, PutAll, PlanImported, RecordBeyond, PlanWords;
    var words := PlanWords(plan);
    var written := PutAll(bytes, words);
    assert Beyond(bytes, written, fence) by {
      forall k | fence <= k < |bytes|
        ensures bytes[k] == written[k]
      {
        UntouchedAt(bytes, words, k);
      }
    }
    HeaderBeyond(bytes, written, fence, at, header);
    DescribedBeyond(bytes, written, fence, header, plan);
    ImportedBeyond(bytes, written, fence, header.tables, plan, imports);
    PlanValues(plan);
    forall i | 0 <= i < |words|
      ensures Read(written, words[i].offset, 8) == Some(words[i].value)
    {
      ReadBack(bytes, words, i);
    }
    PlanParsed(written, at, header, plan, imports);
  }

  lemma {:induction false} PlanValues(plan: seq<Option<Planned>>)
    requires PlanFits(plan)
    ensures forall i :: 0 <= i < |PlanWords(plan)| ==> PlanWords(plan)[i].value < U64
  {
    hide ChainFits;
    if plan != [] {
      PlanValues(plan[1..]);
      if plan[0].Some? {
        assert PagesFit(plan[0].value);
        PageValues(plan[0].value.format, plan[0].value.pages);
      }
    }
  }

  lemma {:induction false} PageValues(f: Format, pages: seq<seq<Slot>>)
    requires forall i :: 0 <= i < |pages| ==> ChainFits(f, pages[i])
    ensures forall i :: 0 <= i < |PageWords(f, pages)| ==> PageWords(f, pages)[i].value < U64
  {
    hide ChainFits;
    if pages != [] {
      PageValues(f, pages[1..]);
      ChainValues(f, pages[0]);
    }
  }

  lemma {:induction false} ChainValues(f: Format, slots: seq<Slot>)
    requires ChainFits(f, slots)
    ensures forall i :: 0 <= i < |slots| ==> ChainWords(f, slots)[i].value < U64
    decreases |slots|
  {
    hide ChainedPointers.Encode, Encodable;
    if |slots| > 1 {
      assert GapFits(f, slots[0].offset, slots[1].offset);
      TailFits(f, slots);
      ChainValues(f, slots[1..]);
    }
    WordFits(f, slots[0].pointer, Steps(f, slots));
  }

  // ----- imports -----

  /** A plain import: library ordinal, weak flag, name offset. */
  function ImportWord(ordinal: nat, weak: bool, nameOffset: nat): nat {
    ordinal + 0x100 * ((if weak then 1 else 0) + 2 * nameOffset)
  }

  /** A plain import and its name, as they stand in the tables, read back; the weak flag is ignored. */
  lemma {:induction false} ImportRead(bytes: seq<Byte>, tables: Tables, index: nat, ordinal: nat, weak: bool,
                                      nameOffset: nat, name: seq<Byte>)
    requires tables.importFormat == 1 && ordinal < 0x100 && nameOffset < 0x80_0000
    requires At(bytes, tables.imports + index * 4, Bytes.Encode(ImportWord(ordinal, weak, nameOffset), 4))
    requires CStringAt(bytes, tables.symbols + nameOffset, name) && NulFree(name)
    requires Utf8(name) && |name| <= NAME_CAPACITY
    ensures ImportAt(bytes, tables, index) == Ok((ordinal, name))
  {
    hide Utf8, NameAt, ImportFields, ImportWord, Bytes.Encode, At, CStringAt, NulFree;
    ImportWordRead(bytes, tables, index, ordinal, weak, nameOffset);
    NameAtMeaning(bytes, tables.symbols + nameOffset, name);
  }

  lemma ImportWordRead(bytes: seq<Byte>, tables: Tables, index: nat, ordinal: nat, weak: bool, nameOffset: nat)
    requires tables.importFormat == 1 && ordinal < 0x100 && nameOffset < 0x80_0000
    requires At(bytes, tables.imports + index * 4, Bytes.Encode(ImportWord(ordinal, weak, nameOffset), 4))
    ensures ImportFields(bytes, tables, index) == Ok((ordinal, nameOffset))
  {
    hide And, Shr, Bytes.Encode, Value, ImportWord;
    var word := ImportWord(ordinal, weak, nameOffset);
    ImportBits(ordinal, weak, nameOffset);
    Limits();
    ValueOfEncode(word, 4);
  }

  lemma ImportBits(ordinal: nat, weak: bool, nameOffset: nat)
    requires ordinal < 0x100 && nameOffset < 0x80_0000
    ensures var word := ImportWord(ordinal, weak, nameOffset);
      && word < U32 && And(word, 0xFF) == ordinal && Shr(And(word, 0xFFFF_FE00), 9) == nameOffset
  {
    hide And, Shr, Pow2;
    Widths();
    Pow2Small();
    var word, low := ImportWord(ordinal, weak, nameOffset), ordinal + 0x100 * (if weak then 1 else 0);
    LowField(ordinal, (if weak then 1 else 0) + 2 * nameOffset, 8);
    AndHighMask(word, 9, 32);
    DivModUnique(word, 0x200, nameOffset, low);
    ShrMeaning(0, nameOffset, 9);
  }

  // ----- imports with addends -----

  /** What follows the packed fields of an import: in format 2 an addend, in format 3 padding and an addend. */
  datatype Trailer = Trailer(padding: nat, addend: nat)

  predicate TrailerFits(format: nat, t: Trailer) {
    t.padding < U32 && t.addend < (if format == 2 then U32 else U64)
  }

  /** An import of format 2: the packed fields, then a 32-bit addend. */
  predicate AddendImportAt(bytes: seq<Byte>, tables: Tables, index: nat, ordinal: nat, weak: bool, nameOffset: nat,
                           t: Trailer) {
    && tables.importFormat == 2 && ordinal < 0x100 && nameOffset < 0x80_0000 && TrailerFits(2, t)
    && At(bytes, tables.imports + index * 8,
        Bytes.Encode(ImportWord(ordinal, weak, nameOffset), 4) + Bytes.Encode(t.addend, 4))
  }

  /** An import of format 3: the packed fields, padding up to the next multiple of 8, then a 64-bit addend. */
  predicate WideImportAt(bytes: seq<Byte>, tables: Tables, index: nat, ordinal: nat, weak: bool, nameOffset: nat,
                         t: Trailer) {
    && tables.importFormat == 3 && ordinal < 0x100 && nameOffset < 0x80_0000 && TrailerFits(3, t)
    && At(bytes, tables.imports + index * 16,
          Bytes.Encode(ImportWord(ordinal, weak, nameOffset), 4)
              + (Bytes.Encode(t.padding, 4) + Bytes.Encode(t.addend, 8)))
  }

  /** Where the parser looks for the name of an import, whatever offset its fields hold. */
  function TrailerOffset(format: nat, t: Trailer): nat {
    if format == 2 then t.addend else t.padding
  }

  /** The low bytes of a longer word. */
  lemma LowBytes(bytes: seq<Byte>, offset: nat, v: nat, n: nat, m: nat)
    requires At(bytes, offset, Bytes.Encode(v, n)) && v < Limit(n) && offset + n + m <= |bytes|
    ensures Read(bytes, offset, n + m).Some? && Read(bytes, offset, n + m).value % Limit(n) == v
  {
    hide Value, Bytes.Encode, Limit;
    var low, high := bytes[offset..offset + n], bytes[offset + n..offset + n + m];
    assert bytes[offset..offset + (n + m)] == low + high;
    ValueOfConcat(low, high);
    ValueOfEncode(v, n);
    LowPart(v, Limit(n), Value(high));
  }

  lemma LowPart(v: nat, limit: nat, high: nat)
    requires v < limit
    ensures (v + limit * high) % limit == v
  {
    DivModUnique(v + limit * high, limit, high, v);
  }

  /**
   In format 2 the parser takes the name offset from the addend: the import is read as written exactly
   when its addend happens to be its name offset.
   */
  lemma {:induction false} AddendImportRead(bytes: seq<Byte>, tables: Tables, index: nat, ordinal: nat, weak: bool,
                                            nameOffset: nat,
                                            t: Trailer)
    requires AddendImportAt(bytes, tables, index, ordinal, weak, nameOffset, t)
    ensures ImportFields(bytes, tables, index) == Ok((ordinal, t.addend))
    ensures ImportFields(bytes, tables, index) == Ok((ordinal, nameOffset)) <==> t.addend == nameOffset
  {
    hide And, Shr, Bytes.Encode, Value, ImportWord, At, Read;
    var at, word := tables.imports + index * 8, ImportWord(ordinal, weak, nameOffset);
    ImportBits(ordinal, weak, nameOffset);
    Limits();
    AtConcat(bytes, at, Bytes.Encode(word, 4), Bytes.Encode(t.addend, 4));
    ReadWritten(bytes, at, word, 4);
    ReadWritten(bytes, at + 4, t.addend, 4);
  }

  /**
   In format 3 the parser reads the addend right behind the packed fields, where the padding stands, and
   takes the name offset from its low half: the import is read as written exactly when its padding
   happens to be its name offset, whatever its addend.
   */
  lemma {:induction false} WideImportRead(bytes: seq<Byte>, tables: Tables, index: nat, ordinal: nat, weak: bool,
                                          nameOffset: nat,
                                          t: Trailer)
    requires WideImportAt(bytes, tables, index, ordinal, weak, nameOffset, t)
    ensures ImportFields(bytes, tables, index) == Ok((ordinal, t.padding))
    ensures ImportFields(bytes, tables, index) == Ok((ordinal, nameOffset)) <==> t.padding == nameOffset
  {
    hide And, Shr, Bytes.Encode, Value, ImportWord, At, Read;
    var at, word := tables.imports + index * 16, ImportWord(ordinal, weak, nameOffset);
    var padding, addend := Bytes.Encode(t.padding, 4), Bytes.Encode(t.addend, 8);
    ImportBits(ordinal, weak, nameOffset);
    Limits();
    AtConcat(bytes, at, Bytes.Encode(word, 4), padding + addend);
    AtConcat(bytes, at + 4, padding, addend);
    AtLength(bytes, at + 8, addend);
    ReadWritten(bytes, at, word, 4);
    LowBytes(bytes, at + 4, t.padding, 4, 4);
  }

  /** Such an import has its own name exactly when that name also stands where the parser looks. */
  lemma {:induction false} AddendImportNamed(bytes: seq<Byte>, tables: Tables, index: nat, ordinal: nat, weak: bool,
                                             nameOffset: nat,
                                             t: Trailer, name: seq<Byte>)
    requires AddendImportAt(bytes, tables, index, ordinal, weak, nameOffset, t)
          || WideImportAt(bytes, tables, index, ordinal, weak, nameOffset, t)
    requires CStringAt(bytes, tables.symbols + nameOffset, name) && NulFree(name) && Utf8(name)
          && |name| <= NAME_CAPACITY
    ensures var looked := TrailerOffset(tables.importFormat, t);
      && (looked == nameOffset ==> ImportAt(bytes, tables, index) == Ok((ordinal, name)))
      && (ImportAt(bytes, tables, index) == Ok((ordinal, name)) <==> NameAt(bytes, tables.symbols + looked) == Ok(name))
  {
    hide Utf8, NameAt, ImportFields, CStringAt, At, Bytes.Encode, ImportWord;
    if AddendImportAt(bytes, tables, index, ordinal, weak, nameOffset, t) {
      AddendImportRead(bytes, tables, index, ordinal, weak, nameOffset, t);
    } else {
      WideImportRead(bytes, tables, index, ordinal, weak, nameOffset, t);
    }
    NameAtMeaning(bytes, tables.symbols + nameOffset, name);
  }

  /** Format 2: an import named "b", with addend 0, where the name "a" stands, is read as an import of "a". */
  lemma {:induction false} AddendMisread(ordinal: nat)
    requires ordinal < 0x100
    ensures var bytes := (Bytes.Encode(ImportWord(ordinal, false, 2), 4) + Bytes.Encode(0, 4)) + [97, 0, 98, 0];
      && AddendImportAt(bytes, Tables(2, 0, 8), 0, ordinal, false, 2, Trailer(0, 0)) && CStringAt(bytes, 8 + 2, [98])
      && ImportAt(bytes, Tables(2, 0, 8), 0) == Ok((ordinal, [97]))
  {
    hide ImportFields, Bytes.Encode, ImportWord, NameAt;
    var fields := Bytes.Encode(ImportWord(ordinal, false, 2), 4) + Bytes.Encode(0, 4);
    var bytes := fields + [97, 0, 98, 0];
    assert bytes[0..8] == fields && bytes[8..10] == [97] + [0] && bytes[10..12] == [98] + [0];
    AddendImportRead(bytes, Tables(2, 0, 8), 0, ordinal, false, 2, Trailer(0, 0));
    assert Utf8([97]);
    NameAtMeaning(bytes, 8, [97]);
  }

  /**
   Format 3: an import named "b", whose addend is its name offset and whose padding is 0, is still read as one
   of "a".
   */
  lemma {:induction false} PaddingMisread(ordinal: nat)
    requires ordinal < 0x100
    ensures var bytes := (Bytes.Encode(ImportWord(ordinal, false, 2), 4) + (Bytes.Encode(0, 4) + Bytes.Encode(2, 8)))
          + [97, 0, 98, 0];
      && WideImportAt(bytes, Tables(3, 0, 16), 0, ordinal, false, 2, Trailer(0, 2)) && CStringAt(bytes, 16 + 2, [98])
      && ImportAt(bytes, Tables(3, 0, 16), 0) == Ok((ordinal, [97]))
  {
    hide ImportFields, Bytes.Encode, ImportWord, NameAt;
    var fields := Bytes.Encode(ImportWord(ordinal, false, 2), 4) + (Bytes.Encode(0, 4) + Bytes.Encode(2, 8));
    var bytes := fields + [97, 0, 98, 0];
    assert bytes[0..16] == fields && bytes[16..18] == [97] + [0] && bytes[18..20] == [98] + [0];
    WideImportRead(bytes, Tables(3, 0, 16), 0, ordinal, false, 2, Trailer(0, 2));
    assert Utf8([97]);
    NameAtMeaning(bytes, 16, [97]);
  }
}
