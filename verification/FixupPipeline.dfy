/** From a plan of fixups to a fixed-up image: writing, parsing and both passes of applying, end to end. */
module FixupPipeline {
  import opened Prelude
  import opened Bits
  import opened Bytes
  import opened FixupParser
  import opened Patches
  import opened FixupRoundTrip
  import opened FixupWriter
  import opened FixupApply

  /** The fixups stand, one by one, where the words of the chains stand. */
  predicate InStep(fixups: seq<Fixup>, words: seq<Patch>) {
    |fixups| == |words| && forall i :: 0 <= i < |words| ==> fixups[i].offset == words[i].offset
  }

  lemma InStepConcat(fixups: seq<Fixup>, words: seq<Patch>, moreFixups: seq<Fixup>, moreWords: seq<Patch>)
    requires InStep(fixups, words) && InStep(moreFixups, moreWords)
    ensures InStep(fixups + moreFixups, words + moreWords)
  {}

  lemma {:induction false} ChainInStep(f: ChainedPointers.Format, slots: seq<Slot>, imports: Imports)
    requires AllNamed(slots, imports)
    ensures InStep(ChainFixups(slots, imports), ChainWords(f, slots))
  {
    hide ChainedPointers.Encode;
    if slots != [] {
      ChainInStep(f, slots[1..], imports);
    }
  }

  lemma {:induction false} PagesInStep(f: ChainedPointers.Format, pages: seq<seq<Slot>>, imports: Imports)
    requires PagesNamed(pages, imports)
    ensures InStep(PageFixups(pages, imports), PageWords(f, pages))
  {
    hide AllNamed, InStep, ChainWords, ChainFixups;
    if pages == [] {
      NothingInStep();
    } else {
      ChainInStep(f, pages[0], imports);
      PagesInStep(f, pages[1..], imports);
      InStepConcat(ChainFixups(pages[0], imports), ChainWords(f, pages[0]), PageFixups(pages[1..], imports),
          PageWords(f, pages[1..]));
    }
  }

  lemma NothingInStep()
    ensures InStep([], [])
  {}

  lemma {:induction false} PlanInStep(plan: seq<Option<Planned>>, imports: Imports)
    requires PlanNamed(plan, imports)
    ensures InStep(PlanFixups(plan, imports), PlanWords(plan))
  {
    hide PagesNamed, InStep, PageWords, PageFixups;
    NothingInStep();
    if plan != [] {
      PlanInStep(plan[1..], imports);
      var fixups := if plan[0].Some? then PageFixups(plan[0].value.pages, imports) else [];
      var words := if plan[0].Some? then PageWords(plan[0].value.format, plan[0].value.pages) else [];
      if plan[0].Some? {
        PagesInStep(plan[0].value.format, plan[0].value.pages, imports);
      }
      InStepConcat(fixups, words, PlanFixups(plan[1..], imports), PlanWords(plan[1..]));
    }
  }

  /** The slots of a writable plan do not overlap. */
  lemma PlanSlotsApart(length: nat, plan: seq<Option<Planned>>, table: ImportTable)
    requires Writable(length, plan, table)
    ensures SlotsApart(PlanFixups(plan, table.items))
    ensures forall i :: 0 <= i < |PlanFixups(plan, table.items)| ==>
          PlanFixups(plan, table.items)[i].offset + 8 <= length
  {
    hide PlanFixups, PlanWords, PlanFits, PlanNamed, PlainNames, SegmentFits;
    PlanInStep(plan, table.items);
  }

  /**
   End to end: an image written from a plan parses to fixups which, applied to any memory the image is
   mapped into, in a rebase pass and a later pass over the binds, leave in every slot of the plan the
   pointer its entry asks for and every other byte alone.
   */
  lemma {:induction false} WrittenImageFixedUp(length: nat, plan: seq<Option<Planned>>, table: ImportTable,
                                               memory: seq<Byte>, early: Loader, loader: Loader)
    requires Writable(length, plan, table) && NamesFound(length, plan, table) && |memory| >= length + loader.pageZero
    requires early.base == loader.base && early.pageZero == loader.pageZero
    requires AllResolve(loader, PlanFixups(plan, table.items), false)
    ensures var fixups := PlanFixups(plan, table.items);
      && ParseAll(Write(length, plan, table), Some(length)) == Ok(fixups)
      && Mapped(|memory|, early, fixups, true) && Mapped(|memory|, loader, Binds(fixups), false)
      && var first := ApplyAll(memory, early, fixups, true);
         var second := ApplyAll(first.0, loader, Binds(fixups), false);
         && first.1.Ok? && second.1.Ok?
         && (forall i :: 0 <= i < |fixups| ==>
               && SlotRight(second.0, loader, fixups[i])
               && Read(second.0, fixups[i].offset + loader.pageZero, 8)
                   == Some(FixupValue(loader, fixups[i].kind).value))
         && (forall k :: 0 <= k < |memory| && !InSlot(loader, fixups, false, k) ==> second.0[k] == memory[k])
  {
    hide PlanFits, PlanNamed, PlainNames, SegmentFits, Inside, Apart, PlanWords, NamesAt, NameOffset, NamesFound,
      Write, ParseAll, PlanFixups, ApplyAll, FixupValue, Binds, Mapped, Read, InSlot, SlotRight, SlotsApart,
      AllResolve;
    WholeImageRoundTrip(length, plan, table);
    PlanSlotsApart(length, plan, table);
    BothPasses(memory, early, loader, PlanFixups(plan, table.items));
  }

  /** Two passes over fixups that all resolve, in slots apart and inside the memory. */
  lemma BothPasses(memory: seq<Byte>, early: Loader, loader: Loader, fixups: seq<Fixup>)
    requires early.base == loader.base && early.pageZero == loader.pageZero && SlotsApart(fixups)
    requires forall i :: 0 <= i < |fixups| ==> fixups[i].offset + loader.pageZero + 8 <= |memory|
    requires AllResolve(loader, fixups, false)
    ensures Mapped(|memory|, early, fixups, true) && Mapped(|memory|, loader, Binds(fixups), false)
    ensures var first := ApplyAll(memory, early, fixups, true);
      var second := ApplyAll(first.0, loader, Binds(fixups), false);
      && first.1.Ok? && second.1.Ok?
      && (forall i :: 0 <= i < |fixups| ==>
            && SlotRight(second.0, loader, fixups[i])
            && Read(second.0, fixups[i].offset + loader.pageZero, 8) == Some(FixupValue(loader, fixups[i].kind).value))
      && (forall k :: 0 <= k < |memory| && !InSlot(loader, fixups, false, k) ==> second.0[k] == memory[k])
  {
    hide ApplyAll, FixupValue, Binds, Mapped, Read, InSlot, SlotRight, SlotsApart;
    InsideMapped(|memory|, early, fixups, true);
    InsideMapped(|memory|, loader, fixups, false);
    ApplyMeaning(memory, loader, fixups, false);
    TwoPasses(memory, early, loader, fixups);
    SlotsHoldValues(memory, loader, fixups, false);
  }

  /** Slot by slot: what the words of a plan come to hold, by the pointers they were written from. */
  lemma {:induction false} RebasedSlot(loader: Loader, slot: Slot, imports: Imports, image: seq<Byte>)
    requires Named(slot, imports) && SlotRight(image, loader, SlotFixup(slot, imports))
    ensures var word := Read(image, slot.offset + loader.pageZero, 8);
      match slot.pointer
      case PlainRebase(target, _) => word == Some((loader.base + loader.pageZero + target) % U64)
      case SignedRebase(target, _) => word == Some((loader.base + loader.pageZero + target) % U64)
      case PlainBind(ordinal, _, _) =>
        imports[ordinal].0 == BIND_SPECIAL_DYLIB_WEAK_LOOKUP ==>
          word.Some? && exists offset ::
            DefinedFirst(loader.symbols, imports[ordinal].1, offset) && word.value == (loader.base + offset) % U64
      case SignedBind(ordinal, _, _) =>
        imports[ordinal].0 == BIND_SPECIAL_DYLIB_WEAK_LOOKUP ==>
          word.Some? && exists offset ::
            DefinedFirst(loader.symbols, imports[ordinal].1, offset) && word.value == (loader.base + offset) % U64
  {
    hide Read;
  }
}
