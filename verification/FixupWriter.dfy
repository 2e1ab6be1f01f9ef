/** A reference writer of chained fixups: a whole image, metadata and chains, from a list of fixups. */
module FixupWriter {
  import opened Prelude
  import opened Bits
  import opened Bytes
  import opened CStrings
  import opened ChainedPointers
  import opened FixupParser
  import opened Patches
  import opened FixupRoundTrip

  const HEADER_LENGTH: nat := 28
  const RECORD_LENGTH: nat := 24

  // ----- the metadata -----

  function RecordLength(p: Option<Planned>): nat {
    if p.None? then 0 else RECORD_LENGTH + 2 * |p.value.pages|
  }

  /** Where the first record stands, measured from the segment count: behind it and the offsets. */
  function FirstRecord(plan: seq<Option<Planned>>): nat {
    4 + 4 * |plan|
  }

  /** How far record `i` stands behind the first one. */
  function RecordOffset(plan: seq<Option<Planned>>, i: nat): nat
    requires i <= |plan|
  {
    if i == 0 then 0 else RecordLength(plan[0]) + RecordOffset(plan[1..], i - 1)
  }

  /** The offsets of the records, the next one standing at `next`; 0 for a segment without fixups. */
  function OffsetBytes(plan: seq<Option<Planned>>, next: nat): (s: seq<Byte>)
    ensures |s| == 4 * |plan|
  {
    if plan == [] then []
    else Bytes.Encode(if plan[0].None? then 0 else next, 4) + OffsetBytes(plan[1..], next + RecordLength(plan[0]))
  }

  /** How far into its page a chain starts. */
  function StartInPage(p: Planned, page: nat): nat
    requires page < |p.pages|
  {
    var at := p.seg.offset + page * p.seg.pageSize;
    if p.pages[page] != [] && p.pages[page][0].offset >= at then p.pages[page][0].offset - at else 0
  }

  function PageStartBytes(p: Planned, page: nat): (s: seq<Byte>)
    requires page <= |p.pages|
    ensures |s| == 2 * (|p.pages| - page)
    decreases |p.pages| - page
  {
    if page == |p.pages| then [] else Bytes.Encode(StartInPage(p, page), 2) + PageStartBytes(p, page + 1)
  }

  function RecordBytes(p: Planned): (s: seq<Byte>)
    ensures |s| == RECORD_LENGTH + 2 * |p.pages|
  {
    Bytes.Encode(0, 4) + (Bytes.Encode(p.seg.pageSize, 2)
        + (Bytes.Encode(p.seg.format, 2) + (Bytes.Encode(p.seg.offset, 8)
      + (Bytes.Encode(0, 4) + (Bytes.Encode(|p.pages|, 2) + (PageStartBytes(p, 0) + Bytes.Encode(0, 2)))))))
  }

  function RecordsBytes(plan: seq<Option<Planned>>): (s: seq<Byte>)
    ensures |s| == RecordOffset(plan, |plan|)
  {
    if plan == [] then []
    else (if plan[0].None? then [] else RecordBytes(plan[0].value)) + RecordsBytes(plan[1..])
  }

  /** The imports of an image, and how they are laid out: format 1 without trailers, 2 and 3 with them. */
  datatype ImportTable = ImportTable(format: nat, items: Imports, trailers: seq<Trailer>)

  /** How far the name of import `i` stands behind the first one. */
  function NameOffset(imports: Imports, i: nat): nat
    requires i <= |imports|
  {
    if i == 0 then 0 else |imports[0].1| + 1 + NameOffset(imports[1..], i - 1)
  }

  function EntryWidth(format: nat): nat {
    if format == 1 then 4 else if format == 2 then 8 else 16
  }

  /** One import: the packed fields, then, in the formats that have them, padding and addend. */
  function ImportEntry(format: nat, item: (nat, seq<Byte>), nameAt: nat, t: Trailer): (s: seq<Byte>)
    ensures |s| == EntryWidth(format)
  {
    Bytes.Encode(ImportWord(item.0, false, nameAt), 4)
    + (if format == 1 then []
       else if format == 2 then Bytes.Encode(t.addend, 4)
       else Bytes.Encode(t.padding, 4) + Bytes.Encode(t.addend, 8))
  }

  function ImportBytes(format: nat, imports: Imports, trailers: seq<Trailer>, nameAt: nat): (s: seq<Byte>)
    requires |trailers| == |imports|
    ensures |s| == |imports| * EntryWidth(format)
  {
    if imports == [] then []
    else
      ImportEntry(format, imports[0], nameAt, trailers[0])
      + ImportBytes(format, imports[1..], trailers[1..], nameAt + |imports[0].1| + 1)
  }

  function NameBytes(imports: Imports): (s: seq<Byte>)
    requires PlainNames(imports)
    ensures |s| == NameOffset(imports, |imports|)
  {
    if imports == [] then [] else (imports[0].1 + [0]) + NameBytes(imports[1..])
  }

  function EntriesLength(table: ImportTable): nat {
    |table.items| * EntryWidth(table.format)
  }

  /** Where the parts stand, measured from the header. */
  function ImportsAt(plan: seq<Option<Planned>>): nat {
    HEADER_LENGTH + 4 + 4 * |plan| + RecordOffset(plan, |plan|)
  }

  function NamesAt(plan: seq<Option<Planned>>, table: ImportTable): nat {
    ImportsAt(plan) + EntriesLength(table)
  }

  function HeaderBytes(plan: seq<Option<Planned>>, table: ImportTable): (s: seq<Byte>)
    ensures |s| == HEADER_LENGTH
  {
    Bytes.Encode(0, 4) + (Bytes.Encode(HEADER_LENGTH, 4)
        + (Bytes.Encode(ImportsAt(plan), 4) + (Bytes.Encode(NamesAt(plan, table), 4)
      + (Bytes.Encode(|table.items|, 4) + (Bytes.Encode(table.format, 4) + Bytes.Encode(0, 4))))))
  }

  function Metadata(plan: seq<Option<Planned>>, table: ImportTable): (s: seq<Byte>)
    requires TableFits(table)
    ensures |s| == NamesAt(plan, table) + NameOffset(table.items, |table.items|)
  {
    HeaderBytes(plan, table) + (Bytes.Encode(|plan|, 4) + (OffsetBytes(plan, FirstRecord(plan))
      + (RecordsBytes(plan) + (EntriesBytes(table) + NameBytes(table.items)))))
  }

  function EntriesBytes(table: ImportTable): (s: seq<Byte>)
    requires TableFits(table)
    ensures |s| == EntriesLength(table)
  {
    ImportBytes(table.format, table.items, table.trailers, 0)
  }

  // ----- what can be written -----

  predicate PlainNames(imports: Imports) {
    forall i :: 0 <= i < |imports| ==> PlainName(imports[i])
  }

  /** An import the plain format can hold and the parser accepts. */
  predicate PlainName(item: (nat, seq<Byte>)) {
    item.0 < 0x100 && NulFree(item.1) && Utf8(item.1) && |item.1| <= NAME_CAPACITY
  }

  predicate TableFits(table: ImportTable) {
    && 1 <= table.format <= 3 && PlainNames(table.items) && |table.trailers| == |table.items|
    && forall i :: 0 <= i < |table.trailers| ==> TrailerFits(table.format, table.trailers[i])
  }

  predicate SegmentFits(p: Planned) {
    && FormatOf(p.seg.format) == Some(p.format) && p.seg.pages == |p.pages| < 0x1_0000
    && p.seg.pageSize < 0x1_0000 && p.seg.offset < U64
    && forall i :: 0 <= i < |p.pages| ==> StartFits(p, i)
  }

  /** The chain of a page starts within the 64 KiB that a page start can span. */
  predicate StartFits(p: Planned, page: nat)
    requires page < |p.pages|
  {
    && p.pages[page] != []
    && p.seg.offset + page * p.seg.pageSize <= p.pages[page][0].offset < p.seg.offset + page * p.seg.pageSize + 0x1_0000
    && p.pages[page][0].offset < U64
  }

  /** A plan for an image of `length` bytes in front of its metadata. */
  predicate Writable(length: nat, plan: seq<Option<Planned>>, table: ImportTable) {
    && PlanFits(plan) && PlanNamed(plan, table.items) && TableFits(table)
    && (forall i :: 0 <= i < |plan| && plan[i].Some? ==> SegmentFits(plan[i].value))
    && Inside(length, PlanWords(plan)) && Apart(PlanWords(plan))
    && length + NamesAt(plan, table) + NameOffset(table.items, |table.items|) < U32
    && NameOffset(table.items, |table.items|) < 0x80_0000
  }

  /** The image with its metadata, before the chains are written. */
  function Blank(length: nat, plan: seq<Option<Planned>>, table: ImportTable): (s: seq<Byte>)
    requires TableFits(table)
    ensures |s| == length + NamesAt(plan, table) + NameOffset(table.items, |table.items|)
  {
    seq(length, _ => 0) + Metadata(plan, table)
  }

  function Write(length: nat, plan: seq<Option<Planned>>, table: ImportTable): (s: seq<Byte>)
    requires Writable(length, plan, table)
  {
    PutAll(Blank(length, plan, table), PlanWords(plan))
  }

  // ----- reading the parts -----

  lemma {:induction false} OffsetRead(bytes: seq<Byte>, cursor: nat, plan: seq<Option<Planned>>, next: nat, i: nat)
    requires At(bytes, cursor, OffsetBytes(plan, next)) && i < |plan| && next + RecordOffset(plan, i) < U32
    ensures Read(bytes, cursor + 4 * i, 4) == Some(if plan[i].None? then 0 else next + RecordOffset(plan, i))
    decreases i
  {
    hide At, Read, Bytes.Encode;
    var v := if plan[0].None? then 0 else next;
    AtConcat(bytes, cursor, Bytes.Encode(v, 4), OffsetBytes(plan[1..], next + RecordLength(plan[0])));
    if i == 0 {
      Limits();
      ReadWritten(bytes, cursor, v, 4);
    } else {
      OffsetRead(bytes, cursor + 4, plan[1..], next + RecordLength(plan[0]), i - 1);
    }
  }

  lemma {:induction false} RecordStands(bytes: seq<Byte>, cursor: nat, plan: seq<Option<Planned>>, i: nat)
    requires At(bytes, cursor, RecordsBytes(plan)) && i < |plan| && plan[i].Some?
    ensures At(bytes, cursor + RecordOffset(plan, i), RecordBytes(plan[i].value))
    decreases i
  {
    hide At, RecordBytes;
    var first := if plan[0].None? then [] else RecordBytes(plan[0].value);
    AtConcat(bytes, cursor, first, RecordsBytes(plan[1..]));
    if i > 0 {
      RecordStands(bytes, cursor + |first|, plan[1..], i - 1);
    }
  }

  lemma {:induction false} PageStartRead(bytes: seq<Byte>, cursor: nat, p: Planned, page: nat, i: nat)
    requires page <= i < |p.pages| && At(bytes, cursor, PageStartBytes(p, page)) && StartInPage(p, i) < 0x1_0000
    ensures Read(bytes, cursor + 2 * (i - page), 2) == Some(StartInPage(p, i))
    decreases i - page
  {
    hide At, Read, Bytes.Encode, StartInPage;
    AtConcat(bytes, cursor, Bytes.Encode(StartInPage(p, page), 2), PageStartBytes(p, page + 1));
    if page == i {
      Limits();
      ReadWritten(bytes, cursor, StartInPage(p, i), 2);
    } else {
      PageStartRead(bytes, cursor + 2, p, page + 1, i);
    }
  }

  lemma {:induction false} ImportStands(bytes: seq<Byte>, cursor: nat, format: nat, imports: Imports,
                                        trailers: seq<Trailer>, nameAt: nat, i: nat)
    requires |trailers| == |imports| && At(bytes, cursor, ImportBytes(format, imports, trailers, nameAt))
          && i < |imports|
    ensures At(bytes, cursor + i * EntryWidth(format),
          ImportEntry(format, imports[i], nameAt + NameOffset(imports, i), trailers[i]))
    decreases i
  {
    hide At, ImportEntry;
    var width := EntryWidth(format);
    var first, rest := ImportEntry(format, imports[0], nameAt, trailers[0]),
        ImportBytes(format, imports[1..], trailers[1..], nameAt + |imports[0].1| + 1);
    AtConcat(bytes, cursor, first, rest);
    if i > 0 {
      ImportStands(bytes, cursor + width, format, imports[1..], trailers[1..], nameAt + |imports[0].1| + 1, i - 1);
      assert cursor + width + (i - 1) * width == cursor + i * width;
    }
  }

  lemma {:induction false} NameStands(bytes: seq<Byte>, cursor: nat, imports: Imports, i: nat)
    requires PlainNames(imports) && At(bytes, cursor, NameBytes(imports)) && i < |imports|
    ensures CStringAt(bytes, cursor + NameOffset(imports, i), imports[i].1)
    ensures NameOffset(imports, i) <= NameOffset(imports, |imports|)
    decreases i
  {
    hide At, PlainName;
    AtConcat(bytes, cursor, imports[0].1 + [0], NameBytes(imports[1..]));
    if i > 0 {
      NameStands(bytes, cursor + |imports[0].1| + 1, imports[1..], i - 1);
    }
  }

  lemma {:induction false} RecordInside(plan: seq<Option<Planned>>, i: nat)
    requires i < |plan|
    ensures RecordOffset(plan, i) + RecordLength(plan[i]) <= RecordOffset(plan, |plan|)
    decreases i
  {
    if i > 0 {
      RecordInside(plan[1..], i - 1);
    }
  }

  // ----- the blank image is prepared for the plan -----

  /** The plan with its page tables where the writer puts them; `first` is where the first record stands. */
  function Placed(plan: seq<Option<Planned>>, first: nat): (r: seq<Option<Planned>>)
    ensures |r| == |plan|
    ensures forall i :: 0 <= i < |plan| ==> r[i] == PlacedOne(plan[i], first + RecordOffset(plan, i))
  {
    seq(|plan|, i requires 0 <= i < |plan| => PlacedOne(plan[i], first + RecordOffset(plan, i)))
  }

  function PlacedOne(p: Option<Planned>, at: nat): (r: Option<Planned>)
    ensures SamePages(p, r)
  {
    if p.None? then None else Some(p.value.(seg := p.value.seg.(starts := at + 22)))
  }

  predicate SamePages(a: Option<Planned>, b: Option<Planned>) {
    if a.None? then b.None? else b.Some? && b.value.format == a.value.format && b.value.pages == a.value.pages
  }

  lemma {:induction false} PlacedSame(plan: seq<Option<Planned>>, placed: seq<Option<Planned>>, imports: Imports)
    requires |placed| == |plan| && forall i :: 0 <= i < |plan| ==> SamePages(plan[i], placed[i])
    requires PlanNamed(plan, imports)
    ensures PlanWords(placed) == PlanWords(plan)
    ensures PlanNamed(placed, imports) && PlanFixups(placed, imports) == PlanFixups(plan, imports)
    decreases |plan|
  {
    hide PagesNamed, PageWords, PageFixups;
    if plan != [] {
      PlacedSame(plan[1..], placed[1..], imports);
      assert placed == [placed[0]] + placed[1..];
      assert SamePages(plan[0], placed[0]);
    }
  }

  /** A record and its page table read as the segment with its pages. */
  lemma {:induction false} RecordRead(bytes: seq<Byte>, at: nat, p: Planned)
    requires At(bytes, at, RecordBytes(p)) && SegmentFits(p)
    ensures Read(bytes, at + 4, 2) == Some(p.seg.pageSize) && Read(bytes, at + 6, 2) == Some(p.seg.format)
    ensures Read(bytes, at + 8, 8) == Some(p.seg.offset) && Read(bytes, at + 20, 2) == Some(|p.pages|)
    ensures At(bytes, at + 22, PageStartBytes(p, 0))
  {
    hide At, Read, Bytes.Encode, PageStartBytes;
    var starts := PageStartBytes(p, 0) + Bytes.Encode(0, 2);
    var fromPages := Bytes.Encode(|p.pages|, 2) + starts;
    var fromLimit := Bytes.Encode(0, 4) + fromPages;
    var fromOffset := Bytes.Encode(p.seg.offset, 8) + fromLimit;
    var fromFormat := Bytes.Encode(p.seg.format, 2) + fromOffset;
    var fromPageSize := Bytes.Encode(p.seg.pageSize, 2) + fromFormat;
    AtConcat(bytes, at, Bytes.Encode(0, 4), fromPageSize);
    AtConcat(bytes, at + 4, Bytes.Encode(p.seg.pageSize, 2), fromFormat);
    AtConcat(bytes, at + 6, Bytes.Encode(p.seg.format, 2), fromOffset);
    AtConcat(bytes, at + 8, Bytes.Encode(p.seg.offset, 8), fromLimit);
    AtConcat(bytes, at + 16, Bytes.Encode(0, 4), fromPages);
    AtConcat(bytes, at + 20, Bytes.Encode(|p.pages|, 2), starts);
    AtConcat(bytes, at + 22, PageStartBytes(p, 0), Bytes.Encode(0, 2));
    Limits();
    ReadWritten(bytes, at + 4, p.seg.pageSize, 2);
    ReadWritten(bytes, at + 6, p.seg.format, 2);
    ReadWritten(bytes, at + 8, p.seg.offset, 8);
    ReadWritten(bytes, at + 20, |p.pages|, 2);
  }

  lemma {:induction false} PagesRead(bytes: seq<Byte>, at: nat, p: Planned)
    requires At(bytes, at, RecordBytes(p)) && SegmentFits(p)
    ensures SegmentDescribed(bytes, PlacedOne(Some(p), at).value)
  {
    hide At, Read, RecordBytes, PageStartBytes, FormatOf;
    RecordRead(bytes, at, p);
    var q := PlacedOne(Some(p), at).value;
    forall i | 0 <= i < |p.pages|
      ensures PageDescribed(bytes, q, i)
    {
      assert StartFits(p, i);
      PageStartRead(bytes, at + 22, p, 0, i);
    }
  }

  /** The parts of the metadata, where they stand. */
  lemma {:induction false} PartsStand(bytes: seq<Byte>, at: nat, plan: seq<Option<Planned>>, table: ImportTable)
    requires TableFits(table) && At(bytes, at, Metadata(plan, table))
    ensures At(bytes, at, HeaderBytes(plan, table))
    ensures At(bytes, at + 28, Bytes.Encode(|plan|, 4)) && At(bytes, at + 32, OffsetBytes(plan, FirstRecord(plan)))
    ensures At(bytes, at + 32 + 4 * |plan|, RecordsBytes(plan))
    ensures At(bytes, at + ImportsAt(plan), EntriesBytes(table))
          && At(bytes, at + NamesAt(plan, table), NameBytes(table.items))
  {
    hide At, HeaderBytes, Bytes.Encode, OffsetBytes, RecordsBytes, EntriesBytes, NameBytes, NameOffset,
      RecordOffset, EntriesLength, PlainName;
    var tables := EntriesBytes(table) + NameBytes(table.items);
    var fromRecords := RecordsBytes(plan) + tables;
    var fromOffsets := OffsetBytes(plan, FirstRecord(plan)) + fromRecords;
    AtConcat(bytes, at, HeaderBytes(plan, table), Bytes.Encode(|plan|, 4) + fromOffsets);
    AtConcat(bytes, at + 28, Bytes.Encode(|plan|, 4), fromOffsets);
    AtConcat(bytes, at + 32, OffsetBytes(plan, FirstRecord(plan)), fromRecords);
    AtConcat(bytes, at + 32 + 4 * |plan|, RecordsBytes(plan), tables);
    AtConcat(bytes, at + ImportsAt(plan), EntriesBytes(table), NameBytes(table.items));
  }

  lemma {:induction false} HeaderStands(bytes: seq<Byte>, at: nat, plan: seq<Option<Planned>>, table: ImportTable)
    requires 1 <= table.format <= 3 && At(bytes, at, HeaderBytes(plan, table)) && at + NamesAt(plan, table) < U32
    ensures at + 28 <= |bytes|
    ensures Read(bytes, at + 4, 4) == Some(HEADER_LENGTH) && Read(bytes, at + 8, 4) == Some(ImportsAt(plan))
    ensures Read(bytes, at + 12, 4) == Some(NamesAt(plan, table)) && Read(bytes, at + 20, 4) == Some(table.format)
  {
    hide Read, Bytes.Encode, ImportsAt;
    var last := Bytes.Encode(table.format, 4) + Bytes.Encode(0, 4);
    var fromCount := Bytes.Encode(|table.items|, 4) + last;
    var fromNames := Bytes.Encode(NamesAt(plan, table), 4) + fromCount;
    var fromImports := Bytes.Encode(ImportsAt(plan), 4) + fromNames;
    var fromStarts := Bytes.Encode(HEADER_LENGTH, 4) + fromImports;
    assert |HeaderBytes(plan, table)| == 28;
    HeaderParts(bytes, at, fromStarts, fromImports, fromNames, fromCount, last, plan, table);
    Limits();
    ReadWritten(bytes, at + 4, HEADER_LENGTH, 4);
    ReadWritten(bytes, at + 8, ImportsAt(plan), 4);
    ReadWritten(bytes, at + 12, NamesAt(plan, table), 4);
    ReadWritten(bytes, at + 20, table.format, 4);
  }

  lemma {:induction false} HeaderParts(bytes: seq<Byte>, at: nat, fromStarts: seq<Byte>, fromImports: seq<Byte>,
                                       fromNames: seq<Byte>,
                    fromCount: seq<Byte>, last: seq<Byte>, plan: seq<Option<Planned>>, table: ImportTable)
    requires last == Bytes.Encode(table.format, 4) + Bytes.Encode(0, 4)
          && fromCount == Bytes.Encode(|table.items|, 4) + last
    requires fromNames == Bytes.Encode(NamesAt(plan, table), 4) + fromCount
    requires fromImports == Bytes.Encode(ImportsAt(plan), 4) + fromNames
    requires fromStarts == Bytes.Encode(HEADER_LENGTH, 4) + fromImports
    requires At(bytes, at, Bytes.Encode(0, 4) + fromStarts)
    ensures At(bytes, at + 4, Bytes.Encode(HEADER_LENGTH, 4)) && At(bytes, at + 8, Bytes.Encode(ImportsAt(plan), 4))
    ensures At(bytes, at + 12, Bytes.Encode(NamesAt(plan, table), 4))
          && At(bytes, at + 20, Bytes.Encode(table.format, 4))
  {
    hide At, Bytes.Encode, ImportsAt, NamesAt;
    AtConcat(bytes, at, Bytes.Encode(0, 4), fromStarts);
    AtConcat(bytes, at + 4, Bytes.Encode(HEADER_LENGTH, 4), fromImports);
    AtConcat(bytes, at + 8, Bytes.Encode(ImportsAt(plan), 4), fromNames);
    AtConcat(bytes, at + 12, Bytes.Encode(NamesAt(plan, table), 4), fromCount);
    AtConcat(bytes, at + 16, Bytes.Encode(|table.items|, 4), last);
    AtConcat(bytes, at + 20, Bytes.Encode(table.format, 4), Bytes.Encode(0, 4));
  }

  function HeaderOf(at: nat, plan: seq<Option<Planned>>, table: ImportTable): Header {
    Header(at + HEADER_LENGTH, |plan|, Tables(table.format, at + ImportsAt(plan), at + NamesAt(plan, table)))
  }

  lemma {:induction false} HeaderRead(bytes: seq<Byte>, at: nat, plan: seq<Option<Planned>>, table: ImportTable)
    requires TableFits(table) && At(bytes, at, Metadata(plan, table)) && at + NamesAt(plan, table) < U32
    ensures HeaderAt(bytes, at) == Ok(HeaderOf(at, plan, table))
  {
    hide At, Read, Bytes.Encode, Metadata, HeaderBytes, OffsetBytes, RecordsBytes, ImportBytes, NameBytes,
      PlainNames, RecordOffset;
    PartsStand(bytes, at, plan, table);
    HeaderStands(bytes, at, plan, table);
    Limits();
    ReadWritten(bytes, at + 28, |plan|, 4);
  }

  lemma {:induction false} SegmentRead(bytes: seq<Byte>, at: nat, plan: seq<Option<Planned>>, table: ImportTable,
                                       i: nat)
    requires TableFits(table) && At(bytes, at, Metadata(plan, table)) && at + NamesAt(plan, table) < U32 && i < |plan|
    requires plan[i].Some? ==> SegmentFits(plan[i].value)
    ensures var header, q := HeaderOf(at, plan, table),
          PlacedOne(plan[i], at + 32 + 4 * |plan| + RecordOffset(plan, i));
      && SegmentAt(bytes, header, i) == Ok(RecordOf(q)) && (q.Some? ==> SegmentDescribed(bytes, q.value))
      && RecordBeyond(bytes, header, i, at)
  {
    hide At, Read, Bytes.Encode, Metadata, HeaderBytes, OffsetBytes, RecordsBytes, ImportBytes, NameBytes,
      PlainNames, RecordOffset, RecordBytes, SegmentDescribed, SegmentFits, PageStartBytes;
    PartsStand(bytes, at, plan, table);
    RecordInside(plan, i);
    OffsetRead(bytes, at + 32, plan, 4 + 4 * |plan|, i);
    if plan[i].Some? {
      var p, here := plan[i].value, at + 32 + 4 * |plan| + RecordOffset(plan, i);
      RecordStands(bytes, at + 32 + 4 * |plan|, plan, i);
      RecordRead(bytes, here, p);
      PagesRead(bytes, here, p);
      RecordWithin(bytes, here, p);
    }
  }

  lemma {:induction false} RecordWithin(bytes: seq<Byte>, at: nat, p: Planned)
    requires At(bytes, at, RecordBytes(p)) && SegmentFits(p)
    ensures at + 24 <= |bytes| && 1 <= p.seg.format <= 14 && p.seg.pages == |p.pages|
  {
    hide RecordBytes;
  }

  /**
   The name of import `i` stands where the parser looks for it: at its own offset, or where what follows its
   fields points.
   */
  predicate NameFound(bytes: seq<Byte>, at: nat, plan: seq<Option<Planned>>, table: ImportTable, i: nat)
    requires i < |table.items| && |table.trailers| == |table.items|
  {
    table.format == 1 || NameAt(bytes, at + NamesAt(plan, table) + TrailerOffset(table.format, table.trailers[i]))
        == Ok(table.items[i].1)
  }

  /** An import is read as written exactly when its name is found. */
  lemma {:induction false} ImportRead(bytes: seq<Byte>, at: nat, plan: seq<Option<Planned>>, table: ImportTable, i: nat)
    requires TableFits(table) && At(bytes, at, Metadata(plan, table)) && i < |table.items|
    requires NameOffset(table.items, |table.items|) < 0x80_0000
    ensures ImportAt(bytes, HeaderOf(at, plan, table).tables, i) == Ok(table.items[i])
          <==> NameFound(bytes, at, plan, table, i)
  {
    hide At, Bytes.Encode, Metadata, HeaderBytes, OffsetBytes, RecordsBytes, ImportBytes, NameBytes, NameOffset,
      RecordOffset, ImportAt, ImportWord, Utf8, CStringAt, NulFree, NameAt;
    PartsStand(bytes, at, plan, table);
    ImportStands(bytes, at + ImportsAt(plan), table.format, table.items, table.trailers, 0, i);
    NameStands(bytes, at + NamesAt(plan, table), table.items, i);
    assert PlainName(table.items[i]);
    var tables, item, nameAt := HeaderOf(at, plan, table).tables, table.items[i], NameOffset(table.items, i);
    if table.format == 1 {
      assert ImportEntry(1, item, nameAt, table.trailers[i]) == Bytes.Encode(ImportWord(item.0, false, nameAt), 4);
      FixupRoundTrip.ImportRead(bytes, tables, i, item.0, false, nameAt, item.1);
    } else {
      AddendImportNamed(bytes, tables, i, item.0, false, nameAt, table.trailers[i], item.1);
    }
  }

  lemma {:induction false} BlankPrepared(length: nat, plan: seq<Option<Planned>>, table: ImportTable)
    requires Writable(length, plan, table)
    ensures Prepared(Blank(length, plan, table), length, length, HeaderOf(length, plan, table),
                     Placed(plan, length + 32 + 4 * |plan|), table.items)
  {
    hide At, Metadata, HeaderAt, SegmentAt, SegmentDescribed, ImportAt, RecordBeyond, PlanWords, PlanFixups,
      SegmentFits, RecordOffset, NameOffset, PagesFit, PagesNamed, PlainName, Inside, Apart, PlacedOne;
    var bytes, header, placed := Blank(length, plan, table), HeaderOf(length, plan, table),
        Placed(plan, length + 32 + 4 * |plan|);
    BlankStands(length, plan, table);
    HeaderRead(bytes, length, plan, table);
    forall i | 0 <= i < |placed|
      ensures SegmentAt(bytes, header, i) == Ok(RecordOf(placed[i]))
            && (placed[i].Some? ==> SegmentDescribed(bytes, placed[i].value))
      ensures RecordBeyond(bytes, header, i, length)
      ensures placed[i].Some? ==> PagesFit(placed[i].value)
    {
      SegmentRead(bytes, length, plan, table, i);
      if plan[i].Some? {
        PlacedFits(plan[i].value, length + 32 + 4 * |plan| + RecordOffset(plan, i));
      }
    }
    PlacedSame(plan, placed, table.items);
  }

  lemma {:induction false} PlacedFits(p: Planned, at: nat)
    requires PagesFit(p)
    ensures PlacedOne(Some(p), at).Some? && PagesFit(PlacedOne(Some(p), at).value)
  {}

  lemma {:induction false} BlankStands(length: nat, plan: seq<Option<Planned>>, table: ImportTable)
    requires TableFits(table)
    ensures At(Blank(length, plan, table), length, Metadata(plan, table))
  {
    hide Metadata, RecordOffset, NameOffset, PlainNames;
  }

  /** Some slot of the plan binds to this import. */
  predicate Uses(plan: seq<Option<Planned>>, ordinal: nat) {
    exists i :: 0 <= i < |plan| && plan[i].Some? && PagesUse(plan[i].value.pages, ordinal)
  }

  predicate PagesUse(pages: seq<seq<Slot>>, ordinal: nat) {
    exists i :: 0 <= i < |pages| && ChainUses(pages[i], ordinal)
  }

  predicate ChainUses(slots: seq<Slot>, ordinal: nat) {
    exists i :: 0 <= i < |slots| && slots[i].Entry().BindTo? && slots[i].Entry().ordinal == ordinal
  }

  /** Every import that the plan uses has its name where the parser looks for it. */
  predicate NamesFound(length: nat, plan: seq<Option<Planned>>, table: ImportTable)
    requires Writable(length, plan, table)
  {
    forall ordinal :: 0 <= ordinal < |table.items| && Uses(plan, ordinal) ==>
        NameFound(Blank(length, plan, table), length, plan, table, ordinal)
  }

  lemma {:induction false} ImportedIfRead(bytes: seq<Byte>, tables: Tables, plan: seq<Option<Planned>>,
                                          imports: Imports)
    requires PlanNamed(plan, imports)
    ensures PlanImported(bytes, tables, plan, imports)
       <==> forall ordinal :: 0 <= ordinal < |imports| && Uses(plan, ordinal) ==>
           ImportAt(bytes, tables, ordinal) == Ok(imports[ordinal])
  {
    hide ImportAt;
    if PlanImported(bytes, tables, plan, imports) {
      forall ordinal | 0 <= ordinal < |imports| && Uses(plan, ordinal)
        ensures ImportAt(bytes, tables, ordinal) == Ok(imports[ordinal])
      {
        var i :| 0 <= i < |plan| && plan[i].Some? && PagesUse(plan[i].value.pages, ordinal);
        var pages := plan[i].value.pages;
        var j :| 0 <= j < |pages| && ChainUses(pages[j], ordinal);
        var k :| 0 <= k < |pages[j]| && pages[j][k].Entry().BindTo? && pages[j][k].Entry().ordinal == ordinal;
        assert PagesImported(bytes, tables, pages, imports) && ChainImported(bytes, tables, pages[j], imports);
        assert SlotImported(bytes, tables, pages[j][k], imports);
      }
    } else {
      var i :| 0 <= i < |plan| && plan[i].Some? && !PagesImported(bytes, tables, plan[i].value.pages, imports);
      var pages := plan[i].value.pages;
      var j :| 0 <= j < |pages| && !ChainImported(bytes, tables, pages[j], imports);
      var k :| 0 <= k < |pages[j]| && !SlotImported(bytes, tables, pages[j][k], imports);
      var ordinal := pages[j][k].Entry().ordinal;
      assert ChainUses(pages[j], ordinal) && PagesUse(pages, ordinal) && Uses(plan, ordinal);
      assert Named(pages[j][k], imports);
    }
  }

  /**
   Round trip of whole images: a list of fixups the pointer formats can hold, written with its chains,
   page tables, segment records, imports in any of the three formats and names, parses to the same
   fixups in the same order exactly when each import used has its name where the parser looks for it.
   */
  lemma {:induction false} WholeImageRoundTrip(length: nat, plan: seq<Option<Planned>>, table: ImportTable)
    requires Writable(length, plan, table)
    ensures ParseAll(Write(length, plan, table), Some(length)) == Ok(PlanFixups(plan, table.items))
          <==> NamesFound(length, plan, table)
  {
    hide Prepared, ParseAll, PutAll, PlanWords, PlanFixups, PlanFits, Inside, Apart, RecordOffset, NameOffset,
      PlacedOne, PlainNames, PlanImported, PlanNamed, Uses, NameFound, ImportAt, Metadata, At, NamesAt, SegmentFits;
    var placed, blank, header := Placed(plan, length + 32 + 4 * |plan|), Blank(length, plan, table),
        HeaderOf(length, plan, table);
    BlankPrepared(length, plan, table);
    PlacedSame(plan, placed, table.items);
    WrittenThenParsed(blank, length, length, header, placed, table.items);
    PlacedImported(blank, header.tables, plan, placed, table.items);
    ImportedIfRead(blank, header.tables, plan, table.items);
    BlankStands(length, plan, table);
    forall ordinal | 0 <= ordinal < |table.items|
      ensures ImportAt(blank, header.tables, ordinal) == Ok(table.items[ordinal])
            <==> NameFound(blank, length, plan, table, ordinal)
    {
      ImportRead(blank, length, plan, table, ordinal);
    }
  }

  lemma {:induction false} PlacedImported(bytes: seq<Byte>, tables: Tables, plan: seq<Option<Planned>>,
                                          placed: seq<Option<Planned>>, imports: Imports)
    requires |placed| == |plan| && forall i :: 0 <= i < |plan| ==> SamePages(plan[i], placed[i])
    requires PlanNamed(plan, imports) && PlanNamed(placed, imports)
    ensures PlanImported(bytes, tables, placed, imports) <==> PlanImported(bytes, tables, plan, imports)
  {
    hide PagesImported, PagesNamed;
    forall i | 0 <= i < |plan|
      ensures plan[i].Some? <==> placed[i].Some?
      ensures plan[i].Some? ==> plan[i].value.pages == placed[i].value.pages
    {
      assert SamePages(plan[i], placed[i]);
    }
  }

  /**
   Plain imports, and others in which what the parser looks at happens to be the name offset, have their names
   found.
   */
  lemma {:induction false} PlainNamesFound(length: nat, plan: seq<Option<Planned>>, table: ImportTable)
    requires Writable(length, plan, table)
    requires table.format == 1
          || forall i :: 0 <= i < |table.items| ==>
          TrailerOffset(table.format, table.trailers[i]) == NameOffset(table.items, i)
    ensures NamesFound(length, plan, table)
  {
    hide Metadata, At, Uses, PlanWords, PlanFits, PlanNamed, Inside, Apart, NameAt, Utf8, NulFree, CStringAt,
      NameOffset, RecordOffset, SegmentFits, NameBytes, ImportBytes, HeaderBytes, RecordsBytes, OffsetBytes,
      NamesAt, ImportsAt;
    BlankStands(length, plan, table);
    PartsStand(Blank(length, plan, table), length, plan, table);
    forall i | 0 <= i < |table.items| && table.format != 1
      ensures NameFound(Blank(length, plan, table), length, plan, table, i)
    {
      NameStands(Blank(length, plan, table), length + NamesAt(plan, table), table.items, i);
      assert PlainName(table.items[i]);
      NameAtMeaning(Blank(length, plan, table), length + NamesAt(plan, table) + NameOffset(table.items, i),
          table.items[i].1);
    }
  }
}
