/** Parsing chained fixups: header, segments, pages, chains, imports. */
module FixupParser {
  import opened Prelude
  import opened Bits
  import opened Bytes
  import opened CStrings
  import opened ChainedPointers

  const NAME_CAPACITY: nat := 128
  const U32: nat := 0x1_0000_0000

  datatype Kind =
    | Rebase(target: nat)
    | Bind(name: seq<Byte>, ordinal: nat, isAuth: bool, addend: nat)

  datatype Fixup = Fixup(offset: nat, kind: Kind)

  /** Where imports and their names lie, and how imports are laid out (1, 2 or 3). */
  datatype Tables = Tables(importFormat: nat, imports: nat, symbols: nat)

  /** The fields used of the fixup header; offsets are absolute. */
  datatype Header = Header(starts: nat, segments: nat, tables: Tables)

  /** The fields used of a segment's record; `starts` is where its page table begins. */
  datatype Segment = Segment(format: nat, pageSize: nat, offset: nat, pages: nat, starts: nat)

  // ----- imports -----

  /** The symbol name at `offset`: out of bounds, unterminated, not UTF-8 or too long, it panics. */
  function NameAt(bytes: seq<Byte>, offset: nat): Outcome<seq<Byte>> {
    if offset > |bytes| then Panic
    else
      match NulAt(bytes, offset)
      case None => Panic
      case Some(n) =>
        var name := bytes[offset..offset + n];
        if Utf8(name) && n <= NAME_CAPACITY then Ok(name) else Panic
  }

  /** A name is read exactly when it stands there terminated, is UTF-8 and not too long; anything else panics. */
  lemma NameAtMeaning(bytes: seq<Byte>, offset: nat, name: seq<Byte>)
    ensures NameAt(bytes, offset) == Ok(name)
       <==> CStringAt(bytes, offset, name) && NulFree(name) && Utf8(name) && |name| <= NAME_CAPACITY
    ensures NameAt(bytes, offset) != Err
  {
    hide CStringAt, NulFree, Utf8;
    CStringMeaning(bytes, offset, name);
  }

  function ReadOr(bytes: seq<Byte>, offset: nat, n: nat): Outcome<nat> {
    match Read(bytes, offset, n)
    case None => Err
    case Some(v) => Ok(v)
  }

  /** Library ordinal and name offset of an import; in formats 2 and 3 the offset is what follows the packed fields. */
  function ImportFields(bytes: seq<Byte>, tables: Tables, ordinal: nat): Outcome<(nat, nat)> {
    if tables.importFormat == 1 then
      var word :- ReadOr(bytes, tables.imports + ordinal * 4, 4);
      Ok((And(word, 0xFF), Shr(And(word, 0xFFFF_FE00), 9)))
    else if tables.importFormat == 2 then
      var word :- ReadOr(bytes, tables.imports + ordinal * 8, 4);
      var addend :- ReadOr(bytes, tables.imports + ordinal * 8 + 4, 4);
      Ok((And(word, 0xFF), addend))
    else
      var word :- ReadOr(bytes, tables.imports + ordinal * 16, 4);
      var addend :- ReadOr(bytes, tables.imports + ordinal * 16 + 4, 8);
      Ok((And(word, 0xFF), addend % U32))
  }

  function ImportAt(bytes: seq<Byte>, tables: Tables, ordinal: nat): Outcome<(nat, seq<Byte>)> {
    var fields :- ImportFields(bytes, tables, ordinal);
    var name :- NameAt(bytes, tables.symbols + fields.1);
    Ok((fields.0, name))
  }

  // ----- chains -----

  const DYLD_CHAINED_PTR_ARM64E: nat := 1
  const DYLD_CHAINED_PTR_64: nat := 2
  const DYLD_CHAINED_PTR_64_OFFSET: nat := 6
  const DYLD_CHAINED_PTR_ARM64E_USERLAND: nat := 9
  const DYLD_CHAINED_PTR_ARM64E_USERLAND24: nat := 12

  function FormatOf(code: nat): Option<Format> {
    if code == DYLD_CHAINED_PTR_64 || code == DYLD_CHAINED_PTR_64_OFFSET then Some(Ptr64)
    else if code == DYLD_CHAINED_PTR_ARM64E || code == DYLD_CHAINED_PTR_ARM64E_USERLAND then Some(Arm64e)
    else if code == DYLD_CHAINED_PTR_ARM64E_USERLAND24 then Some(Userland24)
    else None
  }

  function FixupOf(bytes: seq<Byte>, tables: Tables, offset: nat, entry: Entry): Outcome<Fixup> {
    match entry
    case RebaseTo(target) => Ok(Fixup(offset, Rebase(target)))
    case BindTo(ordinal, addend, isAuth) =>
      var found :- ImportAt(bytes, tables, ordinal);
      Ok(Fixup(offset, Bind(found.1, found.0, isAuth, addend)))
  }

  /** One word of a chain: the distance to the next, and its fixup; an unsupported format panics. */
  function ParseOne(bytes: seq<Byte>, tables: Tables, code: nat, offset: nat): (r: Outcome<(nat, Fixup)>)
    ensures r.Ok? ==> offset + 8 <= |bytes| && r.value.1.offset == offset
  {
    var value :- ReadOr(bytes, offset, 8);
    match FormatOf(code)
    case None => Panic
    case Some(format) =>
      var link := Decode(format, value);
      var fixup :- FixupOf(bytes, tables, offset, link.entry);
      Ok((link.next, fixup))
  }

  /** `b` after `a`, unless `a` failed. */
  function Both(a: Outcome<seq<Fixup>>, b: Outcome<seq<Fixup>>): Outcome<seq<Fixup>> {
    if !a.Ok? then a else if !b.Ok? then b else Ok(a.value + b.value)
  }

  function ParseChain(bytes: seq<Byte>, tables: Tables, code: nat, offset: nat): Outcome<seq<Fixup>>
    decreases |bytes| - offset
  {
    var one :- ParseOne(bytes, tables, code, offset);
    if one.0 == 0 then Ok([one.1])
    else Both(Ok([one.1]), ParseChain(bytes, tables, code, offset + one.0))
  }

  // ----- pages and segments -----

  function ChainStart(seg: Segment, page: nat, start: nat): nat {
    (seg.offset + page * seg.pageSize + start) % U64
  }

  function PageStart(bytes: seq<Byte>, seg: Segment, page: nat): Outcome<nat> {
    ReadOr(bytes, seg.starts + page * 2, 2)
  }

  function ParsePages(bytes: seq<Byte>, tables: Tables, seg: Segment, page: nat): Outcome<seq<Fixup>>
    decreases seg.pages - page
  {
    if page >= seg.pages then Ok([])
    else
      var start :- PageStart(bytes, seg, page);
      Both(ParseChain(bytes, tables, seg.format, ChainStart(seg, page, start)),
          ParsePages(bytes, tables, seg, page + 1))
  }

  /** The record of segment `index`: `None` when its offset is 0. */
  function SegmentAt(bytes: seq<Byte>, header: Header, index: nat): Outcome<Option<Segment>> {
    var offset :- ReadOr(bytes, header.starts + 4 + index * 4, 4);
    if offset == 0 then Ok(None)
    else
      var at := (header.starts + offset) % U32;
      if at + 24 > |bytes| then Err
      else
        var pageSize :- ReadOr(bytes, at + 4, 2);
        var format :- ReadOr(bytes, at + 6, 2);
        var segmentOffset :- ReadOr(bytes, at + 8, 8);
        var pages :- ReadOr(bytes, at + 20, 2);
        if 1 <= format <= 14 then Ok(Some(Segment(format, pageSize, segmentOffset, pages, (at + 22) % U32))) else Err
  }

  function ParseSegments(bytes: seq<Byte>, header: Header, index: nat): Outcome<seq<Fixup>>
    decreases header.segments - index
  {
    if index >= header.segments then Ok([])
    else
      var seg :- SegmentAt(bytes, header, index);
      if seg.None? then ParseSegments(bytes, header, index + 1)
      else Both(ParsePages(bytes, header.tables, seg.value, 0), ParseSegments(bytes, header, index + 1))
  }

  /** The fixup header at `at`, the data offset of the load command. */
  function HeaderAt(bytes: seq<Byte>, at: nat): Outcome<Header> {
    if at + 28 > |bytes| then Err
    else
      var starts :- ReadOr(bytes, at + 4, 4);
      var imports :- ReadOr(bytes, at + 8, 4);
      var symbols :- ReadOr(bytes, at + 12, 4);
      var format :- ReadOr(bytes, at + 20, 4);
      if !(1 <= format <= 3) then Err
      else
        var segments :- ReadOr(bytes, (at + starts) % U32, 4);
        Ok(Header((at + starts) % U32, segments, Tables(format, (at + imports) % U32, (at + symbols) % U32)))
  }

  /** All fixups of an image; `data` is where its fixup load command points, if it has one. */
  function ParseAll(bytes: seq<Byte>, data: Option<nat>): Outcome<seq<Fixup>> {
    match data
    case None => Ok([])
    case Some(at) =>
      var header :- HeaderAt(bytes, at);
      ParseSegments(bytes, header, 0)
  }

  /** Metadata of no known import format, or a record of no known pointer format, is an error. */
  lemma RejectedFormats(bytes: seq<Byte>, at: nat, header: Header, index: nat, offset: nat, format: nat)
    ensures Read(bytes, at + 20, 4) == Some(format) && !(1 <= format <= 3) ==> ParseAll(bytes, Some(at)) == Err
    ensures
      && index < header.segments && Read(bytes, header.starts + 4 + index * 4, 4) == Some(offset) && offset != 0
      && Read(bytes, (header.starts + offset) % U32 + 6, 2) == Some(format) && !(1 <= format <= 14)
      ==> ParseSegments(bytes, header, index) == Err
  {
    hide Value;
  }

  // ----- every chain ends -----

  lemma {:induction false} LinkAdvances(bytes: seq<Byte>, tables: Tables, code: nat, offset: nat)
    ensures var r := ParseOne(bytes, tables, code, offset);
      r.Ok? ==> FormatOf(code).Some? && r.value.0 % Stride(FormatOf(code).value) == 0
  {
    hide Decode, FixupOf, Value, And;
    var r := ParseOne(bytes, tables, code, offset);
    if r.Ok? {
      var v := Read(bytes, offset, 8).value;
      Limits();
      EncodeOfValue(bytes[offset..offset + 8]);
      DecodedEncodable(FormatOf(code).value, v);
    }
  }

  /** Offsets that increase by at least `stride` from one to the next. */
  predicate Spaced(fixups: seq<Fixup>, stride: nat) {
    forall i :: 0 <= i < |fixups| - 1 ==> fixups[i].offset + stride <= fixups[i + 1].offset
  }

  lemma {:induction false} SpacedSpan(fixups: seq<Fixup>, stride: nat)
    requires Spaced(fixups, stride) && fixups != []
    ensures fixups[0].offset + (|fixups| - 1) * stride <= fixups[|fixups| - 1].offset
  {
    if |fixups| > 1 {
      var front := fixups[..|fixups| - 1];
      SpacedSpan(front, stride);
      assert (|front| - 1) * stride + stride == (|fixups| - 1) * stride;
    }
  }

  lemma {:induction false} ChainSpaced(bytes: seq<Byte>, tables: Tables, code: nat, offset: nat)
    ensures var r := ParseChain(bytes, tables, code, offset);
      r.Ok? ==>
        && FormatOf(code).Some? && r.value != [] && r.value[0].offset == offset
        && Spaced(r.value, Stride(FormatOf(code).value))
        && r.value[|r.value| - 1].offset + 8 <= |bytes|
    decreases |bytes| - offset
  {
    hide ParseOne, ParseChain, FormatOf;
    LinkAdvances(bytes, tables, code, offset);
    ChainStep(bytes, tables, code, offset);
    var one := ParseOne(bytes, tables, code, offset);
    if one.Ok? && one.value.0 != 0 {
      StridePositive(one.value.0, FormatOf(code).value);
      ChainSpaced(bytes, tables, code, offset + one.value.0);
      SpacedPush(one.value.1, ParseChain(bytes, tables, code, offset + one.value.0), Stride(FormatOf(code).value));
    }
  }

  lemma SpacedPush(f: Fixup, rest: Outcome<seq<Fixup>>, stride: nat)
    requires rest.Ok? ==> rest.value != [] && Spaced(rest.value, stride) && f.offset + stride <= rest.value[0].offset
    ensures var r := Both(Ok([f]), rest);
      r.Ok? ==> rest.Ok? && Spaced(r.value, stride) && r.value[0] == f
                && r.value[|r.value| - 1] == rest.value[|rest.value| - 1]
  {
    if rest.Ok? {
      var all := [f] + rest.value;
      forall i | 0 <= i < |all| - 1
        ensures all[i].offset + stride <= all[i + 1].offset
      {
        if i > 0 {
          assert all[i] == rest.value[i - 1] && all[i + 1] == rest.value[i];
        }
      }
    }
  }

  /**
   On any image a chain ends: its offsets start where the chain starts, increase by at least the
   stride, and stay 8 bytes inside the image; so it yields at most one fixup per stride of the bytes
   between.
   */
  lemma {:induction false} ChainBounded(bytes: seq<Byte>, tables: Tables, code: nat, offset: nat)
    requires ParseChain(bytes, tables, code, offset).Ok?
    ensures FormatOf(code).Some?
    ensures var fixups, stride := ParseChain(bytes, tables, code, offset).value, Stride(FormatOf(code).value);
      && fixups != [] && fixups[0].offset == offset && Spaced(fixups, stride)
      && fixups[|fixups| - 1].offset + 8 <= |bytes|
      && (|fixups| - 1) * stride <= |bytes| - 8 - offset
  {
    hide ParseChain, FormatOf, Stride;
    ChainSpaced(bytes, tables, code, offset);
    SpacedSpan(ParseChain(bytes, tables, code, offset).value, Stride(FormatOf(code).value));
  }

  lemma StridePositive(next: nat, f: Format)
    requires next != 0 && next % Stride(f) == 0
    ensures next >= Stride(f)
  {}

  // ----- the code -----

  /** What is left to parse once the current chain, page table and segment table are counted in. */
  function Rest(bytes: seq<Byte>, header: Header, seg: Segment, page: nat, index: nat): Outcome<seq<Fixup>> {
    Both(ParsePages(bytes, header.tables, seg, page), ParseSegments(bytes, header, index))
  }

  method ChainedFixupsParseAll(bytes: seq<Byte>, data: Option<nat>) returns (r: Outcome<seq<Fixup>>)
    ensures r == ParseAll(bytes, data)
  {
    hide ParseOne, HeaderAt, SegmentAt, PageStart, ParseChain, ParsePages, ParseSegments;
    var fixups: seq<Fixup> := [];
    if data.None? {
      return Ok(fixups);
    }
    var found := HeaderAt(bytes, data.value);
    if !found.Ok? {
      return found.PropagateFailure();
    }
    var header := found.value;
    ghost var goal := ParseSegments(bytes, header, 0);
    BothUnit(goal);
    for index := 0 to header.segments
      invariant goal == Both(Ok(fixups), ParseSegments(bytes, header, index))
    {
      SegmentsStep(bytes, header, index);
      var record := SegmentAt(bytes, header, index);
      if !record.Ok? {
        return record.PropagateFailure();
      }
      if record.value.None? {
        continue;
      }
      var seg := record.value.value;
      for page := 0 to seg.pages
        invariant goal == Both(Ok(fixups), Rest(bytes, header, seg, page, index + 1))
      {
        PagesStep(bytes, header.tables, seg, page);
        var start := PageStart(bytes, seg, page);
        if !start.Ok? {
          return start.PropagateFailure();
        }
        var offset := ChainStart(seg, page, start.value);
        BothAssoc(ParseChain(bytes, header.tables, seg.format, offset), ParsePages(bytes, header.tables, seg, page + 1),
            ParseSegments(bytes, header, index + 1));
        var more := true;
        while more
          invariant more ==>
            goal == Both(Ok(fixups), Both(ParseChain(bytes, header.tables, seg.format, offset),
                                          Rest(bytes, header, seg, page + 1, index + 1)))
          invariant !more ==> goal == Both(Ok(fixups), Rest(bytes, header, seg, page + 1, index + 1))
          decreases more, |bytes| - offset
        {
          ChainStep(bytes, header.tables, seg.format, offset);
          var one := ParseOne(bytes, header.tables, seg.format, offset);
          if !one.Ok? {
            return one.PropagateFailure();
          }
          BothPush(fixups, one.value.1, ParseChain(bytes, header.tables, seg.format, offset + one.value.0),
              Rest(bytes, header, seg, page + 1, index + 1));
          fixups := fixups + [one.value.1];
          if one.value.0 == 0 {
            more := false;
          } else {
            offset := offset + one.value.0;
          }
        }
      }
      PagesStep(bytes, header.tables, seg, seg.pages);
      BothUnit(ParseSegments(bytes, header, index + 1));
    }
    SegmentsStep(bytes, header, header.segments);
    BothUnit(Ok(fixups));
    return Ok(fixups);
  }

  lemma BothUnit(a: Outcome<seq<Fixup>>)
    ensures Both(Ok([]), a) == a && Both(a, Ok([])) == a
  {
    if a.Ok? {
      assert [] + a.value == a.value && a.value + [] == a.value;
    }
  }

  lemma BothAssoc(a: Outcome<seq<Fixup>>, b: Outcome<seq<Fixup>>, c: Outcome<seq<Fixup>>)
    ensures Both(Both(a, b), c) == Both(a, Both(b, c))
  {
    if a.Ok? && b.Ok? && c.Ok? {
      assert a.value + b.value + c.value == a.value + (b.value + c.value);
    }
  }

  lemma BothPush(fixups: seq<Fixup>, f: Fixup, chain: Outcome<seq<Fixup>>, rest: Outcome<seq<Fixup>>)
    ensures Both(Ok(fixups), Both(Ok([f]), rest)) == Both(Ok(fixups + [f]), rest)
    ensures Both(Ok(fixups), Both(Both(Ok([f]), chain), rest)) == Both(Ok(fixups + [f]), Both(chain, rest))
  {
    if rest.Ok? {
      assert fixups + ([f] + rest.value) == fixups + [f] + rest.value;
      if chain.Ok? {
        assert fixups + ([f] + chain.value + rest.value) == fixups + [f] + (chain.value + rest.value);
      }
    }
  }

  lemma ChainStep(bytes: seq<Byte>, tables: Tables, code: nat, offset: nat)
    ensures var one, chain := ParseOne(bytes, tables, code, offset), ParseChain(bytes, tables, code, offset);
      if !one.Ok? then chain == one.PropagateFailure()
      else if one.value.0 == 0 then chain == Ok([one.value.1])
      else chain == Both(Ok([one.value.1]), ParseChain(bytes, tables, code, offset + one.value.0))
  {
    hide ParseOne;
  }

  lemma PagesStep(bytes: seq<Byte>, tables: Tables, seg: Segment, page: nat)
    ensures var pages, start := ParsePages(bytes, tables, seg, page), PageStart(bytes, seg, page);
      if page >= seg.pages then pages == Ok([])
      else if !start.Ok? then pages == start.PropagateFailure()
      else pages == Both(ParseChain(bytes, tables, seg.format, ChainStart(seg, page, start.value)),
          ParsePages(bytes, tables, seg, page + 1))
  {
    hide ParseChain, PageStart;
  }

  lemma SegmentsStep(bytes: seq<Byte>, header: Header, index: nat)
    ensures var all, seg := ParseSegments(bytes, header, index), SegmentAt(bytes, header, index);
      if index >= header.segments then all == Ok([])
      else if !seg.Ok? then all == seg.PropagateFailure()
      else if seg.value.None? then all == ParseSegments(bytes, header, index + 1)
      else all == Both(ParsePages(bytes, header.tables, seg.value.value, 0), ParseSegments(bytes, header, index + 1))
  {
    hide ParsePages, SegmentAt;
  }
}
