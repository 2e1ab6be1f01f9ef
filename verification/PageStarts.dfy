/**
 What the format's marks in a page table mean, and when the parser, which knows none of them, reads the same
 fixups.
 */
module PageStarts {
  import opened Prelude
  import opened Bits
  import opened Bytes
  import opened ChainedPointers
  import opened FixupParser

  /** In a page table: no fixups; several chains, listed elsewhere. In such a list: the last chain. */
  const START_NONE: nat := 0xFFFF
  const START_MULTI: nat := 0x8000
  const START_LAST: nat := 0x8000

  // ----- the documented reading -----

  /** The list of starts at `at`, up to the one marked last. */
  function StartList(bytes: seq<Byte>, at: nat): Outcome<seq<nat>>
    decreases |bytes| - at
  {
    var entry :- ReadOr(bytes, at, 2);
    if entry >= START_LAST then Ok([entry - START_LAST])
    else
      var rest :- StartList(bytes, at + 2);
      Ok([entry] + rest)
  }

  /**
   Where the chains of a page begin. `listAt` says where the list of a page marked with several starts
   stands; the format leaves to it what the remaining bits of the mark count from.
   */
  function PageChains(bytes: seq<Byte>, seg: Segment, page: nat, listAt: nat -> nat): Outcome<seq<nat>> {
    var start :- PageStart(bytes, seg, page);
    if start == START_NONE then Ok([])
    else if start >= START_MULTI then
      var starts :- StartList(bytes, listAt(start));
      Ok(ChainStarts(seg, page, starts))
    else Ok([ChainStart(seg, page, start)])
  }

  function ChainStarts(seg: Segment, page: nat, starts: seq<nat>): (r: seq<nat>)
    ensures |r| == |starts| && forall i :: 0 <= i < |r| ==> r[i] == ChainStart(seg, page, starts[i])
  {
    seq(|starts|, i requires 0 <= i < |starts| => ChainStart(seg, page, starts[i]))
  }

  function Chains(bytes: seq<Byte>, tables: Tables, code: nat, starts: seq<nat>): Outcome<seq<Fixup>> {
    if starts == [] then Ok([])
    else Both(ParseChain(bytes, tables, code, starts[0]), Chains(bytes, tables, code, starts[1..]))
  }

  /** The fixups of a segment from `page` on, as the format documents its page table. */
  function DocumentedPages(bytes: seq<Byte>, tables: Tables, seg: Segment, page: nat,
                           listAt: nat -> nat): Outcome<seq<Fixup>>
    decreases seg.pages - page
  {
    if page >= seg.pages then Ok([])
    else
      var starts :- PageChains(bytes, seg, page, listAt);
      Both(Chains(bytes, tables, seg.format, starts), DocumentedPages(bytes, tables, seg, page + 1, listAt))
  }

  // ----- both readings as chains from a list of starts -----

  function DocumentedStarts(bytes: seq<Byte>, seg: Segment, page: nat, listAt: nat -> nat): Outcome<seq<nat>>
    decreases seg.pages - page
  {
    if page >= seg.pages then Ok([])
    else
      var starts :- PageChains(bytes, seg, page, listAt);
      var rest :- DocumentedStarts(bytes, seg, page + 1, listAt);
      Ok(starts + rest)
  }

  function ParsedStarts(bytes: seq<Byte>, seg: Segment, page: nat): Outcome<seq<nat>>
    decreases seg.pages - page
  {
    if page >= seg.pages then Ok([])
    else
      var start :- PageStart(bytes, seg, page);
      var rest :- ParsedStarts(bytes, seg, page + 1);
      Ok([ChainStart(seg, page, start)] + rest)
  }

  lemma {:induction false} ChainsConcat(bytes: seq<Byte>, tables: Tables, code: nat, a: seq<nat>, b: seq<nat>)
    ensures Chains(bytes, tables, code, a + b) == Both(Chains(bytes, tables, code, a), Chains(bytes, tables, code, b))
  {
    hide ParseChain;
    if a == [] {
      assert a + b == b;
      BothUnit(Chains(bytes, tables, code, b));
    } else {
      assert (a + b)[1..] == a[1..] + b;
      ChainsConcat(bytes, tables, code, a[1..], b);
      BothAssoc(ParseChain(bytes, tables, code, a[0]), Chains(bytes, tables, code, a[1..]),
          Chains(bytes, tables, code, b));
    }
  }

  lemma {:induction false} DocumentedAreChains(bytes: seq<Byte>, tables: Tables, seg: Segment, page: nat,
                                               listAt: nat -> nat)
    requires DocumentedPages(bytes, tables, seg, page, listAt).Ok?
    ensures var starts := DocumentedStarts(bytes, seg, page, listAt);
      starts.Ok? && DocumentedPages(bytes, tables, seg, page, listAt) == Chains(bytes, tables, seg.format, starts.value)
    decreases seg.pages - page
  {
    hide PageChains, Chains;
    if page < seg.pages {
      DocumentedAreChains(bytes, tables, seg, page + 1, listAt);
      var rest := DocumentedStarts(bytes, seg, page + 1, listAt).value;
      ChainsConcat(bytes, tables, seg.format, PageChains(bytes, seg, page, listAt).value, rest);
    } else {
      NoChains(bytes, tables, seg.format);
    }
  }

  lemma NoChains(bytes: seq<Byte>, tables: Tables, code: nat)
    ensures Chains(bytes, tables, code, []) == Ok([])
  {}

  lemma OneChain(bytes: seq<Byte>, tables: Tables, code: nat, start: nat, rest: seq<nat>)
    ensures Chains(bytes, tables, code, [start] + rest)
         == Both(ParseChain(bytes, tables, code, start), Chains(bytes, tables, code, rest))
  {
    hide ParseChain;
    assert ([start] + rest)[1..] == rest;
  }

  /** Where the documented reading can read every start, so can the parser, and it reads their chains in order. */
  lemma {:induction false} ParsedAreChains(bytes: seq<Byte>, tables: Tables, seg: Segment, page: nat,
                                           listAt: nat -> nat)
    requires DocumentedStarts(bytes, seg, page, listAt).Ok?
    ensures var starts := ParsedStarts(bytes, seg, page);
      starts.Ok? && ParsePages(bytes, tables, seg, page) == Chains(bytes, tables, seg.format, starts.value)
    decreases seg.pages - page
  {
    hide ParseChain, PageStart, ChainStart, Chains, ParsePages, StartList;
    PagesStep(bytes, tables, seg, page);
    NoChains(bytes, tables, seg.format);
    if page < seg.pages {
      ParsedAreChains(bytes, tables, seg, page + 1, listAt);
      var start, rest := PageStart(bytes, seg, page).value, ParsedStarts(bytes, seg, page + 1).value;
      OneChain(bytes, tables, seg.format, ChainStart(seg, page, start), rest);
    }
  }

  /** Chains that read the same fixups begin at the same places: a chain's first fixup stands where it begins. */
  lemma {:induction false} ChainsUnique(bytes: seq<Byte>, tables: Tables, code: nat, a: seq<nat>, b: seq<nat>)
    requires Chains(bytes, tables, code, a).Ok? && Chains(bytes, tables, code, a) == Chains(bytes, tables, code, b)
    ensures a == b
    decreases |a|
  {
    hide ParseChain, FormatOf;
    if a != [] {
      ChainSpaced(bytes, tables, code, a[0]);
    }
    if b != [] {
      ChainSpaced(bytes, tables, code, b[0]);
    }
    if a != [] && b != [] {
      var chain := ParseChain(bytes, tables, code, a[0]).value;
      var other := ParseChain(bytes, tables, code, b[0]).value;
      var restA, restB := Chains(bytes, tables, code, a[1..]).value, Chains(bytes, tables, code, b[1..]).value;
      assert (chain + restA)[0] == chain[0] && (other + restB)[0] == other[0];
      assert (chain + restA)[|chain|..] == restA && (chain + restB)[|chain|..] == restB;
      ChainsUnique(bytes, tables, code, a[1..], b[1..]);
      assert a == [a[0]] + a[1..] && b == [b[0]] + b[1..];
    }
  }

  // ----- when the starts agree -----

  lemma {:induction false} HalfWord(bytes: seq<Byte>, at: nat)
    ensures ReadOr(bytes, at, 2).Ok? ==> ReadOr(bytes, at, 2).value < 0x1_0000
  {
    hide Value, Bytes.Encode;
    if at + 2 <= |bytes| {
      Limits();
      EncodeOfValue(bytes[at..at + 2]);
    }
  }

  lemma {:induction false} ListedBelow(bytes: seq<Byte>, at: nat)
    requires StartList(bytes, at).Ok?
    ensures StartList(bytes, at).value != [] && forall s :: s in StartList(bytes, at).value ==> s < START_MULTI
    decreases |bytes| - at
  {
    hide Value;
    HalfWord(bytes, at);
    if ReadOr(bytes, at, 2).value < START_LAST {
      ListedBelow(bytes, at + 2);
    }
  }

  lemma StartsDiffer(seg: Segment, page: nat, a: nat, b: nat)
    requires a < b < 0x1_0000
    ensures ChainStart(seg, page, a) != ChainStart(seg, page, b)
  {
    var base := seg.offset + page * seg.pageSize;
    WrapDiffers(base + a, b - a);
  }

  lemma WrapDiffers(x: nat, d: nat)
    requires 0 < d < U64
    ensures x % U64 != (x + d) % U64
  {}

  /** What a marked page contributes: nothing, or starts of which none is where the parser looks. */
  lemma {:induction false} MarkedPage(bytes: seq<Byte>, seg: Segment, page: nat, listAt: nat -> nat)
    requires PageChains(bytes, seg, page, listAt).Ok? && PageStart(bytes, seg, page).value >= START_MULTI
    ensures var start, chains := PageStart(bytes, seg, page).value, PageChains(bytes, seg, page, listAt).value;
      && (start != START_NONE ==> chains != [])
      && ChainStart(seg, page, start) !in chains
  {
    hide ChainStart, StartList, Read;
    var start := PageStart(bytes, seg, page).value;
    HalfWord(bytes, seg.starts + page * 2);
    if start != START_NONE {
      var starts := StartList(bytes, listAt(start)).value;
      ListedBelow(bytes, listAt(start));
      forall i | 0 <= i < |starts|
        ensures ChainStart(seg, page, starts[i]) != ChainStart(seg, page, start)
      {
        assert starts[i] in starts;
        StartsDiffer(seg, page, starts[i], start);
      }
    }
  }

  /**
   Once the parser has read a start that the documented reading has not, the two never meet again: to catch
   up, a page's listed starts would have to include the one that the parser takes from its mark.
   */
  lemma {:induction false} NeverCaughtUp(bytes: seq<Byte>, seg: Segment, page: nat, listAt: nat -> nat, ahead: seq<nat>)
    requires DocumentedStarts(bytes, seg, page, listAt).Ok? && ParsedStarts(bytes, seg, page).Ok? && ahead != []
    ensures ahead + ParsedStarts(bytes, seg, page).value != DocumentedStarts(bytes, seg, page, listAt).value
    decreases seg.pages - page
  {
    hide PageChains, PageStart, ChainStart;
    if page < seg.pages {
      var start, chains := PageStart(bytes, seg, page).value, PageChains(bytes, seg, page, listAt).value;
      var own := ChainStart(seg, page, start);
      var parsed, documented := ParsedStarts(bytes, seg, page + 1).value,
          DocumentedStarts(bytes, seg, page + 1, listAt).value;
      var left := ahead + ([own] + parsed);
      var n := |chains|;
      if left == chains + documented && n <= |ahead| {
        var next := ahead[n..] + [own];
        assert left[n..] == next + parsed && (chains + documented)[n..] == documented;
        NeverCaughtUp(bytes, seg, page + 1, listAt, next);
      } else if left == chains + documented {
        assert left[|ahead|] == own && (chains + documented)[|ahead|] == chains[|ahead|];
        OwnStart(bytes, seg, page, listAt);
      }
    }
  }

  /** A page that is not marked has one chain, where the parser looks; a marked one has none there. */
  lemma {:induction false} OwnStart(bytes: seq<Byte>, seg: Segment, page: nat, listAt: nat -> nat)
    requires PageChains(bytes, seg, page, listAt).Ok?
    ensures PageStart(bytes, seg, page).Ok?
    ensures var start, chains := PageStart(bytes, seg, page).value, PageChains(bytes, seg, page, listAt).value;
      if start < START_MULTI then chains == [ChainStart(seg, page, start)]
      else
        && ChainStart(seg, page, start) !in chains
        && (start == START_NONE <==> chains == [])
  {
    hide ChainStart, StartList, PageStart;
    if PageStart(bytes, seg, page).value >= START_MULTI {
      MarkedPage(bytes, seg, page, listAt);
    }
  }

  /** No page from `page` on is marked, with either mark. */
  predicate Unmarked(bytes: seq<Byte>, seg: Segment, page: nat) {
    forall i :: page <= i < seg.pages ==> PageStart(bytes, seg, i).Ok? && PageStart(bytes, seg, i).value < START_MULTI
  }

  lemma {:induction false} SameStarts(bytes: seq<Byte>, seg: Segment, page: nat, listAt: nat -> nat)
    requires DocumentedStarts(bytes, seg, page, listAt).Ok? && ParsedStarts(bytes, seg, page).Ok?
    ensures ParsedStarts(bytes, seg, page) == DocumentedStarts(bytes, seg, page, listAt) <==> Unmarked(bytes, seg, page)
    decreases seg.pages - page
  {
    hide PageChains, PageStart, ChainStart;
    if page < seg.pages {
      OwnStart(bytes, seg, page, listAt);
      SameStarts(bytes, seg, page + 1, listAt);
      var start, chains := PageStart(bytes, seg, page).value, PageChains(bytes, seg, page, listAt).value;
      var own := ChainStart(seg, page, start);
      var parsed, documented := ParsedStarts(bytes, seg, page + 1).value,
          DocumentedStarts(bytes, seg, page + 1, listAt).value;
      if start < START_MULTI {
        assert ([own] + parsed)[1..] == parsed && ([own] + documented)[1..] == documented;
        assert Unmarked(bytes, seg, page) <==> Unmarked(bytes, seg, page + 1);
      } else {
        assert !Unmarked(bytes, seg, page);
        if start == START_NONE {
          assert [] + documented == documented;
          NeverCaughtUp(bytes, seg, page + 1, listAt, [own]);
        } else {
          assert ([own] + parsed)[0] == own && (chains + documented)[0] == chains[0];
        }
      }
    }
  }

  /**
   The parser takes every page start for the offset of a chain. Where the documented reading of a segment
   succeeds, wherever the lists of starts stand, the parser agrees with it exactly when no page is marked:
   neither as having no fixups nor as having several starts.
   */
  lemma {:induction false} MarkedPages(bytes: seq<Byte>, tables: Tables, seg: Segment, listAt: nat -> nat)
    requires DocumentedPages(bytes, tables, seg, 0, listAt).Ok?
    ensures ParsePages(bytes, tables, seg, 0) == DocumentedPages(bytes, tables, seg, 0, listAt)
          <==> Unmarked(bytes, seg, 0)
  {
    hide DocumentedPages, ParsePages, DocumentedStarts, ParsedStarts, Chains, Unmarked;
    DocumentedAreChains(bytes, tables, seg, 0, listAt);
    ParsedAreChains(bytes, tables, seg, 0, listAt);
    SameStarts(bytes, seg, 0, listAt);
    if ParsePages(bytes, tables, seg, 0) == DocumentedPages(bytes, tables, seg, 0, listAt) {
      ChainsUnique(bytes, tables, seg.format, DocumentedStarts(bytes, seg, 0, listAt).value,
          ParsedStarts(bytes, seg, 0).value);
    }
  }

  // ----- where the parser fails -----

  /** A segment of one page that is marked as unused: the format reads no fixups, the parser fails past the end. */
  lemma {:induction false} UnusedPageParsed(tables: Tables, listAt: nat -> nat)
    ensures var bytes, seg := [0xFF, 0xFF], Segment(1, 0x1000, 0, 1, 0);
      DocumentedPages(bytes, tables, seg, 0, listAt) == Ok([]) && ParsePages(bytes, tables, seg, 0) == Err
  {
    var bytes: seq<Byte>, seg := [0xFF, 0xFF], Segment(1, 0x1000, 0, 1, 0);
    assert bytes[1..] == [0xFF] && bytes[0..2] == bytes;
    assert Value([0xFF]) == 0xFF && Value(bytes) == 0xFFFF;
    assert PageStart(bytes, seg, 0) == Ok(START_NONE);
    NoChains(bytes, tables, 1);
    BothUnit(DocumentedPages(bytes, tables, seg, 1, listAt));
    assert PageChains(bytes, seg, 0, listAt) == Ok([]) && DocumentedPages(bytes, tables, seg, 1, listAt) == Ok([]);
  }

  /** A word of zeros is the last link of a chain, a rebase to 0. */
  lemma {:induction false} ZeroLink(bytes: seq<Byte>, tables: Tables, offset: nat)
    requires At(bytes, offset, [0, 0, 0, 0, 0, 0, 0, 0])
    ensures ParseChain(bytes, tables, 1, offset) == Ok([Fixup(offset, Rebase(0))])
  {
    hide Decode, ChainedPointers.Encode;
    assert Bytes.Encode(0, 8) == [0, 0, 0, 0, 0, 0, 0, 0];
    Limits();
    ReadWritten(bytes, offset, 0, 8);
    ZeroWord();
  }

  lemma {:induction false} ZeroWord()
    ensures Decode(Arm64e, 0) == Link(0, RebaseTo(0))
  {
    hide Decode, Pow2;
    Widths();
    WordRoundTrip(Arm64e, PlainRebase(0, 0), 0);
    assert Join(0, 11, 0) == 0 && Join(0, 8, 0) == 0 && Join(0, 43, 0) == 0;
  }

  /**
   A page with a list of one start, behind the page table: the format reads a chain there, the parser fails
   past the end.
   */
  lemma {:induction false} ListedPageParsed(tables: Tables, listAt: nat -> nat)
    requires listAt(START_MULTI) == 2
    ensures var bytes, seg := [0x00, 0x80, 0x04, 0x80] + [0, 0, 0, 0, 0, 0, 0, 0], Segment(1, 0x1000, 0, 1, 0);
      && DocumentedPages(bytes, tables, seg, 0, listAt) == Ok([Fixup(4, Rebase(0))])
      && ParsePages(bytes, tables, seg, 0) == Err
  {
    hide ParseChain;
    var bytes: seq<Byte>, seg := [0x00, 0x80, 0x04, 0x80] + [0, 0, 0, 0, 0, 0, 0, 0], Segment(1, 0x1000, 0, 1, 0);
    assert bytes[0..2] == [0x00, 0x80] && bytes[2..4] == [0x04, 0x80] && bytes[4..12] == [0, 0, 0, 0, 0, 0, 0, 0];
    assert [0x00, 0x80][1..] == [0x80] && [0x04, 0x80][1..] == [0x80] && Value([0x80]) == 0x80;
    assert PageStart(bytes, seg, 0) == Ok(0x8000) && StartList(bytes, 2) == Ok([4]);
    ZeroLink(bytes, tables, 4);
    assert ChainStarts(seg, 0, [4]) == [4] == [4] + [];
    assert PageChains(bytes, seg, 0, listAt) == Ok([4]);
    assert DocumentedPages(bytes, tables, seg, 1, listAt) == Ok([]);
    BothUnit(Ok([Fixup(4, Rebase(0))]));
    OneChain(bytes, tables, 1, 4, []);
    NoChains(bytes, tables, 1);
    ChainStep(bytes, tables, 1, 0x8000);
  }
}
