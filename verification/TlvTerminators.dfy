/** Thread-local terminators: registering them, and running them when the thread ends. */
module TlvTerminators {
  import opened Bits

  /**
   A registered terminator. What its function does, as far as this library can see, is to register
   further terminators, in order; a NULL function is never called.
   */
  datatype Entry = Entry(isNull: bool, object: nat, registers: seq<Entry>)

  // ----- the order of a finalization -----

  /** The calls made when a list is finalized. */
  function FinalizeOrder(entries: seq<Entry>): seq<Entry>
    decreases entries
  {
    if entries == [] then []
    else
      var e := entries[|entries| - 1];
      (if e.isNull then [] else [e] + FinalizeOrder(e.registers)) + FinalizeOrder(entries[..|entries| - 1])
  }

  /** Every terminator that must run, in order of registration: each before those it registers. */
  function Due(entries: seq<Entry>): seq<Entry>
    decreases entries
  {
    if entries == [] then []
    else (if entries[0].isNull then [] else [entries[0]] + Due(entries[0].registers)) + Due(entries[1..])
  }

  /** How many entries there are, counting all that may be registered. */
  function Weight(entries: seq<Entry>): nat
    decreases entries
  {
    if entries == [] then 0 else 1 + Weight(entries[0].registers) + Weight(entries[1..])
  }

  /** The newest entries of a list are finalized completely before the older ones. */
  lemma {:induction false} NewestFirst(older: seq<Entry>, newer: seq<Entry>)
    ensures FinalizeOrder(older + newer) == FinalizeOrder(newer) + FinalizeOrder(older)
    decreases |newer|
  {
    var all := older + newer;
    if newer == [] {
      assert all == older;
    } else {
      var e, rest := newer[|newer| - 1], newer[..|newer| - 1];
      assert all[|all| - 1] == e && all[..|all| - 1] == older + rest;
      NewestFirst(older, rest);
      var now := if e.isNull then [] else [e] + FinalizeOrder(e.registers);
      assert FinalizeOrder(all) == now + FinalizeOrder(older + rest);
      assert FinalizeOrder(newer) == now + FinalizeOrder(rest);
      assert now + (FinalizeOrder(rest) + FinalizeOrder(older)) == now + FinalizeOrder(rest) + FinalizeOrder(older);
    }
  }

  /** One terminator: its call, and right after it everything it registered. */
  lemma JustOne(e: Entry)
    ensures FinalizeOrder([e]) == if e.isNull then [] else [e] + FinalizeOrder(e.registers)
  {
    assert [e][..0] == [];
    assert FinalizeOrder([e][..|[e]| - 1]) == [];
  }

  /** Exactly once: a finalization calls every terminator due, as often as it was registered, and nothing else. */
  lemma {:induction false} ExactlyOnce(entries: seq<Entry>)
    ensures multiset(FinalizeOrder(entries)) == multiset(Due(entries))
    decreases entries
  {
    if entries != [] {
      var e, rest := entries[0], entries[1..];
      assert entries == [e] + rest;
      NewestFirst([e], rest);
      JustOne(e);
      ExactlyOnce(rest);
      if !e.isNull {
        ExactlyOnce(e.registers);
      }
    }
  }

  /** Terminators that register nothing run in reverse order of registration. */
  lemma {:induction false} PlainReversed(entries: seq<Entry>, k: nat)
    requires (forall i :: 0 <= i < |entries| ==> !entries[i].isNull && entries[i].registers == []) && k < |entries|
    ensures |FinalizeOrder(entries)| == |entries| && FinalizeOrder(entries)[k] == entries[|entries| - 1 - k]
    decreases |entries|
  {
    var e, rest := entries[|entries| - 1], entries[..|entries| - 1];
    assert FinalizeOrder(entries) == [e] + FinalizeOrder(rest);
    if k > 0 {
      PlainReversed(rest, k - 1);
    } else if rest != [] {
      PlainReversed(rest, 0);
    }
  }

  lemma {:induction false} WeightConcat(a: seq<Entry>, b: seq<Entry>)
    ensures Weight(a + b) == Weight(a) + Weight(b)
  {
    if a == [] {
      assert a + b == b;
    } else {
      assert (a + b)[1..] == a[1..] + b;
      WeightConcat(a[1..], b);
    }
  }

  /** What an entry registers weighs less than any list holding the entry. */
  lemma WeightInside(entries: seq<Entry>, i: nat)
    requires i < |entries|
    ensures Weight(entries[i].registers) < Weight(entries)
  {
    assert entries == entries[..i] + ([entries[i]] + entries[i + 1..]);
    WeightConcat(entries[..i], [entries[i]] + entries[i + 1..]);
    assert ([entries[i]] + entries[i + 1..])[1..] == entries[i + 1..];
  }

  lemma OrderEnd(entries: seq<Entry>)
    ensures FinalizeOrder(entries[|entries|..]) == [] && (entries == [] ==> FinalizeOrder(entries) == [])
  {}

  /**
   Wherever a terminator stands in a list: when all newer ones are finalized it is called, right after
   it everything it registered is finalized, and only then come the older ones.
   */
  lemma {:induction false} CalledInTurn(older: seq<Entry>, e: Entry, newer: seq<Entry>)
    ensures FinalizeOrder(older + [e] + newer)
         == FinalizeOrder(newer) + (if e.isNull then [] else [e] + FinalizeOrder(e.registers)) + FinalizeOrder(older)
  {
    hide FinalizeOrder;
    NewestFirst(older + [e], newer);
    NewestFirst(older, [e]);
    JustOne(e);
    Regrouped(FinalizeOrder(newer), FinalizeOrder([e]), FinalizeOrder(older));
  }

  lemma Regrouped(a: seq<Entry>, b: seq<Entry>, c: seq<Entry>)
    ensures a + (b + c) == a + b + c
  {}

  /** Finalizing entry `i` after all newer ones. */
  lemma OrderStep(entries: seq<Entry>, i: nat)
    requires i < |entries|
    ensures FinalizeOrder(entries[i..]) == FinalizeOrder(entries[i + 1..]) +
      if entries[i].isNull then [] else [entries[i]] + FinalizeOrder(entries[i].registers)
    ensures Weight(entries[i].registers) < Weight(entries)
  {
    hide FinalizeOrder, Weight;
    NewestFirst([entries[i]], entries[i + 1..]);
    JustOne(entries[i]);
    HeadOf(entries, i);
    WeightInside(entries, i);
  }

  lemma HeadOf(entries: seq<Entry>, i: nat)
    requires i < |entries|
    ensures entries[i..] == [entries[i]] + entries[i + 1..]
  {}

  // ----- lists in memory -----

  class TerminatorList {
    var allocCount: nat
    var useCount: nat
    const entries: array<Entry>
    ghost var copied: nat   // entries copied by all the growths that led to this list

    constructor (capacity: nat)
      ensures allocCount == capacity && useCount == 0 && copied == 0
      ensures entries.Length == capacity && fresh(entries)
    {
      allocCount, useCount, copied := capacity, 0, 0;
      entries := new Entry[capacity](_ => Entry(true, 0, []));
    }

    ghost predicate Valid()
      reads this
    {
      && entries.Length == allocCount && 1 <= useCount <= allocCount && IsPow2(allocCount)
      && copied == allocCount - 1 && (allocCount == 1 || allocCount < 2 * useCount)
    }

    function Contents(): seq<Entry>
      reads this, entries
      requires useCount <= entries.Length
    {
      entries[..useCount]
    }
  }

  /** One thread: its key, and a record of calls made and of the lists allocated and not yet freed. */
  class Thread {
    var key: TerminatorList?
    ghost var calls: seq<Entry>
    ghost var held: set<TerminatorList>

    constructor ()
      ensures key == null && calls == [] && held == {} && Valid() && Registered() == []
    {
      key, calls, held := null, [], {};
    }

    ghost predicate Valid()
      reads this, key
    {
      key != null ==> key in held && key.Valid()
    }

    /** The terminators of the current list. */
    ghost function Registered(): seq<Entry>
      requires Valid()
      reads this, key, if key != null then {key.entries} else {}
    {
      if key == null then [] else key.Contents()
    }

    method Malloc(capacity: nat) returns (list: TerminatorList)
      modifies this`held
      ensures fresh(list) && fresh(list.entries) && list.allocCount == capacity && list.entries.Length == capacity
      ensures list.useCount == 0 && list.copied == 0
      ensures held == old(held) + {list}
    {
      list := new TerminatorList(capacity);
      held := held + {list};
    }

    /** A list may be freed only while it is allocated, so never twice. */
    method Free(list: TerminatorList)
      requires list in held
      modifies this`held
      ensures held == old(held) - {list}
    {
      held := held - {list};
    }

    /**
     `_tlv_atexit`: the entry is appended; a full list is replaced by one of twice the size and freed,
     and the key names the list that holds what is registered. Over all registrations so far, fewer
     than two entries were copied for each one registered.
     */
    method AtExit(e: Entry)
      requires Valid()
      modifies this`key, this`held, key, if key != null then {key.entries} else {}
      ensures Valid() && key != null
      ensures Registered() == old(Registered()) + [e]
      ensures key.copied < 2 * |Registered()|
      ensures held == old(held) - (if old(key) == null then {} else {old(key)}) + {key}
      ensures key != old(key) ==> fresh(key) && fresh(key.entries)
    {
      hide IsPow2;
      var list := key;
      if list == null {
        IsPow2Doubled(1);
        var first := Malloc(1);
        first.entries[0] := e;
        first.useCount := 1;
        key := first;
      } else {
        ghost var before := list.Contents();
        var target := list;
        if list.useCount == list.allocCount {
          target := Grow(list);
          key := target;
          Free(list);
        }
        target.entries[target.useCount] := e;
        target.useCount := target.useCount + 1;
        assert target.Contents() == before + [e];
      }
    }

    /** A list of twice the size with the same entries, copied one by one. */
    method Grow(list: TerminatorList) returns (newList: TerminatorList)
      requires list.Valid() && list.useCount == list.allocCount
      modifies this`held
      ensures fresh(newList) && fresh(newList.entries) && held == old(held) + {newList}
      ensures newList.allocCount == newList.entries.Length == 2 * list.allocCount && newList.useCount == list.useCount
      ensures newList.Contents() == list.Contents() && IsPow2(newList.allocCount)
      ensures newList.copied == list.copied + list.useCount
    {
      var newAllocCount := list.allocCount * 2;
      newList := Malloc(newAllocCount);
      newList.useCount := list.useCount;
      for i := 0 to list.useCount
        invariant newList.entries[..i] == list.entries[..i]
        modifies newList.entries
      {
        newList.entries[i] := list.entries[i];
      }
      newList.copied := list.copied + list.useCount;
      IsPow2Doubled(list.allocCount);
    }

    /** A terminator's function runs: it registers its terminators in order, on a list of their own. */
    method RunTerminator(e: Entry)
      requires Valid() && key == null
      modifies this
      ensures Valid() && Registered() == e.registers
      ensures calls == old(calls) + [e]
      ensures key != null ==> fresh(key) && fresh(key.entries)
      ensures held == old(held) + (if key == null then {} else {key})
    {
      calls := calls + [e];
      for i := 0 to |e.registers|
        invariant Valid() && Registered() == e.registers[..i]
        invariant calls == old(calls) + [e]
        invariant key != null ==> fresh(key) && fresh(key.entries)
        invariant held == old(held) + (if key == null then {} else {key})
      {
        AtExit(e.registers[i]);
      }
    }

    /**
     `tlv_finalize_list`: newest first, and after each call whatever it registered, at once, on its
     own list. Every list allocated on the way is freed, and then the list itself.
     */
    method FinalizeList(list: TerminatorList)
      requires key == null && list in held && list.Valid()
      modifies this
      ensures key == null && calls == old(calls) + FinalizeOrder(list.Contents())
      ensures held == old(held) - {list}
      decreases Weight(list.Contents())
    {
      hide FinalizeOrder, Weight, IsPow2;
      ghost var entries := list.Contents();
      var i := list.useCount;
      OrderEnd(entries);
      while i > 0
        invariant 0 <= i <= list.useCount && key == null && list.Contents() == entries
        invariant calls == old(calls) + FinalizeOrder(entries[i..])
        invariant held == old(held)
      {
        var e := list.entries[i - 1];
        OrderStep(entries, i - 1);
        if !e.isNull {
          RunTerminator(e);
        }
        var newList := key;
        if newList != null {
          key := null;
          FinalizeList(newList);
        } else {
          OrderEnd(e.registers);
        }
        i := i - 1;
      }
      assert entries[0..] == entries;
      Free(list);
    }

    /**
     `_tlv_exit`: every registered terminator runs, in finalization order; afterwards nothing is
     registered and no list is allocated that was not before.
     */
    method Exit()
      requires Valid()
      modifies this
      ensures key == null && Valid() && Registered() == []
      ensures calls == old(calls) + FinalizeOrder(old(Registered()))
      ensures held == old(held) - (if old(key) == null then {} else {old(key)})
    {
      var list := key;
      if list != null {
        key := null;
        FinalizeList(list);
      }
    }
  }
}
