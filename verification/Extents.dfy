/**
 Accounting for address ranges. A list of extents is measured pointwise (how many of its extents
 cover an address) and in bytes; both measures are additive, so moving, splitting and retagging
 ranges is linear arithmetic, and "every address is covered exactly once" is an equation.
 */
module Extents {

  /** The addresses from `addr` up to, not including, `addr + size`. */
  datatype Extent = Extent(addr: nat, size: nat)
  {
    predicate Covers(w: nat) {
      addr <= w < addr + size
    }
  }

  predicate Disjoint(a: Extent, b: Extent) {
    a.addr + a.size <= b.addr || b.addr + b.size <= a.addr || a.size == 0 || b.size == 0
  }

  function One(e: Extent, w: nat): nat {
    if e.Covers(w) then 1 else 0
  }

  /** How many of the extents cover `w`. */
  function Count(s: seq<Extent>, w: nat): nat {
    if s == [] then 0 else One(s[0], w) + Count(s[1..], w)
  }

  function Total(s: seq<Extent>): nat {
    if s == [] then 0 else s[0].size + Total(s[1..])
  }

  function Without<T>(s: seq<T>, i: nat): (r: seq<T>)
    requires i < |s|
  {
    s[..i] + s[i + 1..]
  }

  lemma WithoutAt<T>(s: seq<T>, i: nat)
    requires i < |s|
    ensures |Without(s, i)| == |s| - 1
    ensures forall j :: 0 <= j < i ==> Without(s, i)[j] == s[j]
    ensures forall j :: i <= j < |s| - 1 ==> Without(s, i)[j] == s[j + 1]
  {}

  lemma {:induction false} CountConcat(a: seq<Extent>, b: seq<Extent>, w: nat)
    ensures Count(a + b, w) == Count(a, w) + Count(b, w)
  {
    if a == [] {
      assert a + b == b;
    } else {
      assert (a + b)[1..] == a[1..] + b;
      CountConcat(a[1..], b, w);
    }
  }

  lemma {:induction false} TotalConcat(a: seq<Extent>, b: seq<Extent>)
    ensures Total(a + b) == Total(a) + Total(b)
  {
    if a == [] {
      assert a + b == b;
    } else {
      assert (a + b)[1..] == a[1..] + b;
      TotalConcat(a[1..], b);
    }
  }

  lemma CountPush(s: seq<Extent>, e: Extent, w: nat)
    ensures Count(s + [e], w) == Count(s, w) + One(e, w)
    ensures Count([e] + s, w) == One(e, w) + Count(s, w)
  {
    CountConcat(s, [e], w);
    CountConcat([e], s, w);
    assert Count([e], w) == One(e, w) + Count([], w);
  }

  lemma TotalPush(s: seq<Extent>, e: Extent)
    ensures Total(s + [e]) == Total(s) + e.size
    ensures Total([e] + s) == e.size + Total(s)
  {
    TotalConcat(s, [e]);
    TotalConcat([e], s);
    assert Total([e]) == e.size + Total([]);
  }

  lemma CountWithout(s: seq<Extent>, i: nat, w: nat)
    requires i < |s|
    ensures Count(s, w) == Count(Without(s, i), w) + One(s[i], w)
  {
    assert s == s[..i] + ([s[i]] + s[i + 1..]);
    CountConcat(s[..i], [s[i]] + s[i + 1..], w);
    CountPush(s[i + 1..], s[i], w);
    CountConcat(s[..i], s[i + 1..], w);
  }

  lemma TotalWithout(s: seq<Extent>, i: nat)
    requires i < |s|
    ensures Total(s) == Total(Without(s, i)) + s[i].size
  {
    assert s == s[..i] + ([s[i]] + s[i + 1..]);
    TotalConcat(s[..i], [s[i]] + s[i + 1..]);
    TotalPush(s[i + 1..], s[i]);
    TotalConcat(s[..i], s[i + 1..]);
  }

  /** An address covered by an extent of the list is counted. */
  lemma CountAtLeast(s: seq<Extent>, i: nat, w: nat)
    requires i < |s| && s[i].Covers(w)
    ensures Count(s, w) >= 1
  {
    CountWithout(s, i, w);
  }

  /** A counted address lies in some extent of the list. */
  lemma {:induction false} CountWitness(s: seq<Extent>, w: nat) returns (i: nat)
    requires Count(s, w) >= 1
    ensures i < |s| && s[i].Covers(w)
  {
    if s[0].Covers(w) {
      i := 0;
    } else {
      var j := CountWitness(s[1..], w);
      i := j + 1;
    }
  }

  /** Extents of a list that covers no address twice are pairwise disjoint. */
  lemma CountedOnceDisjoint(s: seq<Extent>, i: nat, j: nat)
    requires i < j < |s|
    requires forall w: nat :: Count(s, w) <= 1
    ensures Disjoint(s[i], s[j])
  {
    if !Disjoint(s[i], s[j]) {
      var w := if s[i].addr <= s[j].addr then s[j].addr else s[i].addr;
      CountWithout(s, j, w);
      assert Without(s, j)[i] == s[i];
      CountAtLeast(Without(s, j), i, w);
    }
  }
}
