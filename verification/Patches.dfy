/** Lists of 8-byte stores into an image: what they leave where, and when their order does not matter. */
module Patches {
  import opened Prelude
  import opened Bits
  import opened Bytes

  datatype Patch = Patch(offset: nat, value: nat)
  {
    predicate Covers(k: nat) {
      offset <= k < offset + 8
    }
  }

  predicate Inside(length: nat, ps: seq<Patch>) {
    forall i :: 0 <= i < |ps| ==> ps[i].offset + 8 <= length
  }

  /** No two patches overlap. */
  predicate Apart(ps: seq<Patch>) {
    forall i, j :: 0 <= i < j < |ps| ==> ps[i].offset + 8 <= ps[j].offset || ps[j].offset + 8 <= ps[i].offset
  }

  function Put(bytes: seq<Byte>, p: Patch): (r: seq<Byte>)
    requires p.offset + 8 <= |bytes|
    ensures |r| == |bytes|
  {
    bytes[..p.offset] + Encode(p.value, 8) + bytes[p.offset + 8..]
  }

  function PutAll(bytes: seq<Byte>, ps: seq<Patch>): (r: seq<Byte>)
    requires Inside(|bytes|, ps)
    ensures |r| == |bytes|
    decreases |ps|
  {
    if ps == [] then bytes else PutAll(Put(bytes, ps[0]), ps[1..])
  }

  lemma PutAt(bytes: seq<Byte>, p: Patch, k: nat)
    requires p.offset + 8 <= |bytes| && k < |bytes|
    ensures Put(bytes, p)[k] == if p.Covers(k) then Encode(p.value, 8)[k - p.offset] else bytes[k]
  {}

  lemma PutAllPush(bytes: seq<Byte>, ps: seq<Patch>, p: Patch)
    requires Inside(|bytes|, ps) && p.offset + 8 <= |bytes|
    ensures Inside(|bytes|, ps + [p]) && PutAll(bytes, ps + [p]) == Put(PutAll(bytes, ps), p)
    decreases |ps|
  {
    hide Put, Encode;
    if ps == [] {
      assert [] + [p] == [p];
      assert PutAll(bytes, [p]) == PutAll(Put(bytes, p), [p][1..]);
    } else {
      assert (ps + [p])[1..] == ps[1..] + [p];
      PutAllPush(Put(bytes, ps[0]), ps[1..], p);
    }
  }

  /** A byte outside every patch is untouched. */
  lemma {:induction false} UntouchedAt(bytes: seq<Byte>, ps: seq<Patch>, k: nat)
    requires Inside(|bytes|, ps) && k < |bytes|
    requires forall i :: 0 <= i < |ps| ==> !ps[i].Covers(k)
    ensures PutAll(bytes, ps)[k] == bytes[k]
    decreases |ps|
  {
    hide Put;
    if ps != [] {
      PutAt(bytes, ps[0], k);
      UntouchedAt(Put(bytes, ps[0]), ps[1..], k);
    }
  }

  /** A byte inside a patch that no other patch overlaps is the patch's. */
  lemma {:induction false} PatchedAt(bytes: seq<Byte>, ps: seq<Patch>, i: nat, k: nat)
    requires Inside(|bytes|, ps) && Apart(ps) && i < |ps| && ps[i].Covers(k)
    ensures k < |bytes| && PutAll(bytes, ps)[k] == Encode(ps[i].value, 8)[k - ps[i].offset]
    decreases |ps|
  {
    hide Put, Encode;
    if i == 0 {
      PutAt(bytes, ps[0], k);
      UntouchedAt(Put(bytes, ps[0]), ps[1..], k);
    } else {
      PatchedAt(Put(bytes, ps[0]), ps[1..], i - 1, k);
    }
  }

  /** Every patch can be read back. */
  lemma {:induction false} ReadBack(bytes: seq<Byte>, ps: seq<Patch>, i: nat)
    requires Inside(|bytes|, ps) && Apart(ps) && i < |ps| && ps[i].value < U64
    ensures Read(PutAll(bytes, ps), ps[i].offset, 8) == Some(ps[i].value)
  {
    hide Put, Encode, PutAll;
    var p, r := ps[i], PutAll(bytes, ps);
    forall k | p.offset <= k < p.offset + 8
      ensures r[k] == Encode(p.value, 8)[k - p.offset]
    {
      PatchedAt(bytes, ps, i, k);
    }
    assert r[p.offset..p.offset + 8] == Encode(p.value, 8);
    Limits();
    ValueOfEncode(p.value, 8);
  }

  predicate Touched(ps: seq<Patch>, k: nat) {
    exists i :: 0 <= i < |ps| && ps[i].Covers(k)
  }

  /** Patches that do not overlap give the same image in every order. */
  lemma {:induction false} OrderIrrelevant(bytes: seq<Byte>, ps: seq<Patch>, qs: seq<Patch>)
    requires Inside(|bytes|, ps) && Apart(ps) && Inside(|bytes|, qs) && Apart(qs)
    requires forall p :: p in ps <==> p in qs
    ensures PutAll(bytes, ps) == PutAll(bytes, qs)
  {
    hide Put, Encode, PutAll;
    forall k: nat | k < |bytes|
      ensures PutAll(bytes, ps)[k] == PutAll(bytes, qs)[k]
    {
      if Touched(ps, k) {
        var i :| 0 <= i < |ps| && ps[i].Covers(k);
        assert ps[i] in qs;
        var j :| 0 <= j < |qs| && qs[j] == ps[i];
        PatchedAt(bytes, ps, i, k);
        PatchedAt(bytes, qs, j, k);
      } else {
        forall j | 0 <= j < |qs|
          ensures !qs[j].Covers(k)
        {
          assert qs[j] in ps;
          var i :| 0 <= i < |ps| && ps[i] == qs[j];
        }
        UntouchedAt(bytes, ps, k);
        UntouchedAt(bytes, qs, k);
      }
    }
  }
}
