/** NUL-terminated strings in byte sequences, and which of them are UTF-8. */
module CStrings {
  import opened Prelude
  import opened Bytes

  /** How many bytes from `cursor` to the first NUL. */
  function NulAt(bytes: seq<Byte>, cursor: nat): (r: Option<nat>)
    requires cursor <= |bytes|
    ensures r.Some? ==> cursor + r.value < |bytes| && bytes[cursor + r.value] == 0
    ensures forall j :: cursor <= j < (if r.Some? then cursor + r.value else |bytes|) ==> bytes[j] != 0
    decreases |bytes| - cursor
  {
    if cursor == |bytes| then None
    else if bytes[cursor] == 0 then Some(0)
    else
      match NulAt(bytes, cursor + 1)
      case None => None
      case Some(n) => Some(n + 1)
  }

  predicate NulFree(s: seq<Byte>) {
    forall i :: 0 <= i < |s| ==> s[i] != 0
  }

  /** A NUL-terminated string stands at `cursor`. */
  predicate CStringAt(bytes: seq<Byte>, cursor: nat, s: seq<Byte>) {
    At(bytes, cursor, s + [0])
  }

  lemma CStringRead(bytes: seq<Byte>, cursor: nat, s: seq<Byte>)
    requires CStringAt(bytes, cursor, s) && NulFree(s)
    ensures cursor + |s| < |bytes| && NulAt(bytes, cursor) == Some(|s|) && bytes[cursor..cursor + |s|] == s
  {
    var n := NulAt(bytes, cursor);
    AtIndex(bytes, cursor, s + [0], |s|);
    if n.Some? && n.value < |s| {
      AtIndex(bytes, cursor, s + [0], n.value);
    }
    AtConcat(bytes, cursor, s, [0]);
  }

  /** Up to the first NUL stands exactly the one string that is terminated there. */
  lemma CStringMeaning(bytes: seq<Byte>, cursor: nat, s: seq<Byte>)
    ensures CStringAt(bytes, cursor, s) && NulFree(s)
       <==> cursor <= |bytes| && NulAt(bytes, cursor) == Some(|s|) && bytes[cursor..cursor + |s|] == s
  {
    if CStringAt(bytes, cursor, s) && NulFree(s) {
      CStringRead(bytes, cursor, s);
    }
    if cursor <= |bytes| && NulAt(bytes, cursor) == Some(|s|) && bytes[cursor..cursor + |s|] == s {
      AtConcat(bytes, cursor, s, [0]);
      assert bytes[cursor + |s|..cursor + |s| + 1] == [0];
      assert forall i :: 0 <= i < |s| ==> s[i] == bytes[cursor + i];
    }
  }

  predicate Continuation(b: Byte) {
    0x80 <= b < 0xC0
  }

  /** Well-formed UTF-8 (table 3-7 of the Unicode standard). */
  predicate Utf8(s: seq<Byte>) {
    if s == [] then true
    else if s[0] < 0x80 then Utf8(s[1..])
    else if 0xC2 <= s[0] <= 0xDF then |s| >= 2 && Continuation(s[1]) && Utf8(s[2..])
    else if 0xE0 <= s[0] <= 0xEF then
      && |s| >= 3 && Continuation(s[1]) && Continuation(s[2])
      && (s[0] == 0xE0 ==> s[1] >= 0xA0) && (s[0] == 0xED ==> s[1] < 0xA0) && Utf8(s[3..])
    else if 0xF0 <= s[0] <= 0xF4 then
      && |s| >= 4 && Continuation(s[1]) && Continuation(s[2]) && Continuation(s[3])
      && (s[0] == 0xF0 ==> s[1] >= 0x90) && (s[0] == 0xF4 ==> s[1] < 0x90) && Utf8(s[4..])
    else false
  }
}
