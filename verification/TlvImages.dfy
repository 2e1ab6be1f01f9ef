/** The table that maps thread-local storage keys to loaded images. */
module TlvImages {

  datatype ImageInfo = ImageInfo(key: nat, header: nat)

  /** The image of the first entry with that key, 0 (NULL) if there is none. */
  function ImageFor(table: seq<ImageInfo>, key: nat): nat {
    if table == [] then 0 else if table[0].key == key then table[0].header else ImageFor(table[1..], key)
  }

  lemma {:induction false} ImageForPush(table: seq<ImageInfo>, info: ImageInfo, key: nat)
    ensures ImageFor(table + [info], key) ==
      if (exists i :: 0 <= i < |table| && table[i].key == key) then ImageFor(table, key)
      else if info.key == key then info.header else 0
  {
    if table == [] {
      assert [] + [info] == [info] && [info][1..] == [];
    } else {
      assert (table + [info])[1..] == table[1..] + [info];
      ImageForPush(table[1..], info, key);
      if i :| 0 <= i < |table| && table[i].key == key {
        assert i > 0 ==> table[1..][i - 1] == table[i];
      }
      if i :| 0 <= i < |table[1..]| && table[1..][i].key == key {
        assert table[i + 1] == table[1..][i];
      }
    }
  }

  class LiveImages {
    var images: array?<ImageInfo>
    var allocCount: nat
    var usedCount: nat

    ghost predicate Valid()
      reads this
    {
      if images == null then allocCount == usedCount == 0
      else images.Length == allocCount && usedCount <= allocCount && allocCount >= 8
    }

    ghost function Table(): seq<ImageInfo>
      requires Valid()
      reads this, images
    {
      if images == null then [] else images[..usedCount]
    }

    constructor ()
      ensures Valid() && Table() == []
    {
      images, allocCount, usedCount := null, 0, 0;
    }

    /** `tlv_set_key_for_image`: the pair is appended; a full table is moved to one of twice the size. */
    method SetKeyForImage(header: nat, key: nat)
      requires Valid()
      modifies this, images
      ensures Valid() && Table() == old(Table()) + [ImageInfo(key, header)]
      ensures images != old(images) ==> fresh(images)
      ensures allocCount == if old(usedCount) < old(allocCount) then old(allocCount)
            else if old(images) == null then 8 else 2 * old(allocCount)
    {
      ghost var before := Table();
      if usedCount == allocCount {
        var newCount := if images == null then 8 else 2 * allocCount;
        var newBuffer := new ImageInfo[newCount](_ => ImageInfo(0, 0));
        if images != null {
          forall i | 0 <= i < usedCount {
            newBuffer[i] := images[i];
          }
        }
        images := newBuffer;
        allocCount := newCount;
        assert images[..usedCount] == before;
      }
      images[usedCount] := ImageInfo(key, header);
      usedCount := usedCount + 1;
      assert images[..usedCount] == before + [ImageInfo(key, header)];
    }

    /** `tlv_get_image_for_key`. */
    method GetImageForKey(key: nat) returns (result: nat)
      requires Valid()
      ensures result == ImageFor(Table(), key)
    {
      result := 0;
      assert Table()[0..] == Table();
      for i := 0 to usedCount
        invariant ImageFor(Table(), key) == ImageFor(Table()[i..], key)
        invariant result == 0
      {
        assert Table()[i..][1..] == Table()[i + 1..];
        if images[i].key == key {
          result := images[i].header;
          return;
        }
      }
    }
  }

  /** Keys that are created once each lead back to the image they were set for. */
  lemma {:induction false} KeysLeadBack(table: seq<ImageInfo>, i: nat)
    requires i < |table| && forall j :: 0 <= j < i ==> table[j].key != table[i].key
    ensures ImageFor(table, table[i].key) == table[i].header
  {
    if i > 0 {
      KeysLeadBack(table[1..], i - 1);
    }
  }
}
