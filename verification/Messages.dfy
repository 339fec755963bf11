/** The message objects of src/xn.pb.cc: sizes are computed and cached first, then the bytes are
    written with the cached sizes as length prefixes. */
module Messages {
  import opened Bytes
  import opened Wire

  /** QuestionAnswer (four fields) and QuestionAnswerGroup (three). */
  class RecordMessage {
    var fields: Fields
    var cachedSize: nat

    constructor (arity: nat)
      ensures fields == Blank(arity) && cachedSize == 0
    {
      fields, cachedSize := Blank(arity), 0;
    }

    method ByteSizeLong() returns (size: nat)
      modifies this`cachedSize
      ensures size == cachedSize == RecordSize(fields)
    {
      size := 0;
      for k := 0 to |fields|
        invariant size + RecordSizeFrom(fields, k) == RecordSize(fields)
      {
        if |fields[k]| > 0 {
          size := size + 1 + |fields[k]| + VarintSize(|fields[k]|);
        }
      }
      cachedSize := size;
    }

    method InternalSerialize(target: Str) returns (end: Str)
      ensures end == target + EncodeRecord(fields)
    {
      end := target;
      for k := 0 to |fields|
        invariant end + EncodeFrom(fields, k) == target + EncodeRecord(fields)
      {
        if |fields[k]| > 0 {
          WriteSplits(end, k + 1, fields[k], EncodeFrom(fields, k + 1));
          end := end + Varint(Tag(k + 1));
          end := end + Varint(|fields[k]|);
          end := end + fields[k];
        }
      }
    }

    method Clear()
      modifies this`fields
      ensures fields == Blank(|old(fields)|)
    {
      fields := Blank(|fields|);
    }

    method MergeImpl(from: RecordMessage)
      requires from != this && |from.fields| == |fields|
      modifies this`fields
      ensures fields == Merge(old(fields), from.fields)
    {
      for k := 0 to |fields|
        invariant |fields| == |from.fields| == |old(fields)|
        invariant forall i :: 0 <= i < |fields| ==>
          fields[i] == if i < k && from.fields[i] != [] then from.fields[i] else old(fields)[i]
      {
        if |from.fields[k]| > 0 {
          fields := fields[k := from.fields[k]];
        }
      }
    }

    method CopyFrom(from: RecordMessage)
      requires |from.fields| == |fields|
      modifies this`fields
      ensures fields == old(from.fields)
    {
      if from == this {
        return;
      }
      Clear();
      MergeImpl(from);
      MergeIntoBlank(from.fields);
    }
  }

  lemma WriteSplits(end: Str, k: nat, payload: Str, rest: Str)
    ensures end + (Delimited(k, payload) + rest) == (end + Varint(Tag(k)) + Varint(|payload|) + payload) + rest
  {
    Regroup(end, Varint(Tag(k)), Varint(|payload|), payload, rest);
  }

  lemma Regroup(a: Str, b: Str, c: Str, d: Str, e: Str)
    ensures a + ((b + c + d) + e) == (a + b + c + d) + e
  {
  }

  /** Merging into a cleared record copies it. */
  lemma MergeIntoBlank(fs: Fields)
    ensures Merge(Blank(|fs|), fs) == fs
  {
  }

  /** QuestionAnswerList and QuestionAnswerGroupList. */
  class RecordList {
    var items: seq<RecordMessage>
    var cachedSize: nat

    constructor ()
      ensures items == [] && cachedSize == 0
    {
      items, cachedSize := [], 0;
    }

    ghost function Values(): (fss: seq<Fields>)
      reads this, items
      ensures |fss| == |items|
    {
      seq(|items|, i requires 0 <= i < |items| reads this, items => items[i].fields)
    }

    /** Every item's cached size is its size. */
    ghost predicate Sized()
      reads this, items
    {
      forall i :: 0 <= i < |items| ==> items[i].cachedSize == RecordSize(items[i].fields)
    }

    method ByteSizeLong() returns (size: nat)
      modifies this`cachedSize, items`cachedSize
      ensures size == cachedSize == ListSize(Values())
      ensures Sized() && Values() == old(Values())
    {
      size := |items|;
      ghost var values := Values();
      assert values[0..] == values;
      for i := 0 to |items|
        invariant Values() == values
        invariant size + ListSize(values[i..]) == ListSize(values) + (|items| - i)
        invariant forall j :: 0 <= j < i ==> items[j].cachedSize == RecordSize(items[j].fields)
      {
        var itemSize := items[i].ByteSizeLong();
        assert Values() == values;
        assert values[i] == items[i].fields;
        assert values[i..][1..] == values[i + 1..];
        size := size + itemSize + VarintSize(itemSize);
      }
      assert values[|items|..] == [];
      cachedSize := size;
      assert Values() == values;
    }

    method InternalSerialize(target: Str) returns (end: Str)
      requires Sized() && forall i :: 0 <= i < |items| ==> |items[i].fields| <= 15
      ensures end == target + EncodeList(Values())
    {
      end := target;
      ghost var values := Values();
      assert values[0..] == values;
      for i := 0 to |items|
        invariant end + EncodeList(values[i..]) == target + EncodeList(values)
      {
        var item := items[i];
        assert values[i..][1..] == values[i + 1..];
        RecordSizeIsLength(item.fields);
        WriteSplits(end, 1, EncodeRecord(item.fields), EncodeList(values[i + 1..]));
        end := end + Varint(Tag(1));
        end := end + Varint(item.cachedSize);
        end := item.InternalSerialize(end);
      }
    }

    /** SerializeToOstream: sizes first, then bytes. */
    method Serialize() returns (bytes: Str)
      requires forall i :: 0 <= i < |items| ==> |items[i].fields| <= 15
      modifies this`cachedSize, items`cachedSize
      ensures bytes == EncodeList(old(Values())) && Values() == old(Values())
      ensures cachedSize == |bytes|
    {
      var size := ByteSizeLong();
      ghost var values := Values();
      assert forall i :: 0 <= i < |values| ==> |values[i]| <= 15;
      ListSizeIsLength(values);
      bytes := InternalSerialize([]);
    }

    /** Appends a copy of every item of the other list. */
    method MergeImpl(from: RecordList)
      requires from != this
      modifies this`items
      ensures Values() == old(Values()) + from.Values()
      ensures |items| == old(|items|) + |from.items| && items[..old(|items|)] == old(items)
      ensures fresh(set i | old(|items|) <= i < |items| :: items[i])
    {
      for k := 0 to |from.items|
        invariant from.items == old(from.items)
        invariant |items| == old(|items|) + k && items[..old(|items|)] == old(items)
        invariant fresh(set i | old(|items|) <= i < |items| :: items[i])
        invariant forall i :: 0 <= i < k ==> items[old(|items|) + i].fields == from.items[i].fields
      {
        var item := new RecordMessage(|from.items[k].fields|);
        item.CopyFrom(from.items[k]);
        items := items + [item];
      }
    }
  }
}
