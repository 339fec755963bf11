/** The protobuf wire format as src/xn.pb.cc writes and reads it.

    Both record messages of the file hold singular strings only, numbered from 1 and written in
    that order, so a record is the sequence of its fields; both list messages hold one repeated
    record in field 1. */
module Wire {
  import opened Bytes

  type Fields = seq<Str>

  /** No message, and so no length prefix, reaches 2 GiB. */
  const MAX_SIZE: nat := 0x7FFF_FFFF

  const VARINT_BYTES: nat := 5

  // ----- writing -----

  /** Base 128 varint, least significant group first. */
  function Varint(n: nat): Str {
    if n < 128 then [n] else [128 + n % 128] + Varint(n / 128)
  }

  /** Tag of field `k` (counted from 1) with wire type 2: 10, 18, 26, 34, ... */
  function Tag(k: nat): nat {
    8 * k + 2
  }

  /** WriteString and InternalWriteMessage: tag, length, payload. */
  function Delimited(k: nat, payload: Str): Str {
    Varint(Tag(k)) + Varint(|payload|) + payload
  }

  /** Fields from number `k + 1` on; an empty string is not written. */
  function EncodeFrom(fs: Fields, k: nat): Str
    requires k <= |fs|
    decreases |fs| - k
  {
    if k == |fs| then []
    else if fs[k] == [] then EncodeFrom(fs, k + 1)
    else Delimited(k + 1, fs[k]) + EncodeFrom(fs, k + 1)
  }

  function EncodeRecord(fs: Fields): Str {
    EncodeFrom(fs, 0)
  }

  function EncodeList(items: seq<Fields>): Str {
    if items == [] then [] else Delimited(1, EncodeRecord(items[0])) + EncodeList(items[1..])
  }

  // ----- reading -----

  /** A value and the bytes after it. */
  datatype Parsed<+T> = Ok(value: T, rest: Str) | Malformed

  /** A varint of at most `limit` bytes. */
  function ReadVarint(b: Str, limit: nat): (r: Parsed<nat>)
    ensures r.Ok? ==> |r.rest| < |b|
  {
    if b == [] || limit == 0 then Malformed
    else if b[0] < 128 then Ok(b[0], b[1..])
    else
      match ReadVarint(b[1..], limit - 1)
      case Malformed => Malformed
      case Ok(high, rest) => Ok(b[0] - 128 + 128 * high, rest)
  }

  /** Tag and payload of one length-delimited field: the field number, then the bytes. */
  function ReadDelimited(b: Str): (r: Parsed<(nat, Str)>)
    ensures r.Ok? ==> |r.rest| < |b|
  {
    match ReadVarint(b, VARINT_BYTES)
    case Malformed => Malformed
    case Ok(tag, b1) =>
      match ReadVarint(b1, VARINT_BYTES)
      case Malformed => Malformed
      case Ok(size, b2) =>
        if tag % 8 != 2 || size > MAX_SIZE || size > |b2| then Malformed
        else Ok((tag / 8, b2[..size]), b2[size..])
  }

  /** The record parse table: field k+1 is a UTF-8 string and replaces what was read before. */
  function DecodeRecord(b: Str, fs: Fields): (r: Option<Fields>)
    ensures r.Some? ==> |r.value| == |fs|
    decreases |b|
  {
    if b == [] then Some(fs)
    else
      match ReadDelimited(b)
      case Malformed => None
      case Ok((k, payload), rest) =>
        if 1 <= k <= |fs| && ValidUtf8(payload) then DecodeRecord(rest, fs[k - 1 := payload])
        else None
  }

  /** A record of `arity` empty fields. */
  function Blank(arity: nat): (fs: Fields)
    ensures |fs| == arity
  {
    seq(arity, _ => [])
  }

  predicate OfArity(arity: nat, items: seq<Fields>) {
    forall i :: 0 <= i < |items| ==> |items[i]| == arity
  }

  /** The list parse table: field 1 is a record and is appended. */
  function DecodeList(arity: nat, b: Str, items: seq<Fields>): (r: Option<seq<Fields>>)
    requires OfArity(arity, items)
    ensures r.Some? ==> OfArity(arity, r.value)
    decreases |b|
  {
    if b == [] then Some(items)
    else
      match ReadDelimited(b)
      case Malformed => None
      case Ok((k, payload), rest) =>
        if k != 1 then None
        else
          match DecodeRecord(payload, Blank(arity))
          case None => None
          case Some(fs) => DecodeList(arity, rest, items + [fs])
  }

  // ----- MergeImpl -----

  /** A non-empty field of `from` replaces the field of `to`. */
  function Merge(to: Fields, from: Fields): (r: Fields)
    requires |to| == |from|
    ensures |r| == |to|
  {
    seq(|to|, i requires 0 <= i < |to| => if from[i] == [] then to[i] else from[i])
  }

  // ----- ByteSizeLong -----

  function VarintSize(n: nat): nat {
    if n < 128 then 1 else 1 + VarintSize(n / 128)
  }

  /** StringSize and MessageSize: a length prefix and what it announces. */
  function DelimitedSize(size: nat): nat {
    size + VarintSize(size)
  }

  function RecordSizeFrom(fs: Fields, k: nat): nat
    requires k <= |fs|
    decreases |fs| - k
  {
    if k == |fs| then 0
    else (if fs[k] == [] then 0 else 1 + DelimitedSize(|fs[k]|)) + RecordSizeFrom(fs, k + 1)
  }

  function RecordSize(fs: Fields): nat {
    RecordSizeFrom(fs, 0)
  }

  function ListSize(items: seq<Fields>): nat {
    if items == [] then 0 else 1 + DelimitedSize(RecordSize(items[0])) + ListSize(items[1..])
  }

  // ----- varints -----

  lemma {:induction false} VarintLength(n: nat)
    ensures |Varint(n)| == VarintSize(n) >= 1
  {
    if n >= 128 {
      VarintLength(n / 128);
    }
  }

  function Pow128(k: nat): (p: nat)
    ensures p >= 1
  {
    if k == 0 then 1 else 128 * Pow128(k - 1)
  }

  /** Reading undoes writing, in front of any bytes, for every number that fits the limit. */
  lemma {:induction false} ReadVarintUndoes(n: nat, limit: nat, rest: Str)
    requires limit > 0 && n < Pow128(limit)
    ensures ReadVarint(Varint(n) + rest, limit) == Ok(n, rest)
  {
    var b := Varint(n) + rest;
    if n < 128 {
      assert b[1..] == rest;
    } else {
      assert Pow128(limit) == 128 * Pow128(limit - 1);
      assert b[1..] == Varint(n / 128) + rest;
      ReadVarintUndoes(n / 128, limit - 1, rest);
    }
  }

  lemma {:induction false} ReadDelimitedUndoes(k: nat, payload: Str, rest: Str)
    requires k < 0x1000_0000 && |payload| <= MAX_SIZE
    ensures ReadDelimited(Delimited(k, payload) + rest) == Ok((k, payload), rest)
    ensures Delimited(k, payload) != []
  {
    assert Pow128(1) == 128;
    assert Pow128(3) == 128 * Pow128(2) && Pow128(5) == 128 * Pow128(4);
    assert Pow128(VARINT_BYTES) == 0x8_0000_0000;
    var tail := Varint(|payload|) + payload + rest;
    assert Delimited(k, payload) + rest == Varint(Tag(k)) + tail;
    ReadVarintUndoes(Tag(k), VARINT_BYTES, tail);
    assert tail == Varint(|payload|) + (payload + rest);
    ReadVarintUndoes(|payload|, VARINT_BYTES, payload + rest);
    VarintLength(Tag(k));
  }

  // ----- parsing undoes serialization -----

  /** The strings that a parser accepts. */
  predicate AllUtf8(fs: Fields) {
    Utf8From(fs, 0)
  }

  predicate Utf8From(fs: Fields, k: nat)
    requires k <= |fs|
    decreases |fs| - k
  {
    k == |fs| || (ValidUtf8(fs[k]) && Utf8From(fs, k + 1))
  }

  predicate ListUtf8(items: seq<Fields>) {
    items == [] || (AllUtf8(items[0]) && ListUtf8(items[1..]))
  }

  /** Field numbers whose tag is one byte, and a total the length prefixes can express. */
  predicate InRange(fs: Fields) {
    |fs| <= 15 && RecordSize(fs) <= MAX_SIZE
  }

  predicate ListInRange(arity: nat, items: seq<Fields>) {
    && arity <= 15
    && OfArity(arity, items)
    && ListSize(items) <= MAX_SIZE
  }

  lemma {:induction false} EncodeFromLength(fs: Fields, k: nat)
    requires k <= |fs| <= 15
    ensures |EncodeFrom(fs, k)| == RecordSizeFrom(fs, k)
    decreases |fs| - k
  {
    if k < |fs| {
      EncodeFromLength(fs, k + 1);
      VarintLength(|fs[k]|);
      VarintLength(Tag(k + 1));
      assert |Delimited(k + 1, fs[k])| == 1 + DelimitedSize(|fs[k]|);
    }
  }

  lemma {:induction false} FieldFits(fs: Fields, k: nat, i: nat)
    requires k <= i < |fs|
    ensures |fs[i]| <= RecordSizeFrom(fs, k)
    decreases i - k
  {
    if k < i {
      FieldFits(fs, k + 1, i);
    }
  }

  /** ByteSizeLong is the length of what is written, for every record and every list. */
  lemma RecordSizeIsLength(fs: Fields)
    requires |fs| <= 15
    ensures RecordSize(fs) == |EncodeRecord(fs)|
  {
    EncodeFromLength(fs, 0);
  }

  lemma {:induction false} ListSizeIsLength(items: seq<Fields>)
    requires forall i :: 0 <= i < |items| ==> |items[i]| <= 15
    ensures ListSize(items) == |EncodeList(items)|
  {
    if items != [] {
      RecordSizeIsLength(items[0]);
      VarintLength(RecordSize(items[0]));
      ListSizeIsLength(items[1..]);
    }
  }

  /** Merge restricted to the fields from number `k + 1` on. */
  function MergeFrom(to: Fields, from: Fields, k: nat): (r: Fields)
    requires |to| == |from|
    ensures |r| == |to|
  {
    seq(|to|, i requires 0 <= i < |to| => if i < k || from[i] == [] then to[i] else from[i])
  }

  lemma DecodeOneField(k: nat, payload: Str, rest: Str, m: Fields)
    requires k < |m| <= 15 && |payload| <= MAX_SIZE
    ensures DecodeRecord(Delimited(k + 1, payload) + rest, m) ==
            if ValidUtf8(payload) then DecodeRecord(rest, m[k := payload]) else None
  {
    ReadDelimitedUndoes(k + 1, payload, rest);
  }

  lemma MergeFromStep(fs: Fields, k: nat, m: Fields)
    requires k <= |fs| == |m|
    ensures k == |fs| ==> MergeFrom(m, fs, k) == m
    ensures k < |fs| ==> MergeFrom(m, fs, k) == MergeFrom(if fs[k] == [] then m else m[k := fs[k]], fs, k + 1)
  {
  }

  /** Reading back the next field, written or left out. */
  lemma DecodeFieldStep(fs: Fields, k: nat, m: Fields, rest: Str)
    requires k < |fs| == |m| <= 15 && |fs[k]| <= MAX_SIZE
    ensures DecodeRecord(EncodeFrom(fs, k) + rest, m) ==
            if !ValidUtf8(fs[k]) then None
            else DecodeRecord(EncodeFrom(fs, k + 1) + rest, if fs[k] == [] then m else m[k := fs[k]])
  {
    var tail := EncodeFrom(fs, k + 1) + rest;
    if fs[k] == [] {
      assert EncodeFrom(fs, k) == EncodeFrom(fs, k + 1);
    } else {
      assert EncodeFrom(fs, k) + rest == Delimited(k + 1, fs[k]) + tail;
      DecodeOneField(k, fs[k], tail, m);
    }
  }

  lemma {:induction false} DecodeFieldsFrom(fs: Fields, k: nat, m: Fields, rest: Str)
    requires k <= |fs| == |m| <= 15
    requires forall i :: k <= i < |fs| ==> |fs[i]| <= MAX_SIZE
    ensures DecodeRecord(EncodeFrom(fs, k) + rest, m) ==
            if Utf8From(fs, k) then DecodeRecord(rest, MergeFrom(m, fs, k)) else None
    decreases |fs| - k
  {
    MergeFromStep(fs, k, m);
    if k == |fs| {
      assert EncodeFrom(fs, k) + rest == rest;
      return;
    }
    var m' := if fs[k] == [] then m else m[k := fs[k]];
    DecodeFieldStep(fs, k, m, rest);
    DecodeFieldsFrom(fs, k + 1, m', rest);
    assert Utf8From(fs, k) == (ValidUtf8(fs[k]) && Utf8From(fs, k + 1));
  }

  /** Reading the bytes of `fs` into a record that already holds `m` is MergeImpl, whatever
      follows; an ill-formed string makes the parser give up. */
  lemma RecordDecodesToMerge(fs: Fields, m: Fields, rest: Str)
    requires |fs| == |m| && InRange(fs)
    ensures DecodeRecord(EncodeRecord(fs) + rest, m) ==
            if AllUtf8(fs) then DecodeRecord(rest, Merge(m, fs)) else None
  {
    forall i | 0 <= i < |fs|
      ensures |fs[i]| <= MAX_SIZE
    {
      FieldFits(fs, 0, i);
    }
    DecodeFieldsFrom(fs, 0, m, rest);
    assert MergeFrom(m, fs, 0) == Merge(m, fs);
  }

  /** A record survives the round trip exactly when all its strings are UTF-8. */
  lemma RecordRoundTrip(fs: Fields)
    requires InRange(fs)
    ensures DecodeRecord(EncodeRecord(fs), Blank(|fs|)) == if AllUtf8(fs) then Some(fs) else None
  {
    RecordDecodesToMerge(fs, Blank(|fs|), []);
    assert EncodeRecord(fs) + [] == EncodeRecord(fs);
    assert Merge(Blank(|fs|), fs) == fs;
  }

  lemma DecodeOneItem(arity: nat, fs: Fields, before: seq<Fields>, rest: Str)
    requires |fs| == arity && InRange(fs)
    requires OfArity(arity, before)
    ensures DecodeList(arity, Delimited(1, EncodeRecord(fs)) + rest, before) ==
            if AllUtf8(fs) then DecodeList(arity, rest, before + [fs]) else None
  {
    RecordSizeIsLength(fs);
    ReadDelimitedUndoes(1, EncodeRecord(fs), rest);
    RecordRoundTrip(fs);
  }

  lemma EncodeListStep(items: seq<Fields>, rest: Str)
    requires items != []
    ensures EncodeList(items) + rest == Delimited(1, EncodeRecord(items[0])) + (EncodeList(items[1..]) + rest)
  {
  }

  lemma {:induction false} ListDecodesToAppend(arity: nat, items: seq<Fields>, before: seq<Fields>, rest: Str)
    requires ListInRange(arity, items) && OfArity(arity, before)
    ensures DecodeList(arity, EncodeList(items) + rest, before) ==
            if ListUtf8(items) then DecodeList(arity, rest, before + items) else None
    decreases |items|
  {
    if items == [] {
      assert EncodeList(items) + rest == rest;
      assert before + items == before;
      return;
    }
    var more := before + [items[0]];
    assert more + items[1..] == before + items;
    EncodeListStep(items, rest);
    DecodeOneItem(arity, items[0], before, EncodeList(items[1..]) + rest);
    ListDecodesToAppend(arity, items[1..], more, rest);
  }

  /** A list survives the round trip exactly when every string of every record is UTF-8; empty
      fields and all-empty records are no exception. */
  lemma ListRoundTrip(arity: nat, items: seq<Fields>)
    requires ListInRange(arity, items)
    ensures DecodeList(arity, EncodeList(items), []) ==
            if ListUtf8(items) then Some(items) else None
  {
    ListDecodesToAppend(arity, items, [], []);
    assert EncodeList(items) + [] == EncodeList(items);
    assert [] + items == items;
  }

  // ----- concatenation is merge, for any input the parser accepts -----

  lemma {:induction false} ReadVarintExtends(a: Str, b: Str, limit: nat)
    requires ReadVarint(a, limit).Ok?
    ensures ReadVarint(a + b, limit) == ReadVarint(a, limit).(rest := ReadVarint(a, limit).rest + b)
  {
    assert (a + b)[1..] == a[1..] + b;
    if a[0] >= 128 {
      ReadVarintExtends(a[1..], b, limit - 1);
    }
  }

  lemma ReadDelimitedExtends(a: Str, b: Str)
    requires ReadDelimited(a).Ok?
    ensures ReadDelimited(a + b) == ReadDelimited(a).(rest := ReadDelimited(a).rest + b)
  {
    ReadVarintExtends(a, b, VARINT_BYTES);
    var b1 := ReadVarint(a, VARINT_BYTES).rest;
    ReadVarintExtends(b1, b, VARINT_BYTES);
    var Ok(size, b2) := ReadVarint(b1, VARINT_BYTES);
    assert (b2 + b)[..size] == b2[..size];
    assert (b2 + b)[size..] == b2[size..] + b;
  }

  lemma {:induction false} RecordConcat(a: Str, b: Str, m: Fields)
    requires DecodeRecord(a, m).Some?
    ensures DecodeRecord(a + b, m) == DecodeRecord(b, DecodeRecord(a, m).value)
    decreases |a|
  {
    if a == [] {
      assert a + b == b;
    } else {
      ReadDelimitedExtends(a, b);
      var Ok((k, payload), rest) := ReadDelimited(a);
      RecordConcat(rest, b, m[k - 1 := payload]);
    }
  }

  lemma Regrouped(before: seq<Fields>, fs: Fields, items: seq<Fields>)
    ensures before + [fs] + items == before + ([] + [fs] + items)
  {
  }

  lemma {:induction false} ListPrefix(arity: nat, b: Str, before: seq<Fields>)
    requires OfArity(arity, before)
    ensures DecodeList(arity, b, before) ==
            match DecodeList(arity, b, []) case None => None case Some(items) => Some(before + items)
    decreases |b|
  {
    if b == [] {
      assert before + [] == before;
    } else if ReadDelimited(b).Ok? {
      var Ok((k, payload), rest) := ReadDelimited(b);
      if k == 1 && DecodeRecord(payload, Blank(arity)).Some? {
        var fs := DecodeRecord(payload, Blank(arity)).value;
        ListPrefix(arity, rest, before + [fs]);
        ListPrefix(arity, rest, [] + [fs]);
        if DecodeList(arity, rest, []).Some? {
          var items := DecodeList(arity, rest, []).value;
          Regrouped(before, fs, items);
        }
      }
    }
  }

  /** Decoding the bytes of one list and then of another gives the two lists appended, for every
      input the parser accepts, not only for what the serializer writes. */
  lemma {:induction false} ListConcat(arity: nat, a: Str, b: Str, before: seq<Fields>)
    requires OfArity(arity, before)
    requires DecodeList(arity, a, before).Some?
    ensures DecodeList(arity, a + b, before) ==
            match DecodeList(arity, b, [])
            case None => None
            case Some(items) => Some(DecodeList(arity, a, before).value + items)
    decreases |a|
  {
    if a == [] {
      assert a + b == b;
      ListPrefix(arity, b, before);
    } else {
      ReadDelimitedExtends(a, b);
      var Ok((k, payload), rest) := ReadDelimited(a);
      ListConcat(arity, rest, b, before + [DecodeRecord(payload, Blank(arity)).value]);
    }
  }
}
