/** What is received is what was sent, and whatever is accepted has the asked type. */
module CodecTheorems {
  import opened Basics
  import opened Endian
  import opened Codec
  import Intervals

  // ---------------------------------------------------------------------------------------
  // Round trip

  /** Every length and count the encoding writes fits the 32 bits it is written in. */
  predicate Encodable(t: Ty, v: Val)
    requires HasType(t, v)
    decreases t
  {
    v.Null? ||
    (&& SizeOf(t, v) <= MAX_SIZE
     && match t.shape
        case ArrayOf(e) =>
          |v.items| <= MAX_SIZE && forall i :: 0 <= i < |v.items| ==> Encodable(e, v.items[i])
        case Composite(fs) =>
          |fs| <= MAX_SIZE && forall i :: 0 <= i < |fs| ==> Encodable(fs[i], v.columns[i])
        case _ => true)
  }

  predicate AllEncodable(e: Ty, items: seq<Val>)
    requires AllHaveType(e, items)
  {
    forall i :: 0 <= i < |items| ==> Encodable(e, items[i])
  }

  predicate RowEncodable(fs: seq<Ty>, columns: seq<Val>)
    requires RowHasType(fs, columns)
  {
    forall i :: 0 <= i < |fs| ==> Encodable(fs[i], columns[i])
  }

  lemma Base4()
    ensures Base(4) == 0x1_0000_0000 && Base(3) == 0x100_0000
  {
    assert Base(1) == 256 && Base(2) == 0x1_0000;
  }

  lemma ReadIntOf(x: int, rest: Bytes)
    requires -0x8000_0000 <= x <= MAX_SIZE
    ensures ReadInt(Encode(4, x) + rest) == Ok(Got(x, rest))
  {
    Base4();
    var input := Encode(4, x) + rest;
    assert input[..4] == Encode(4, x) && input[4..] == rest;
    DecodeEncode(4, x);
  }

  lemma ReadOidOf(x: Oid, rest: Bytes)
    ensures ReadOid(Encode(4, x) + rest) == Ok(Got(x, rest))
  {
    Base4();
    var input := Encode(4, x) + rest;
    assert input[..4] == Encode(4, x) && input[4..] == rest;
    ValueEncode(4, x);
  }

  lemma IntervalRoundTrip(i: Intervals.PgInterval)
    ensures IntervalOf(IntervalBytes(i)) == i
  {
    var bs := IntervalBytes(i);
    assert bs[..8] == Encode(8, i.microseconds);
    assert bs[8..12] == Encode(4, i.days);
    assert bs[12..] == Encode(4, i.months);
    Base4();
    assert Base(7) == 0x100_0000_0000_0000 by { assert Base(5) == 256 * Base(4) && Base(6) == 256 * Base(5); }
    DecodeEncode(8, i.microseconds);
    DecodeEncode(4, i.days);
    DecodeEncode(4, i.months);
  }

  lemma ScalarRoundTrip(k: Kind, v: Val)
    requires IsScalar(k, v)
    ensures ScalarOf(k, ScalarBytes(k, v)) == v
  {
    match k
    case Int16 => DecodeEncode(2, v.n);
    case Int32 => DecodeEncode(4, v.n);
    case Int64 => DecodeEncode(8, v.n);
    case Bool =>
      var x := if v.b then 1 else 0;
      assert Encode(1, x) == [x] by { assert Base(1) == 256; assert BigEndian(1, x) == BigEndian(0, 0) + [x]; }
    case Interval =>
      IntervalRoundTrip(Intervals.FromChrono(v.ticks));
      Intervals.RoundTrip(v.ticks);
  }

  lemma ScalarReads(oids: OidMap, k: Kind, v: Val, rest: Bytes)
    requires IsScalar(k, v)
    ensures RecvShape(oids, Scalar(k), Width(k), ScalarBytes(k, v) + rest) == Ok(Got(v, rest))
  {
    var bs := ScalarBytes(k, v);
    assert (bs + rest)[..|bs|] == bs && (bs + rest)[|bs|..] == rest;
    ScalarRoundTrip(k, v);
  }

  /** Received with the size announced for it, a value comes back and exactly its bytes are consumed. */
  lemma {:induction false} RoundTrip(oids: OidMap, t: Ty, v: Val, oid: Option<Oid>, rest: Bytes)
    requires HasType(t, v) && Encodable(t, v)
    requires oid == None || oid == Some(oids(t.shape))
    ensures Recv(oids, t, oid, SizeOf(t, v), Send(oids, t, v) + rest) == Ok(Got(v, rest))
    decreases t, 1
  {
    if v.Null? {
      assert [] + rest == rest;
    } else {
      match t.shape
      case Scalar(k) =>
        ScalarReads(oids, k, v, rest);
      case Text =>
        assert (v.bytes + rest)[..|v.bytes|] == v.bytes && (v.bytes + rest)[|v.bytes|..] == rest;
      case ArrayOf(e) =>
        ArrayRoundTrip(oids, e, v.items, rest);
      case Composite(fs) =>
        CompositeRoundTrip(oids, t.shape, v.columns, SizeOf(t, v), rest);
    }
  }

  lemma {:induction false} CompositeRoundTrip(oids: OidMap, s: Shape, columns: seq<Val>, size: int, rest: Bytes)
    requires s.Composite? && RowHasType(s.fields, columns) && RowEncodable(s.fields, columns)
    requires |s.fields| <= MAX_SIZE
    ensures RecvShape(oids, s, size, Encode(4, |s.fields|) + SendRow(oids, s.fields, columns) + rest)
         == Ok(Got(Row(columns), rest))
    decreases s, 0
  {
    var count, body := Encode(4, |s.fields|), SendRow(oids, s.fields, columns);
    assert count + body + rest == count + (body + rest);
    ReadIntOf(|s.fields|, body + rest);
    RowRoundTrip(oids, s.fields, columns, rest);
  }

  /** After a whole header, an array is received as its elements are. */
  lemma ArrayHeaderReads(oids: OidMap, e: Ty, n: nat, tail: Bytes)
    requires n <= MAX_SIZE
    ensures RecvArray(oids, e, ArrayHeader(oids, e, n) + tail) ==
            if n == 0 then Ok(Got(List([]), tail))
            else
              match RecvItems(oids, e, n, tail)
              case Ok(got) => Ok(Got(List(got.value), got.rest))
              case Err(x) => Err(x)
  {
    var fromIndex := Encode(4, 0) + tail;
    var fromCount := Encode(4, n) + fromIndex;
    var fromElem := Encode(4, oids(e.shape)) + fromCount;
    var fromOffset := Encode(4, 0) + fromElem;
    assert PgArrayDimension(n) + tail == fromCount;
    assert PgArray(oids, e) + fromCount == Encode(4, 1) + fromOffset;
    assert ArrayHeader(oids, e, n) + tail == PgArray(oids, e) + (PgArrayDimension(n) + tail);
    ReadIntOf(1, fromOffset);
    ReadIntOf(0, fromElem);
    ReadOidOf(oids(e.shape), fromCount);
    ReadIntOf(n, fromIndex);
    ReadIntOf(0, tail);
  }

  lemma {:induction false} ArrayRoundTrip(oids: OidMap, e: Ty, items: seq<Val>, rest: Bytes)
    requires AllHaveType(e, items) && AllEncodable(e, items) && |items| <= MAX_SIZE
    ensures RecvArray(oids, e, ArrayHeader(oids, e, |items|) + SendItems(oids, e, items) + rest)
         == Ok(Got(List(items), rest))
    decreases e, 4
  {
    var header, body := ArrayHeader(oids, e, |items|), SendItems(oids, e, items);
    assert header + body + rest == header + (body + rest);
    ArrayHeaderReads(oids, e, |items|, body + rest);
    ItemsRoundTrip(oids, e, items, rest);
    if items == [] {
      assert body + rest == rest;
    }
  }

  lemma {:induction false} DataFrameRoundTrip(oids: OidMap, t: Ty, v: Val, oid: Option<Oid>, rest: Bytes)
    requires HasType(t, v) && Encodable(t, v)
    requires oid == None || oid == Some(oids(t.shape))
    ensures RecvDataFrame(oids, t, oid, SendDataFrame(oids, t, v) + rest) == Ok(Got(v, rest))
    decreases t, 2
  {
    var size, body := Encode(4, SizeOf(t, v)), Send(oids, t, v);
    assert size + body + rest == size + (body + rest);
    ReadIntOf(SizeOf(t, v), body + rest);
    RoundTrip(oids, t, v, oid, rest);
  }

  lemma {:induction false} FrameRoundTrip(oids: OidMap, t: Ty, v: Val, rest: Bytes)
    requires HasType(t, v) && Encodable(t, v)
    ensures RecvFrame(oids, t, SendFrame(oids, t, v) + rest) == Ok(Got(v, rest))
    decreases t, 3
  {
    var body := SendDataFrame(oids, t, v);
    assert SendFrame(oids, t, v) + rest == Encode(4, oids(t.shape)) + (body + rest);
    ReadOidOf(oids(t.shape), body + rest);
    DataFrameRoundTrip(oids, t, v, Some(oids(t.shape)), rest);
  }

  lemma {:induction false} ItemsRoundTrip(oids: OidMap, e: Ty, items: seq<Val>, rest: Bytes)
    requires AllHaveType(e, items) && AllEncodable(e, items)
    ensures RecvItems(oids, e, |items|, SendItems(oids, e, items) + rest) == Ok(Got(items, rest))
    decreases e, 3, |items|
  {
    if items == [] {
      assert [] + rest == rest;
    } else {
      var first, others := SendDataFrame(oids, e, items[0]), SendItems(oids, e, items[1..]);
      Regroup(first, others, rest);
      DataFrameRoundTrip(oids, e, items[0], None, others + rest);
      ItemsRoundTrip(oids, e, items[1..], rest);
      HeadAndTail(items);
    }
  }

  lemma {:induction false} RowRoundTrip(oids: OidMap, fs: seq<Ty>, columns: seq<Val>, rest: Bytes)
    requires RowHasType(fs, columns) && RowEncodable(fs, columns)
    ensures RecvRow(oids, fs, SendRow(oids, fs, columns) + rest) == Ok(Got(columns, rest))
    decreases fs
  {
    if fs == [] {
      assert [] + rest == rest;
    } else {
      var first, others := SendFrame(oids, fs[0], columns[0]), SendRow(oids, fs[1..], columns[1..]);
      Regroup(first, others, rest);
      FrameRoundTrip(oids, fs[0], columns[0], others + rest);
      RowRoundTrip(oids, fs[1..], columns[1..], rest);
      HeadAndTail(columns);
    }
  }

  // ---------------------------------------------------------------------------------------
  // What recv accepts

  predicate Suffix(rest: Bytes, input: Bytes) {
    |rest| <= |input| && rest == input[|input| - |rest|..]
  }

  lemma SuffixOfSuffix(a: Bytes, b: Bytes, c: Bytes)
    requires Suffix(a, b) && Suffix(b, c)
    ensures Suffix(a, c)
  {
  }

  lemma ScalarHasType(k: Kind, bs: Bytes)
    requires |bs| == Width(k)
    ensures IsScalar(k, ScalarOf(k, bs))
  {
    DecodeFits(bs);
  }

  /** Whatever bytes arrive, an accepted value has the asked type and leaves a suffix of the input. */
  lemma {:induction false} AcceptedHasType(oids: OidMap, t: Ty, oid: Option<Oid>, size: int, input: Bytes)
    ensures var r := Recv(oids, t, oid, size, input);
            r.Ok? ==> HasType(t, r.value.value) && Suffix(r.value.rest, input)
    decreases t, 1
  {
    var r := Recv(oids, t, oid, size, input);
    if r.Ok? && !(t.nullable && size == -1) {
      assert r == RecvShape(oids, t.shape, size, input);
      match t.shape
      case Scalar(k) => ScalarHasType(k, input[..Width(k)]);
      case Text =>
      case ArrayOf(e) => ArrayHasType(oids, e, input);
      case Composite(fs) =>
        var count := ReadInt(input).value;
        RowHasTypes(oids, fs, count.rest);
        SuffixOfSuffix(r.value.rest, count.rest, input);
    }
  }

  lemma {:induction false} ArrayHasType(oids: OidMap, e: Ty, input: Bytes)
    ensures var r := RecvArray(oids, e, input);
            r.Ok? ==> r.value.value.List? && AllHaveType(e, r.value.value.items) && Suffix(r.value.rest, input)
    decreases e, 4
  {
    var r := RecvArray(oids, e, input);
    if r.Ok? && r.value.value.items != [] {
      ItemsHaveType(oids, e, Decode(input[12..][..4]), input[20..]);
      assert input[4..][4..][4..] == input[12..] && input[12..][4..][4..] == input[20..];
      SuffixOfSuffix(r.value.rest, input[20..], input);
    }
  }

  lemma {:induction false} DataFrameHasType(oids: OidMap, t: Ty, oid: Option<Oid>, input: Bytes)
    ensures var r := RecvDataFrame(oids, t, oid, input);
            r.Ok? ==> HasType(t, r.value.value) && Suffix(r.value.rest, input)
    decreases t, 2
  {
    var r := RecvDataFrame(oids, t, oid, input);
    if r.Ok? {
      var size := ReadInt(input).value;
      AcceptedHasType(oids, t, oid, size.value, size.rest);
      SuffixOfSuffix(r.value.rest, size.rest, input);
    }
  }

  lemma {:induction false} FrameHasType(oids: OidMap, t: Ty, input: Bytes)
    ensures var r := RecvFrame(oids, t, input);
            r.Ok? ==> HasType(t, r.value.value) && Suffix(r.value.rest, input)
    decreases t, 3
  {
    var r := RecvFrame(oids, t, input);
    if r.Ok? {
      var oid := ReadOid(input).value;
      DataFrameHasType(oids, t, Some(oid.value), oid.rest);
      SuffixOfSuffix(r.value.rest, oid.rest, input);
    }
  }

  lemma {:induction false} ItemsHaveType(oids: OidMap, e: Ty, n: nat, input: Bytes)
    ensures var r := RecvItems(oids, e, n, input);
            r.Ok? ==> |r.value.value| == n && AllHaveType(e, r.value.value) && Suffix(r.value.rest, input)
    decreases e, 3, n
  {
    var r := RecvItems(oids, e, n, input);
    if r.Ok? && n > 0 {
      var first := RecvDataFrame(oids, e, None, input).value;
      DataFrameHasType(oids, e, None, input);
      ItemsHaveType(oids, e, n - 1, first.rest);
      ConsItems(e, first.value, RecvItems(oids, e, n - 1, first.rest).value.value);
      SuffixOfSuffix(r.value.rest, first.rest, input);
    }
  }

  lemma ConsItems(e: Ty, x: Val, xs: seq<Val>)
    requires HasType(e, x) && AllHaveType(e, xs)
    ensures AllHaveType(e, [x] + xs)
  {
  }

  lemma ConsRow(fs: seq<Ty>, x: Val, xs: seq<Val>)
    requires fs != [] && HasType(fs[0], x) && RowHasType(fs[1..], xs)
    ensures RowHasType(fs, [x] + xs)
  {
    forall i | 0 < i < |fs|
      ensures HasType(fs[i], ([x] + xs)[i])
    {
      assert HasType(fs[1..][i - 1], xs[i - 1]);
    }
  }

  lemma {:induction false} RowHasTypes(oids: OidMap, fs: seq<Ty>, input: Bytes)
    ensures var r := RecvRow(oids, fs, input);
            r.Ok? ==> RowHasType(fs, r.value.value) && Suffix(r.value.rest, input)
    decreases fs
  {
    var r := RecvRow(oids, fs, input);
    if r.Ok? && fs != [] {
      FrameHasType(oids, fs[0], input);
      var first := RecvFrame(oids, fs[0], input).value;
      RowHasTypes(oids, fs[1..], first.rest);
      ConsRow(fs, first.value, RecvRow(oids, fs[1..], first.rest).value.value);
      SuffixOfSuffix(r.value.rest, first.rest, input);
    }
  }
}
