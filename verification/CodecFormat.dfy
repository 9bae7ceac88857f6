/**
 The binary format as a relation between bytes and values, and `recv` as its exact decision: what it accepts are
 the forms of the format, and what it rejects it rejects for the first fault there is.
 */
module CodecFormat {
  import opened Basics
  import opened Endian
  import opened Codec
  import CodecTheorems
  import Intervals

  // ---------------------------------------------------------------------------------------
  // The format

  function Concat(pieces: seq<Bytes>): Bytes {
    if pieces == [] then [] else pieces[0] + Concat(pieces[1..])
  }

  /** `bs`, announced with `size`, is a form of the value `v` of type `t`. */
  ghost predicate Form(oids: OidMap, t: Ty, size: int, bs: Bytes, v: Val)
    decreases t, 1
  {
    if size == -1 then t.nullable && bs == [] && v == Null else ShapeForm(oids, t.shape, size, bs, v)
  }

  ghost predicate ShapeForm(oids: OidMap, s: Shape, size: int, bs: Bytes, v: Val)
    decreases s, 0
  {
    match s
    case Scalar(k) => (k == Interval || size == Width(k)) && |bs| == Width(k) && ScalarForm(k, bs, v)
    case Text => size == |bs| && v == Chars(bs)
    case ArrayOf(e) => v.List? && ArrayForm(oids, e, bs, v.items)
    case Composite(fs) => v.Row? && |bs| >= 4 && Decode(bs[..4]) == |fs| && RowForm(oids, fs, bs[4..], v.columns)
  }

  /** Integers are big-endian; an interval is its microseconds, its days and its months. */
  ghost predicate ScalarForm(k: Kind, bs: Bytes, v: Val)
    requires |bs| == Width(k)
  {
    match k
    case Bool => v == Truth(bs[0] != 0)
    case Interval =>
      DecodeFits(bs[..8]);
      DecodeFits(bs[8..12]);
      DecodeFits(bs[12..16]);
      v == Span(Intervals.ToChrono(Intervals.PgInterval(Decode(bs[..8]), Decode(bs[8..12]), Decode(bs[12..16]))))
    case _ => v == Number(Decode(bs))
  }

  lemma ScalarFormIs(k: Kind, bs: Bytes, v: Val)
    requires |bs| == Width(k)
    ensures ScalarForm(k, bs, v) <==> v == ScalarOf(k, bs)
  {
    if k == Interval {
      assert bs[12..] == bs[12..16];
    }
  }

  /** No dimension and no items, or one dimension, its length, its index and as many data frames. */
  ghost predicate ArrayForm(oids: OidMap, e: Ty, bs: Bytes, items: seq<Val>)
    decreases e, 5
  {
    && |bs| >= 12 && Decode(bs[..4]) <= 1 && Value(bs[8..12]) == oids(e.shape)
    && if Decode(bs[..4]) < 1 then |bs| == 12 && items == []
       else |bs| >= 20 && Decode(bs[12..16]) == |items| && ItemsForm(oids, e, bs[20..], items)
  }

  /** A length and a form announced with it. */
  ghost predicate FrameForm(oids: OidMap, t: Ty, bs: Bytes, v: Val)
    decreases t, 2
  {
    |bs| >= 4 && Form(oids, t, Decode(bs[..4]), bs[4..], v)
  }

  /** The oid of the type, which does not count for null, and a data frame. */
  ghost predicate FieldForm(oids: OidMap, t: Ty, bs: Bytes, v: Val)
    decreases t, 3
  {
    |bs| >= 4 && FrameForm(oids, t, bs[4..], v) && (v == Null || Value(bs[..4]) == oids(t.shape))
  }

  ghost predicate ItemsForm(oids: OidMap, e: Ty, bs: Bytes, items: seq<Val>)
    decreases e, 4
  {
    exists pieces :: Concat(pieces) == bs && AreFrames(oids, e, pieces, items)
  }

  ghost predicate AreFrames(oids: OidMap, e: Ty, pieces: seq<Bytes>, items: seq<Val>)
    decreases e, 3
  {
    |pieces| == |items| && forall i :: 0 <= i < |items| ==> FrameForm(oids, e, pieces[i], items[i])
  }

  ghost predicate RowForm(oids: OidMap, fs: seq<Ty>, bs: Bytes, columns: seq<Val>)
    decreases fs, 1
  {
    exists pieces :: Concat(pieces) == bs && AreFields(oids, fs, pieces, columns)
  }

  ghost predicate AreFields(oids: OidMap, fs: seq<Ty>, pieces: seq<Bytes>, columns: seq<Val>)
    decreases fs, 0
  {
    |pieces| == |columns| == |fs| && forall i :: 0 <= i < |fs| ==> FieldForm(oids, fs[i], pieces[i], columns[i])
  }

  // ---------------------------------------------------------------------------------------
  // Every form is accepted

  /** An oid is given and it is the wrong one, for a value that is not null. */
  predicate WrongOid(oids: OidMap, t: Ty, oid: Option<Oid>, size: int) {
    oid.Some? && oid.value != oids(t.shape) && !(t.nullable && size == -1)
  }

  /** Reading from a sequence of bytes that goes on. */
  lemma ReadOn(bs: Bytes, rest: Bytes)
    requires |bs| >= 4
    ensures ReadInt(bs + rest) == Ok(Got(Decode(bs[..4]), bs[4..] + rest))
    ensures ReadOid(bs + rest) == Ok(Got(Value(bs[..4]), bs[4..] + rest))
  {
    assert (bs + rest)[..4] == bs[..4] && (bs + rest)[4..] == bs[4..] + rest;
  }

  lemma {:induction false} FormIsAccepted(
    oids: OidMap, t: Ty, oid: Option<Oid>, size: int, bs: Bytes, v: Val, rest: Bytes)
    requires Form(oids, t, size, bs, v) && !WrongOid(oids, t, oid, size)
    ensures Recv(oids, t, oid, size, bs + rest) == Ok(Got(v, rest))
    decreases t, 1
  {
    if size == -1 {
      assert bs + rest == rest;
    } else {
      assert Recv(oids, t, oid, size, bs + rest) == RecvShape(oids, t.shape, size, bs + rest);
      match t.shape
      case Scalar(k) =>
        ScalarFormIs(k, bs, v);
        ReadAll(bs, rest);
      case Text => ReadAll(bs, rest);
      case ArrayOf(e) => ArrayIsAccepted(oids, e, bs, v.items, rest);
      case Composite(fs) =>
        ReadOn(bs, rest);
        RowIsAccepted(oids, fs, bs[4..], v.columns, rest);
    }
  }

  lemma ReadAll(bs: Bytes, rest: Bytes)
    ensures ReadBytes(|bs|, bs + rest) == Ok(Got(bs, rest))
  {
  }

  lemma HeaderOn(bs: Bytes, rest: Bytes)
    requires |bs| >= 12
    ensures ReadInt(bs + rest) == Ok(Got(Decode(bs[..4]), bs[4..] + rest))
    ensures ReadInt(bs[4..] + rest) == Ok(Got(Decode(bs[4..8]), bs[8..] + rest))
    ensures ReadOid(bs[8..] + rest) == Ok(Got(Value(bs[8..12]), bs[12..] + rest))
  {
    ReadOn(bs, rest);
    ReadOn(bs[4..], rest);
    ReadOn(bs[8..], rest);
    assert bs[4..][..4] == bs[4..8] && bs[4..][4..] == bs[8..] && bs[8..][..4] == bs[8..12] && bs[8..][4..] == bs[12..];
  }

  lemma DimensionOn(bs: Bytes, rest: Bytes)
    requires |bs| >= 20
    ensures ReadInt(bs[12..] + rest) == Ok(Got(Decode(bs[12..16]), bs[16..] + rest))
    ensures ReadInt(bs[16..] + rest) == Ok(Got(Decode(bs[16..20]), bs[20..] + rest))
  {
    ReadOn(bs[12..], rest);
    ReadOn(bs[16..], rest);
    assert bs[12..][..4] == bs[12..16] && bs[12..][4..] == bs[16..];
    assert bs[16..][..4] == bs[16..20] && bs[16..][4..] == bs[20..];
  }

  lemma {:induction false} ArrayIsAccepted(oids: OidMap, e: Ty, bs: Bytes, items: seq<Val>, rest: Bytes)
    requires ArrayForm(oids, e, bs, items)
    ensures RecvArray(oids, e, bs + rest) == Ok(Got(List(items), rest))
    decreases e, 5
  {
    HeaderOn(bs, rest);
    if Decode(bs[..4]) < 1 {
      assert bs[12..] + rest == rest;
    } else {
      DimensionOn(bs, rest);
      ItemsAreAccepted(oids, e, bs[20..], items, rest);
    }
  }

  lemma {:induction false} FrameIsAccepted(oids: OidMap, t: Ty, oid: Option<Oid>, bs: Bytes, v: Val, rest: Bytes)
    requires FrameForm(oids, t, bs, v) && !WrongOid(oids, t, oid, Decode(bs[..4]))
    ensures RecvDataFrame(oids, t, oid, bs + rest) == Ok(Got(v, rest))
    decreases t, 2
  {
    ReadOn(bs, rest);
    FormIsAccepted(oids, t, oid, Decode(bs[..4]), bs[4..], v, rest);
  }

  /** Only the announced size -1 stands for null. */
  lemma {:induction false} NullForm(oids: OidMap, t: Ty, size: int, bs: Bytes, v: Val)
    requires Form(oids, t, size, bs, v)
    ensures v == Null <==> size == -1
  {
  }

  lemma {:induction false} FieldIsAccepted(oids: OidMap, t: Ty, bs: Bytes, v: Val, rest: Bytes)
    requires FieldForm(oids, t, bs, v)
    ensures RecvFrame(oids, t, bs + rest) == Ok(Got(v, rest))
    decreases t, 3
  {
    ReadOn(bs, rest);
    NullForm(oids, t, Decode(bs[4..][..4]), bs[4..][4..], v);
    FrameIsAccepted(oids, t, Some(Value(bs[..4])), bs[4..], v, rest);
  }

  lemma {:induction false} ItemsAreAccepted(oids: OidMap, e: Ty, bs: Bytes, items: seq<Val>, rest: Bytes)
    requires ItemsForm(oids, e, bs, items)
    ensures RecvItems(oids, e, |items|, bs + rest) == Ok(Got(items, rest))
    decreases e, 4
  {
    var pieces :| Concat(pieces) == bs && AreFrames(oids, e, pieces, items);
    FramesAreAccepted(oids, e, pieces, items, rest);
  }

  lemma {:induction false} FramesAreAccepted(oids: OidMap, e: Ty, pieces: seq<Bytes>, items: seq<Val>, rest: Bytes)
    requires AreFrames(oids, e, pieces, items)
    ensures RecvItems(oids, e, |items|, Concat(pieces) + rest) == Ok(Got(items, rest))
    decreases e, 3, |items|
  {
    if items == [] {
      assert Concat(pieces) + rest == rest;
    } else {
      Regroup(pieces[0], Concat(pieces[1..]), rest);
      FrameIsAccepted(oids, e, None, pieces[0], items[0], Concat(pieces[1..]) + rest);
      FramesAreAccepted(oids, e, pieces[1..], items[1..], rest);
      HeadAndTail(items);
    }
  }

  lemma {:induction false} RowIsAccepted(oids: OidMap, fs: seq<Ty>, bs: Bytes, columns: seq<Val>, rest: Bytes)
    requires RowForm(oids, fs, bs, columns)
    ensures RecvRow(oids, fs, bs + rest) == Ok(Got(columns, rest))
    decreases fs, 1
  {
    var pieces :| Concat(pieces) == bs && AreFields(oids, fs, pieces, columns);
    FieldsAreAccepted(oids, fs, pieces, columns, rest);
  }

  lemma {:induction false} FieldsAreAccepted(
    oids: OidMap, fs: seq<Ty>, pieces: seq<Bytes>, columns: seq<Val>, rest: Bytes)
    requires AreFields(oids, fs, pieces, columns)
    ensures RecvRow(oids, fs, Concat(pieces) + rest) == Ok(Got(columns, rest))
    decreases fs, 0
  {
    if fs == [] {
      assert Concat(pieces) + rest == rest;
    } else {
      Regroup(pieces[0], Concat(pieces[1..]), rest);
      FieldIsAccepted(oids, fs[0], pieces[0], columns[0], Concat(pieces[1..]) + rest);
      FieldsAreAccepted(oids, fs[1..], pieces[1..], columns[1..], rest);
      HeadAndTail(columns);
    }
  }

  // ---------------------------------------------------------------------------------------
  // Only forms are accepted

  lemma Rejoin(a: Bytes, b: Bytes, rest: Bytes, input: Bytes)
    requires input == a + (b + rest)
    ensures input == (a + b) + rest
  {
  }

  lemma {:induction false} AcceptedIsForm(oids: OidMap, t: Ty, oid: Option<Oid>, size: int, input: Bytes)
    returns (bs: Bytes)
    requires Recv(oids, t, oid, size, input).Ok?
    ensures var got := Recv(oids, t, oid, size, input).value;
            input == bs + got.rest && Form(oids, t, size, bs, got.value) && !WrongOid(oids, t, oid, size)
    decreases t, 1
  {
    var got := Recv(oids, t, oid, size, input).value;
    if size == -1 {
      bs := [];
    } else {
      match t.shape
      case Scalar(k) =>
        bs := input[..Width(k)];
        ScalarFormIs(k, bs, got.value);
      case Text => bs := input[..size];
      case ArrayOf(e) => bs := ArrayIsForm(oids, e, input);
      case Composite(fs) =>
        var row := RowIsForm(oids, fs, input[4..]);
        bs := input[..4] + row;
        Rejoin(input[..4], row, got.rest, input);
        assert bs[..4] == input[..4] && bs[4..] == row;
    }
  }

  /** What is read after a header of twelve bytes. */
  lemma AfterHeader(input: Bytes)
    requires |input| >= 12
    ensures ReadInt(input) == Ok(Got(Decode(input[..4]), input[4..]))
    ensures ReadInt(input[4..]) == Ok(Got(Decode(input[4..8]), input[8..]))
    ensures ReadOid(input[8..]) == Ok(Got(Value(input[8..12]), input[12..]))
  {
    HeaderOn(input, []);
    assert input + [] == input && input[4..] + [] == input[4..];
    assert input[8..] + [] == input[8..] && input[12..] + [] == input[12..];
  }

  lemma AfterDimension(input: Bytes)
    requires |input| >= 20
    ensures ReadInt(input[12..]) == Ok(Got(Decode(input[12..16]), input[16..]))
    ensures ReadInt(input[16..]) == Ok(Got(Decode(input[16..20]), input[20..]))
  {
    DimensionOn(input, []);
    assert input[12..] + [] == input[12..] && input[16..] + [] == input[16..] && input[20..] + [] == input[20..];
  }

  /** The header of an array decides by itself, or leaves the items to be read. */
  function AfterArrayHeader(oids: OidMap, e: Ty, input: Bytes): Result<Got<Val>, RecvError> {
    if |input| < 12 then Err(UnexpectedEof)
    else if Decode(input[..4]) > 1 then Err(BadArrayDimension)
    else if Value(input[8..12]) != oids(e.shape) then Err(OidTypeMismatch)
    else if Decode(input[..4]) < 1 then Ok(Got(List([]), input[12..]))
    else if |input| < 20 then Err(UnexpectedEof)
    else if Decode(input[12..16]) < 0 then Err(LengthError)
    else
      var items :- RecvItems(oids, e, Decode(input[12..16]), input[20..]);
      Ok(Got(List(items.value), items.rest))
  }

  lemma ArrayByHeader(oids: OidMap, e: Ty, input: Bytes)
    ensures RecvArray(oids, e, input) == AfterArrayHeader(oids, e, input)
  {
    if |input| >= 12 {
      AfterHeader(input);
      if |input| >= 20 {
        AfterDimension(input);
      }
    }
  }

  lemma {:induction false} ArrayIsForm(oids: OidMap, e: Ty, input: Bytes) returns (bs: Bytes)
    requires RecvArray(oids, e, input).Ok?
    ensures var got := RecvArray(oids, e, input).value;
            got.value.List? && input == bs + got.rest && ArrayForm(oids, e, bs, got.value.items)
    decreases e, 5
  {
    ArrayByHeader(oids, e, input);
    var got := RecvArray(oids, e, input).value;
    if Decode(input[..4]) < 1 {
      bs := input[..12];
      assert bs[..4] == input[..4] && bs[8..12] == input[8..12];
    } else {
      var items := ItemsAreForms(oids, e, Decode(input[12..16]), input[20..]);
      bs := input[..20] + items;
      Rejoin(input[..20], items, got.rest, input);
      assert bs[..4] == input[..4] && bs[8..12] == input[8..12] && bs[12..16] == input[12..16] && bs[20..] == items;
    }
  }

  lemma {:induction false} FrameIsForm(oids: OidMap, t: Ty, oid: Option<Oid>, input: Bytes) returns (bs: Bytes)
    requires RecvDataFrame(oids, t, oid, input).Ok?
    ensures var got := RecvDataFrame(oids, t, oid, input).value;
            && input == bs + got.rest && FrameForm(oids, t, bs, got.value)
            && !WrongOid(oids, t, oid, Decode(bs[..4]))
    decreases t, 2
  {
    var got := RecvDataFrame(oids, t, oid, input).value;
    var form := AcceptedIsForm(oids, t, oid, Decode(input[..4]), input[4..]);
    bs := input[..4] + form;
    Rejoin(input[..4], form, got.rest, input);
    assert bs[..4] == input[..4] && bs[4..] == form;
  }

  lemma {:induction false} FieldIsForm(oids: OidMap, t: Ty, input: Bytes) returns (bs: Bytes)
    requires RecvFrame(oids, t, input).Ok?
    ensures var got := RecvFrame(oids, t, input).value;
            input == bs + got.rest && FieldForm(oids, t, bs, got.value)
    decreases t, 3
  {
    var got := RecvFrame(oids, t, input).value;
    var frame := FrameIsForm(oids, t, Some(Value(input[..4])), input[4..]);
    NullForm(oids, t, Decode(frame[..4]), frame[4..], got.value);
    bs := input[..4] + frame;
    Rejoin(input[..4], frame, got.rest, input);
    assert bs[..4] == input[..4] && bs[4..] == frame;
  }

  lemma {:induction false} ItemsAreForms(oids: OidMap, e: Ty, n: nat, input: Bytes) returns (bs: Bytes)
    requires RecvItems(oids, e, n, input).Ok?
    ensures var got := RecvItems(oids, e, n, input).value;
            |got.value| == n && input == bs + got.rest && ItemsForm(oids, e, bs, got.value)
    decreases e, 4
  {
    var pieces := FramesAreForms(oids, e, n, input);
    bs := Concat(pieces);
  }

  lemma {:induction false} FramesAreForms(oids: OidMap, e: Ty, n: nat, input: Bytes) returns (pieces: seq<Bytes>)
    requires RecvItems(oids, e, n, input).Ok?
    ensures var got := RecvItems(oids, e, n, input).value;
            |got.value| == n && input == Concat(pieces) + got.rest && AreFrames(oids, e, pieces, got.value)
    decreases e, 3, n
  {
    if n == 0 {
      pieces := [];
    } else {
      var got := RecvItems(oids, e, n, input).value;
      var first := FrameIsForm(oids, e, None, input);
      var next := RecvDataFrame(oids, e, None, input).value.rest;
      var others := FramesAreForms(oids, e, n - 1, next);
      pieces := [first] + others;
      assert pieces[1..] == others;
      Rejoin(first, Concat(others), got.rest, input);
    }
  }

  lemma {:induction false} RowIsForm(oids: OidMap, fs: seq<Ty>, input: Bytes) returns (bs: Bytes)
    requires RecvRow(oids, fs, input).Ok?
    ensures var got := RecvRow(oids, fs, input).value;
            input == bs + got.rest && RowForm(oids, fs, bs, got.value)
    decreases fs, 1
  {
    var pieces := FieldsAreForms(oids, fs, input);
    bs := Concat(pieces);
  }

  lemma {:induction false} FieldsAreForms(oids: OidMap, fs: seq<Ty>, input: Bytes) returns (pieces: seq<Bytes>)
    requires RecvRow(oids, fs, input).Ok?
    ensures var got := RecvRow(oids, fs, input).value;
            input == Concat(pieces) + got.rest && AreFields(oids, fs, pieces, got.value)
    decreases fs, 0
  {
    if fs == [] {
      pieces := [];
    } else {
      var got := RecvRow(oids, fs, input).value;
      var first := FieldIsForm(oids, fs[0], input);
      var next := RecvFrame(oids, fs[0], input).value.rest;
      var others := FieldsAreForms(oids, fs[1..], next);
      pieces := [first] + others;
      ConsFields(oids, fs, first, others, got.value);
      Rejoin(first, Concat(others), got.rest, input);
    }
  }

  lemma ConsFields(oids: OidMap, fs: seq<Ty>, first: Bytes, others: seq<Bytes>, columns: seq<Val>)
    requires fs != [] && columns != [] && FieldForm(oids, fs[0], first, columns[0])
    requires AreFields(oids, fs[1..], others, columns[1..])
    ensures AreFields(oids, fs, [first] + others, columns) && Concat([first] + others) == first + Concat(others)
  {
    assert ([first] + others)[1..] == others;
    forall i | 0 < i < |fs|
      ensures FieldForm(oids, fs[i], ([first] + others)[i], columns[i])
    {
      assert FieldForm(oids, fs[1..][i - 1], others[i - 1], columns[1..][i - 1]);
    }
  }

  /**
   * Whatever bytes arrive: a value is received, leaving `rest`, if and only if the bytes before `rest` are a form of
   * it under the announced size, and the oid, when one is given and the value is not null, is that of the type.
   */
  lemma AcceptsExactlyForms(oids: OidMap, t: Ty, oid: Option<Oid>, size: int, bs: Bytes, v: Val, rest: Bytes)
    ensures Recv(oids, t, oid, size, bs + rest) == Ok(Got(v, rest)) <==>
              Form(oids, t, size, bs, v) && (oid.Some? && v != Null ==> oid.value == oids(t.shape))
  {
    var input := bs + rest;
    if Recv(oids, t, oid, size, input) == Ok(Got(v, rest)) {
      var form := AcceptedIsForm(oids, t, oid, size, input);
      assert |form| == |bs| && form == input[..|bs|] == bs;
      NullForm(oids, t, size, bs, v);
    }
    if Form(oids, t, size, bs, v) && (oid.Some? && v != Null ==> oid.value == oids(t.shape)) {
      NullForm(oids, t, size, bs, v);
      FormIsAccepted(oids, t, oid, size, bs, v, rest);
    }
  }

  /** What is sent is a form of the value under the size announced for it. */
  lemma SentIsForm(oids: OidMap, t: Ty, v: Val)
    requires HasType(t, v) && CodecTheorems.Encodable(t, v)
    ensures Form(oids, t, SizeOf(t, v), Send(oids, t, v), v)
  {
    CodecTheorems.RoundTrip(oids, t, v, None, []);
    AcceptsExactlyForms(oids, t, None, SizeOf(t, v), Send(oids, t, v), v, []);
  }

  lemma HeaderWords(oids: OidMap, e: Ty, n: nat)
    ensures var bs := ArrayHeader(oids, e, n);
            && bs[..4] == Encode(4, 1) && bs[4..8] == Encode(4, 0) && bs[8..12] == Encode(4, oids(e.shape))
            && bs[12..16] == Encode(4, n) && bs[16..20] == Encode(4, 0)
  {
  }

  /** The header of an array that is sent, word by word. */
  lemma SentArrayHeader(oids: OidMap, e: Ty, items: seq<Val>)
    requires AllHaveType(e, items) && |items| <= MAX_SIZE
    ensures var bs := Send(oids, Ty(false, ArrayOf(e)), List(items))[..20];
            && Decode(bs[..4]) == 1 && Decode(bs[4..8]) == 0 && Value(bs[8..12]) == oids(e.shape)
            && Decode(bs[12..16]) == |items| && Decode(bs[16..20]) == 0
  {
    var bs := ArrayHeader(oids, e, |items|);
    assert Send(oids, Ty(false, ArrayOf(e)), List(items))[..20] == bs;
    HeaderWords(oids, e, |items|);
    CodecTheorems.Base4();
    DecodeEncode(4, 1);
    DecodeEncode(4, 0);
    DecodeEncode(4, |items|);
    ValueEncode(4, oids(e.shape));
  }
}
