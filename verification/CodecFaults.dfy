/** Why `recv` rejects what it rejects: the first fault, in the order in which the bytes come. */
module CodecFaults {
  import opened Basics
  import opened Endian
  import opened Codec
  import opened CodecFormat

  /** `input`, announced with `size` and `oid`, has the fault `x` as a value of type `t`. */
  ghost predicate Fault(oids: OidMap, t: Ty, oid: Option<Oid>, size: int, input: Bytes, x: RecvError)
    decreases t, 1
  {
    || (x == OidTypeMismatch && WrongOid(oids, t, oid, size))
    || (x == UnexpectedNull && !WrongOid(oids, t, oid, size) && size == -1 && !t.nullable)
    || (!WrongOid(oids, t, oid, size) && size != -1 && ShapeFault(oids, t.shape, size, input, x))
  }

  ghost predicate ShapeFault(oids: OidMap, s: Shape, size: int, input: Bytes, x: RecvError)
    decreases s, 0
  {
    match s
    case Scalar(k) =>
      || (x == BadObjectSize && k != Interval && size != Width(k))
      || (x == UnexpectedEof && (k == Interval || size == Width(k)) && |input| < Width(k))
    case Text => (x == LengthError && size < 0) || (x == UnexpectedEof && |input| < size)
    case ArrayOf(e) => ArrayFault(oids, e, input, x)
    case Composite(fs) =>
      || (x == UnexpectedEof && |input| < 4)
      || (x == BadCompositeSize && |input| >= 4 && Decode(input[..4]) != |fs|)
      || (|input| >= 4 && Decode(input[..4]) == |fs| && RowFault(oids, fs, input[4..], x))
  }

  ghost predicate ArrayFault(oids: OidMap, e: Ty, input: Bytes, x: RecvError)
    decreases e, 5
  {
    if |input| < 12 then x == UnexpectedEof
    else
      var dimensions, oid := Decode(input[..4]), Value(input[8..12]);
      || (x == BadArrayDimension && dimensions > 1)
      || (x == OidTypeMismatch && dimensions <= 1 && oid != oids(e.shape))
      || (dimensions == 1 && oid == oids(e.shape) && DimensionFault(oids, e, input[12..], x))
  }

  ghost predicate DimensionFault(oids: OidMap, e: Ty, input: Bytes, x: RecvError)
    decreases e, 4
  {
    if |input| < 8 then x == UnexpectedEof
    else
      var n := Decode(input[..4]);
      (x == LengthError && n < 0) || (n >= 0 && ItemsFault(oids, e, n, input[8..], x))
  }

  ghost predicate FrameFault(oids: OidMap, t: Ty, oid: Option<Oid>, input: Bytes, x: RecvError)
    decreases t, 2
  {
    if |input| < 4 then x == UnexpectedEof else Fault(oids, t, oid, Decode(input[..4]), input[4..], x)
  }

  ghost predicate FieldFault(oids: OidMap, t: Ty, input: Bytes, x: RecvError)
    decreases t, 3
  {
    if |input| < 4 then x == UnexpectedEof else FrameFault(oids, t, Some(Value(input[..4])), input[4..], x)
  }

  /** Some of the items are there, and the next one has the fault. */
  ghost predicate ItemsFault(oids: OidMap, e: Ty, n: nat, input: Bytes, x: RecvError)
    decreases e, 3
  {
    exists pieces, items ::
      && AreFrames(oids, e, pieces, items) && |items| < n
      && Concat(pieces) <= input && FrameFault(oids, e, None, input[|Concat(pieces)|..], x)
  }

  ghost predicate RowFault(oids: OidMap, fs: seq<Ty>, input: Bytes, x: RecvError)
    decreases fs
  {
    exists pieces, columns ::
      && |columns| < |fs| && AreFields(oids, fs[..|columns|], pieces, columns)
      && Concat(pieces) <= input && FieldFault(oids, fs[|columns|], input[|Concat(pieces)|..], x)
  }

  // ---------------------------------------------------------------------------------------
  // What is rejected has the fault

  lemma {:induction false} RejectedHasFault(oids: OidMap, t: Ty, oid: Option<Oid>, size: int, input: Bytes)
    requires Recv(oids, t, oid, size, input).Err?
    ensures Fault(oids, t, oid, size, input, Recv(oids, t, oid, size, input).error)
    decreases t, 1
  {
    if !WrongOid(oids, t, oid, size) && size != -1 {
      match t.shape
      case Scalar(_) =>
      case Text =>
      case ArrayOf(e) => ArrayHasFault(oids, e, input);
      case Composite(fs) =>
        if |input| >= 4 && Decode(input[..4]) == |fs| {
          RowHasFault(oids, fs, input[4..]);
        }
    }
  }

  lemma {:induction false} ArrayHasFault(oids: OidMap, e: Ty, input: Bytes)
    requires RecvArray(oids, e, input).Err?
    ensures ArrayFault(oids, e, input, RecvArray(oids, e, input).error)
    decreases e, 5
  {
    ArrayByHeader(oids, e, input);
    if |input| >= 20 {
      assert input[12..][..4] == input[12..16] && input[12..][8..] == input[20..];
      var n := Decode(input[12..16]);
      if n >= 0 && RecvItems(oids, e, n, input[20..]).Err? {
        ItemsHaveFault(oids, e, n, input[20..]);
      }
    }
  }

  lemma {:induction false} FrameHasFault(oids: OidMap, t: Ty, oid: Option<Oid>, input: Bytes)
    requires RecvDataFrame(oids, t, oid, input).Err?
    ensures FrameFault(oids, t, oid, input, RecvDataFrame(oids, t, oid, input).error)
    decreases t, 2
  {
    if |input| >= 4 {
      RejectedHasFault(oids, t, oid, Decode(input[..4]), input[4..]);
    }
  }

  lemma {:induction false} FieldHasFault(oids: OidMap, t: Ty, input: Bytes)
    requires RecvFrame(oids, t, input).Err?
    ensures FieldFault(oids, t, input, RecvFrame(oids, t, input).error)
    decreases t, 3
  {
    if |input| >= 4 {
      FrameHasFault(oids, t, Some(Value(input[..4])), input[4..]);
    }
  }

  lemma {:induction false} ItemsHaveFault(oids: OidMap, e: Ty, n: nat, input: Bytes)
    requires RecvItems(oids, e, n, input).Err?
    ensures ItemsFault(oids, e, n, input, RecvItems(oids, e, n, input).error)
    decreases e, 3, n
  {
    var x := RecvItems(oids, e, n, input).error;
    if RecvDataFrame(oids, e, None, input).Err? {
      FrameHasFault(oids, e, None, input);
      assert AreFrames(oids, e, [], []) && Concat([]) == [];
      assert input[0..] == input;
    } else {
      var first := FrameIsForm(oids, e, None, input);
      var got := RecvDataFrame(oids, e, None, input).value;
      ItemsHaveFault(oids, e, n - 1, got.rest);
      var pieces, items :|
        && AreFrames(oids, e, pieces, items) && |items| < n - 1
        && Concat(pieces) <= got.rest && FrameFault(oids, e, None, got.rest[|Concat(pieces)|..], x);
      ItemsFaultLater(oids, e, n, first, got.value, pieces, items, got.rest, x);
    }
  }

  lemma ItemsFaultLater(
    oids: OidMap, e: Ty, n: nat, first: Bytes, v: Val, pieces: seq<Bytes>, items: seq<Val>, rest: Bytes, x: RecvError)
    requires FrameForm(oids, e, first, v) && AreFrames(oids, e, pieces, items) && |items| + 1 < n
    requires Concat(pieces) <= rest && FrameFault(oids, e, None, rest[|Concat(pieces)|..], x)
    ensures ItemsFault(oids, e, n, first + rest, x)
  {
    var all := [first] + pieces;
    assert all[1..] == pieces && Concat(all) == first + Concat(pieces);
    assert AreFrames(oids, e, all, [v] + items);
    assert (first + rest)[|Concat(all)|..] == rest[|Concat(pieces)|..];
  }

  lemma {:induction false} RowHasFault(oids: OidMap, fs: seq<Ty>, input: Bytes)
    requires RecvRow(oids, fs, input).Err?
    ensures RowFault(oids, fs, input, RecvRow(oids, fs, input).error)
    decreases fs
  {
    var x := RecvRow(oids, fs, input).error;
    if RecvFrame(oids, fs[0], input).Err? {
      FieldHasFault(oids, fs[0], input);
      assert AreFields(oids, fs[..0], [], []) && Concat([]) == [];
      assert input[0..] == input;
    } else {
      var first := FieldIsForm(oids, fs[0], input);
      var got := RecvFrame(oids, fs[0], input).value;
      RowHasFault(oids, fs[1..], got.rest);
      var pieces, columns :|
        && |columns| < |fs[1..]| && AreFields(oids, fs[1..][..|columns|], pieces, columns)
        && Concat(pieces) <= got.rest && FieldFault(oids, fs[1..][|columns|], got.rest[|Concat(pieces)|..], x);
      RowFaultLater(oids, fs, first, got.value, pieces, columns, got.rest, x);
    }
  }

  lemma RowFaultLater(
    oids: OidMap, fs: seq<Ty>, first: Bytes, v: Val, pieces: seq<Bytes>, columns: seq<Val>, rest: Bytes, x: RecvError)
    requires |columns| + 1 < |fs| && FieldForm(oids, fs[0], first, v)
    requires AreFields(oids, fs[1..][..|columns|], pieces, columns)
    requires Concat(pieces) <= rest && FieldFault(oids, fs[1..][|columns|], rest[|Concat(pieces)|..], x)
    ensures RowFault(oids, fs, first + rest, x)
  {
    var all, row := [first] + pieces, [v] + columns;
    assert fs[..|row|][1..] == fs[1..][..|columns|] && row[1..] == columns;
    ConsFields(oids, fs[..|row|], first, pieces, row);
    assert (first + rest)[|Concat(all)|..] == rest[|Concat(pieces)|..];
  }

  // ---------------------------------------------------------------------------------------
  // What has the fault is rejected for it

  lemma PrefixAndRest(a: Bytes, input: Bytes)
    requires a <= input
    ensures input == a + input[|a|..]
  {
  }

  lemma {:induction false} FaultIsRejected(
    oids: OidMap, t: Ty, oid: Option<Oid>, size: int, input: Bytes, x: RecvError)
    requires Fault(oids, t, oid, size, input, x)
    ensures Recv(oids, t, oid, size, input) == Err(x)
    decreases t, 1
  {
    if !WrongOid(oids, t, oid, size) && size != -1 {
      match t.shape
      case Scalar(_) =>
      case Text =>
      case ArrayOf(e) => ArrayIsRejected(oids, e, input, x);
      case Composite(fs) =>
        if |input| >= 4 && Decode(input[..4]) == |fs| {
          RowIsRejected(oids, fs, input[4..], x);
        }
    }
  }

  lemma {:induction false} ArrayIsRejected(oids: OidMap, e: Ty, input: Bytes, x: RecvError)
    requires ArrayFault(oids, e, input, x)
    ensures RecvArray(oids, e, input) == Err(x)
    decreases e, 5
  {
    ArrayByHeader(oids, e, input);
    if |input| >= 20 {
      assert input[12..][..4] == input[12..16] && input[12..][8..] == input[20..];
      var n := Decode(input[12..16]);
      if n >= 0 && ItemsFault(oids, e, n, input[20..], x) {
        ItemsAreRejected(oids, e, n, input[20..], x);
      }
    }
  }

  lemma {:induction false} FrameIsRejected(oids: OidMap, t: Ty, oid: Option<Oid>, input: Bytes, x: RecvError)
    requires FrameFault(oids, t, oid, input, x)
    ensures RecvDataFrame(oids, t, oid, input) == Err(x)
    decreases t, 2
  {
    if |input| >= 4 {
      FaultIsRejected(oids, t, oid, Decode(input[..4]), input[4..], x);
    }
  }

  lemma {:induction false} FieldIsRejected(oids: OidMap, t: Ty, input: Bytes, x: RecvError)
    requires FieldFault(oids, t, input, x)
    ensures RecvFrame(oids, t, input) == Err(x)
    decreases t, 3
  {
    if |input| >= 4 {
      FrameIsRejected(oids, t, Some(Value(input[..4])), input[4..], x);
    }
  }

  lemma {:induction false} ItemsAreRejected(oids: OidMap, e: Ty, n: nat, input: Bytes, x: RecvError)
    requires ItemsFault(oids, e, n, input, x)
    ensures RecvItems(oids, e, n, input) == Err(x)
    decreases e, 4
  {
    var pieces, items :|
      && AreFrames(oids, e, pieces, items) && |items| < n
      && Concat(pieces) <= input && FrameFault(oids, e, None, input[|Concat(pieces)|..], x);
    PrefixAndRest(Concat(pieces), input);
    NextItemRejected(oids, e, n, pieces, items, input[|Concat(pieces)|..], x);
  }

  lemma {:induction false} NextItemRejected(
    oids: OidMap, e: Ty, n: nat, pieces: seq<Bytes>, items: seq<Val>, rest: Bytes, x: RecvError)
    requires AreFrames(oids, e, pieces, items) && |items| < n && FrameFault(oids, e, None, rest, x)
    ensures RecvItems(oids, e, n, Concat(pieces) + rest) == Err(x)
    decreases e, 3, n
  {
    if items == [] {
      assert Concat(pieces) + rest == rest;
      FrameIsRejected(oids, e, None, rest, x);
    } else {
      Regroup(pieces[0], Concat(pieces[1..]), rest);
      FrameIsAccepted(oids, e, None, pieces[0], items[0], Concat(pieces[1..]) + rest);
      NextItemRejected(oids, e, n - 1, pieces[1..], items[1..], rest, x);
    }
  }

  lemma {:induction false} RowIsRejected(oids: OidMap, fs: seq<Ty>, input: Bytes, x: RecvError)
    requires RowFault(oids, fs, input, x)
    ensures RecvRow(oids, fs, input) == Err(x)
    decreases fs, 1
  {
    var pieces, columns :|
      && |columns| < |fs| && AreFields(oids, fs[..|columns|], pieces, columns)
      && Concat(pieces) <= input && FieldFault(oids, fs[|columns|], input[|Concat(pieces)|..], x);
    PrefixAndRest(Concat(pieces), input);
    NextFieldRejected(oids, fs, pieces, columns, input[|Concat(pieces)|..], x);
  }

  lemma {:induction false} NextFieldRejected(
    oids: OidMap, fs: seq<Ty>, pieces: seq<Bytes>, columns: seq<Val>, rest: Bytes, x: RecvError)
    requires |columns| < |fs| && AreFields(oids, fs[..|columns|], pieces, columns)
    requires FieldFault(oids, fs[|columns|], rest, x)
    ensures RecvRow(oids, fs, Concat(pieces) + rest) == Err(x)
    decreases fs, 0
  {
    if columns == [] {
      assert Concat(pieces) + rest == rest;
      FieldIsRejected(oids, fs[0], rest, x);
    } else {
      Regroup(pieces[0], Concat(pieces[1..]), rest);
      FieldIsAccepted(oids, fs[0], pieces[0], columns[0], Concat(pieces[1..]) + rest);
      LaterFields(oids, fs, pieces, columns);
      NextFieldRejected(oids, fs[1..], pieces[1..], columns[1..], rest, x);
    }
  }

  lemma LaterFields(oids: OidMap, fs: seq<Ty>, pieces: seq<Bytes>, columns: seq<Val>)
    requires 0 < |columns| < |fs| && AreFields(oids, fs[..|columns|], pieces, columns)
    ensures FieldForm(oids, fs[0], pieces[0], columns[0])
    ensures AreFields(oids, fs[1..][..|columns| - 1], pieces[1..], columns[1..])
  {
    assert fs[..|columns|][1..] == fs[1..][..|columns| - 1];
    assert FieldForm(oids, fs[..|columns|][0], pieces[0], columns[0]);
    forall i | 0 <= i < |columns| - 1
      ensures FieldForm(oids, fs[1..][..|columns| - 1][i], pieces[1..][i], columns[1..][i])
    {
      assert FieldForm(oids, fs[..|columns|][i + 1], pieces[i + 1], columns[i + 1]);
    }
  }

  /** Whatever bytes arrive: they are rejected for `x` if and only if `x` is their first fault. */
  lemma RejectsExactlyFaults(oids: OidMap, t: Ty, oid: Option<Oid>, size: int, input: Bytes, x: RecvError)
    ensures Recv(oids, t, oid, size, input) == Err(x) <==> Fault(oids, t, oid, size, input, x)
  {
    if Recv(oids, t, oid, size, input) == Err(x) {
      RejectedHasFault(oids, t, oid, size, input);
    }
    if Fault(oids, t, oid, size, input, x) {
      FaultIsRejected(oids, t, oid, size, input, x);
    }
  }

  /** Nothing of another type gets through: not by the oid given, of an element, or of a field. */
  lemma WrongOidIsRejected(oids: OidMap, t: Ty, oid: Oid, size: int, input: Bytes)
    requires oid != oids(t.shape)
    ensures t.nullable && size == -1 ==> Recv(oids, t, Some(oid), size, input) == Ok(Got(Null, input))
    ensures !(t.nullable && size == -1) ==> Recv(oids, t, Some(oid), size, input) == Err(OidTypeMismatch)
    ensures |input| >= 12 && Decode(input[..4]) <= 1 && Value(input[8..12]) != oids(t.shape) ==>
              RecvArray(oids, t, input) == Err(OidTypeMismatch)
    ensures |input| >= 8 && Value(input[..4]) == oid && !(t.nullable && Decode(input[4..8]) == -1) ==>
              RecvFrame(oids, t, input) == Err(OidTypeMismatch)
  {
    ArrayByHeader(oids, t, input);
    if |input| >= 8 && Value(input[..4]) == oid && !(t.nullable && Decode(input[4..8]) == -1) {
      assert input[4..][..4] == input[4..8];
      FieldIsRejected(oids, t, input, OidTypeMismatch);
    }
  }

  /** Values of a fixed width and texts: what each error says, both ways. */
  lemma FlatRejects(oids: OidMap, t: Ty, oid: Option<Oid>, size: int, input: Bytes)
    requires t.shape.Scalar? || t.shape.Text?
    ensures var r := Recv(oids, t, oid, size, input);
            var wrong := oid.Some? && oid.value != oids(t.shape) && !(t.nullable && size == -1);
            && (r == Err(OidTypeMismatch) <==> wrong)
            && (r == Err(UnexpectedNull) <==> !wrong && size == -1 && !t.nullable)
            && (r == Err(BadObjectSize) <==>
                  !wrong && size != -1 && t.shape.Scalar? && t.shape.kind != Interval && size != Width(t.shape.kind))
            && (r == Err(LengthError) <==> !wrong && size < -1 && t.shape.Text?)
  {
    if Recv(oids, t, oid, size, input).Err? {
      RejectedHasFault(oids, t, oid, size, input);
    }
  }
}
