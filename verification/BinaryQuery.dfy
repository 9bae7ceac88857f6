/** One buffer that holds pieces one after the other, and the lengths by which it is cut again. */
module Layout {
  import opened Endian

  function Sum(lengths: seq<nat>, k: nat): nat
    requires k <= |lengths|
  {
    if k == 0 then 0 else Sum(lengths, k - 1) + lengths[k - 1]
  }

  function Joined(pieces: seq<Bytes>, k: nat): Bytes
    requires k <= |pieces|
  {
    if k == 0 then [] else Joined(pieces, k - 1) + pieces[k - 1]
  }

  predicate RealLengths(pieces: seq<Bytes>, lengths: seq<nat>) {
    |pieces| == |lengths| && forall i :: 0 <= i < |pieces| ==> |pieces[i]| == lengths[i]
  }

  /** Cutting the buffer by the lengths gives piece `i` back. */
  predicate SliceIs(buffer: Bytes, pieces: seq<Bytes>, lengths: seq<nat>, i: nat)
    requires |pieces| == |lengths| && i < |pieces|
  {
    var from := Sum(lengths, i);
    from + lengths[i] <= |buffer| && buffer[from..from + lengths[i]] == pieces[i]
  }

  predicate AllSlices(buffer: Bytes, pieces: seq<Bytes>, lengths: seq<nat>) {
    |pieces| == |lengths| && forall i :: 0 <= i < |pieces| ==> SliceIs(buffer, pieces, lengths, i)
  }

  lemma {:induction false} JoinedLength(pieces: seq<Bytes>, lengths: seq<nat>, k: nat)
    requires RealLengths(pieces, lengths) && k <= |pieces|
    ensures |Joined(pieces, k)| == Sum(lengths, k)
  {
    if k == 0 {
    } else {
      JoinedLength(pieces, lengths, k - 1);
    }
  }

  lemma {:induction false} JoinedPrefix(pieces: seq<Bytes>, j: nat, k: nat)
    requires j <= k <= |pieces|
    ensures Joined(pieces, j) <= Joined(pieces, k)
    decreases k - j
  {
    if j < k {
      JoinedPrefix(pieces, j, k - 1);
    }
  }

  /** Piece `i` is where the earlier pieces end. */
  lemma PieceAt(pieces: seq<Bytes>, i: nat)
    requires i < |pieces|
    ensures var from := |Joined(pieces, i)|;
            var all := Joined(pieces, |pieces|);
            from + |pieces[i]| <= |all| && all[from..from + |pieces[i]|] == pieces[i]
  {
    JoinedPrefix(pieces, i + 1, |pieces|);
    var all, here, from := Joined(pieces, |pieces|), Joined(pieces, i + 1), |Joined(pieces, i)|;
    assert here == Joined(pieces, i) + pieces[i];
    assert all[from..from + |pieces[i]|] == here[from..];
  }

  lemma RealSlice(pieces: seq<Bytes>, lengths: seq<nat>, i: nat)
    requires RealLengths(pieces, lengths) && i < |pieces|
    ensures SliceIs(Joined(pieces, |pieces|), pieces, lengths, i)
  {
    JoinedLength(pieces, lengths, i);
    PieceAt(pieces, i);
  }

  /** The lengths cut the buffer into its pieces if and only if each of them is the real one. */
  lemma SlicesExactlyWhen(pieces: seq<Bytes>, lengths: seq<nat>)
    requires |pieces| == |lengths|
    ensures AllSlices(Joined(pieces, |pieces|), pieces, lengths) <==> RealLengths(pieces, lengths)
  {
    if RealLengths(pieces, lengths) {
      forall i | 0 <= i < |pieces|
        ensures SliceIs(Joined(pieces, |pieces|), pieces, lengths, i)
      {
        RealSlice(pieces, lengths, i);
      }
    } else {
      var i :| 0 <= i < |pieces| && |pieces[i]| != lengths[i];
      assert !SliceIs(Joined(pieces, |pieces|), pieces, lengths, i);
    }
  }
}

/** Query parameters as libpq takes them: one buffer, and a type, a length and a pointer for each parameter. */
module BinaryQueries {
  import opened Basics
  import opened Endian
  import opened Codec
  import opened CodecTheorems
  import opened CodecTruncation
  import opened CodecSizes
  import opened CodecStreams
  import opened Layout

  const BINARY_FORMAT := 1

  /** Pointers into the buffer are offsets; a null pointer is `None`. */
  datatype BinaryQuery = BinaryQuery(
    buffer: Bytes, types: seq<Oid>, formats: seq<int>, lengths: seq<nat>, values: seq<Option<nat>>)

  function Length(t: Ty, v: Val): nat
    requires HasType(t, v)
  {
    if SizeOf(t, v) > 0 then SizeOf(t, v) else 0
  }

  function Lengths(ts: seq<Ty>, vs: seq<Val>): seq<nat>
    requires RowHasType(ts, vs)
  {
    seq(|ts|, i requires 0 <= i < |ts| => Length(ts[i], vs[i]))
  }

  function Pieces(oids: OidMap, ts: seq<Ty>, vs: seq<Val>): seq<Bytes>
    requires RowHasType(ts, vs)
  {
    seq(|ts|, i requires 0 <= i < |ts| => Send(oids, ts[i], vs[i]))
  }

  /** An empty piece gets no pointer. */
  function Pointer(lengths: seq<nat>, i: nat): Option<nat>
    requires i < |lengths|
  {
    if lengths[i] == 0 then None else Some(Sum(lengths, i))
  }

  predicate Points(values: seq<Option<nat>>, lengths: seq<nat>) {
    && |values| == |lengths|
    && forall i :: 0 <= i < |lengths| ==> values[i] == Pointer(lengths, i)
  }

  predicate Describes(q: BinaryQuery, oids: OidMap, ts: seq<Ty>, vs: seq<Val>)
    requires RowHasType(ts, vs)
  {
    && q.buffer == Joined(Pieces(oids, ts, vs), |ts|)
    && q.lengths == Lengths(ts, vs)
    && Points(q.values, q.lengths)
    && |q.types| == |q.formats| == |ts|
    && forall i :: 0 <= i < |ts| ==> q.types[i] == oids(ts[i].shape) && q.formats[i] == BINARY_FORMAT
  }

  method SendParams(oids: OidMap, ts: seq<Ty>, vs: seq<Val>) returns (buffer: Bytes)
    requires RowHasType(ts, vs)
    ensures buffer == Joined(Pieces(oids, ts, vs), |ts|)
  {
    var os := new OStream();
    ghost var pieces := Pieces(oids, ts, vs);
    for i := 0 to |ts|
      invariant os.buf == Joined(pieces, i)
    {
      assert pieces[i] == Send(oids, ts[i], vs[i]);
      assert Joined(pieces, i + 1) == Joined(pieces, i) + pieces[i];
      os.Send(oids, ts[i], vs[i]);
    }
    return os.buf;
  }

  method PointInto(lengths: seq<nat>) returns (values: seq<Option<nat>>)
    ensures Points(values, lengths)
  {
    values := [];
    var offset := 0;
    for i := 0 to |lengths|
      invariant |values| == i && offset == Sum(lengths, i)
      invariant forall j :: 0 <= j < i ==> values[j] == Pointer(lengths, j)
    {
      var value := if lengths[i] != 0 then Some(offset) else None;
      values := values + [value];
      offset := offset + lengths[i];
    }
  }

  method Build(oids: OidMap, ts: seq<Ty>, vs: seq<Val>) returns (q: BinaryQuery)
    requires RowHasType(ts, vs)
    ensures Describes(q, oids, ts, vs)
  {
    var types: seq<Oid>, lengths: seq<nat>, formats: seq<int> := [], [], [];
    for i := 0 to |ts|
      invariant |types| == |formats| == i
      invariant forall j :: 0 <= j < i ==> types[j] == oids(ts[j].shape) && formats[j] == BINARY_FORMAT
      invariant lengths == Lengths(ts, vs)[..i]
    {
      formats := formats + [BINARY_FORMAT];
      lengths := lengths + [Length(ts[i], vs[i])];
      types := types + [oids(ts[i].shape)];
    }
    var buffer := SendParams(oids, ts, vs);
    var values := PointInto(lengths);
    q := BinaryQuery(buffer, types, formats, lengths, values);
  }

  // ---------------------------------------------------------------------------------------
  // What the lengths say about the buffer.

  /** What the lengths of the first `k` parameters are off by together. */
  function TotalMiss(ts: seq<Ty>, vs: seq<Val>, k: nat): int
    requires RowHasType(ts, vs) && k <= |ts|
  {
    if k == 0 then 0 else TotalMiss(ts, vs, k - 1) + Miss(ts[k - 1], vs[k - 1])
  }

  lemma LengthMisses(oids: OidMap, ts: seq<Ty>, vs: seq<Val>, i: nat)
    requires RowHasType(ts, vs) && i < |ts|
    ensures Lengths(ts, vs)[i] - |Send(oids, ts[i], vs[i])| == Miss(ts[i], vs[i])
    ensures Pieces(oids, ts, vs)[i] == Send(oids, ts[i], vs[i])
  {
    SizeMisses(oids, ts[i], vs[i]);
  }

  lemma {:induction false} OffsetMisses(oids: OidMap, ts: seq<Ty>, vs: seq<Val>, k: nat)
    requires RowHasType(ts, vs) && k <= |ts|
    ensures Sum(Lengths(ts, vs), k) - |Joined(Pieces(oids, ts, vs), k)| == TotalMiss(ts, vs, k)
  {
    if k == 0 {
    } else {
      OffsetMisses(oids, ts, vs, k - 1);
      LengthMisses(oids, ts, vs, k - 1);
    }
  }

  /** The encoding of parameter `i` lies where its pointer says, moved back by what the lengths before it are off. */
  lemma Displaced(q: BinaryQuery, oids: OidMap, ts: seq<Ty>, vs: seq<Val>, i: nat)
    requires RowHasType(ts, vs) && Describes(q, oids, ts, vs) && i < |ts|
    ensures var from := Sum(q.lengths, i) - TotalMiss(ts, vs, i);
            var piece := Send(oids, ts[i], vs[i]);
            0 <= from && from + |piece| <= |q.buffer| && q.buffer[from..from + |piece|] == piece
  {
    OffsetMisses(oids, ts, vs, i);
    PieceAt(Pieces(oids, ts, vs), i);
  }

  predicate NoneMissed(ts: seq<Ty>, vs: seq<Val>)
    requires RowHasType(ts, vs)
  {
    forall i :: 0 <= i < |ts| ==> Miss(ts[i], vs[i]) == 0
  }

  lemma RealExactlyWhen(oids: OidMap, ts: seq<Ty>, vs: seq<Val>)
    requires RowHasType(ts, vs)
    ensures RealLengths(Pieces(oids, ts, vs), Lengths(ts, vs)) <==> NoneMissed(ts, vs)
  {
    var pieces, lengths := Pieces(oids, ts, vs), Lengths(ts, vs);
    forall i | 0 <= i < |ts|
      ensures |pieces[i]| == lengths[i] <==> Miss(ts[i], vs[i]) == 0
    {
      LengthMisses(oids, ts, vs, i);
    }
  }

  /** Every slice is the encoding of its parameter if and only if no length is off. */
  lemma AllSlicesExactlyWhen(q: BinaryQuery, oids: OidMap, ts: seq<Ty>, vs: seq<Val>)
    requires RowHasType(ts, vs) && Describes(q, oids, ts, vs)
    ensures AllSlices(q.buffer, Pieces(oids, ts, vs), q.lengths) <==> NoneMissed(ts, vs)
  {
    RealExactlyWhen(oids, ts, vs);
    SlicesExactlyWhen(Pieces(oids, ts, vs), q.lengths);
  }

  /** Parameters that mix no nulls into arrays of static-size elements. */
  predicate AllUniform(ts: seq<Ty>, vs: seq<Val>)
    requires RowHasType(ts, vs)
  {
    forall i :: 0 <= i < |ts| ==> Uniform(ts[i], vs[i])
  }

  /** Such parameters are cut out of the buffer as they were sent, and nothing is left over. */
  lemma UniformSlices(q: BinaryQuery, oids: OidMap, ts: seq<Ty>, vs: seq<Val>)
    requires RowHasType(ts, vs) && Describes(q, oids, ts, vs) && AllUniform(ts, vs)
    ensures AllSlices(q.buffer, Pieces(oids, ts, vs), q.lengths)
    ensures Sum(q.lengths, |ts|) == |q.buffer|
  {
    forall i | 0 <= i < |ts|
      ensures Miss(ts[i], vs[i]) == 0
    {
      UniformHits(oids, ts[i], vs[i]);
    }
    AllSlicesExactlyWhen(q, oids, ts, vs);
    NothingMissed(ts, vs, |ts|);
    OffsetMisses(oids, ts, vs, |ts|);
  }

  lemma {:induction false} NothingMissed(ts: seq<Ty>, vs: seq<Val>, k: nat)
    requires RowHasType(ts, vs) && k <= |ts| && forall i :: 0 <= i < k ==> Miss(ts[i], vs[i]) == 0
    ensures TotalMiss(ts, vs, k) == 0
  {
    if k == 0 {
    } else {
      NothingMissed(ts, vs, k - 1);
    }
  }

  // ---------------------------------------------------------------------------------------
  // What arrives.

  /** Reading parameter `i` the way the receiver of the query does: a null pointer is a null. */
  function Arrived(q: BinaryQuery, oids: OidMap, t: Ty, i: nat): Result<Got<Val>, RecvError>
    requires i < |q.values| && i < |q.lengths| && i < |q.types|
  {
    match q.values[i]
    case None => Recv(oids, t, Some(q.types[i]), -1, [])
    case Some(at) =>
      if at + q.lengths[i] > |q.buffer| then Err(UnexpectedEof)
      else Recv(oids, t, Some(q.types[i]), q.lengths[i], q.buffer[at..at + q.lengths[i]])
  }

  lemma NothingToSend(t: Ty, v: Val)
    requires HasType(t, v)
    ensures Length(t, v) == 0 <==> v.Null? || v == Chars([])
  {
  }

  lemma ValueArrives(q: BinaryQuery, oids: OidMap, t: Ty, v: Val, i: nat)
    requires i < |q.values| && i < |q.lengths| && i < |q.types|
    requires HasType(t, v) && Encodable(t, v) && !v.Null?
    requires q.types[i] == oids(t.shape) && q.lengths[i] == SizeOf(t, v)
    requires q.values[i].Some? && q.values[i].value + q.lengths[i] <= |q.buffer|
    requires q.buffer[q.values[i].value..q.values[i].value + q.lengths[i]] == Send(oids, t, v)
    ensures Arrived(q, oids, t, i) == Ok(Got(v, []))
  {
    RoundTrip(oids, t, v, Some(q.types[i]), []);
    assert Send(oids, t, v) + [] == Send(oids, t, v);
  }

  /** A value whose length is off comes back with bytes to spare, or not at all. */
  lemma MissedGoesWrong(q: BinaryQuery, oids: OidMap, ts: seq<Ty>, vs: seq<Val>, i: nat)
    requires RowHasType(ts, vs) && Describes(q, oids, ts, vs) && i < |ts| && Encodable(ts[i], vs[i])
    requires TotalMiss(ts, vs, i) == 0 && Miss(ts[i], vs[i]) != 0
    ensures Arrived(q, oids, ts[i], i) != Ok(Got(vs[i], []))
  {
    PlacedAtPointer(q, oids, ts, vs, i);
    LengthMisses(oids, ts, vs, i);
    assert q.lengths[i] == Length(ts[i], vs[i]);
    assert q.values[i] == Some(Sum(q.lengths, i));
    CutWrongly(q, oids, ts[i], vs[i], i);
  }

  lemma PlacedAtPointer(q: BinaryQuery, oids: OidMap, ts: seq<Ty>, vs: seq<Val>, i: nat)
    requires RowHasType(ts, vs) && Describes(q, oids, ts, vs) && i < |ts| && TotalMiss(ts, vs, i) == 0
    ensures var from, piece := Sum(q.lengths, i), Send(oids, ts[i], vs[i]);
            from + |piece| <= |q.buffer| && q.buffer[from..from + |piece|] == piece
  {
    OffsetMisses(oids, ts, vs, i);
    PieceAt(Pieces(oids, ts, vs), i);
    LengthMisses(oids, ts, vs, i);
  }

  lemma CutWrongly(q: BinaryQuery, oids: OidMap, t: Ty, v: Val, i: nat)
    requires i < |q.values| && i < |q.lengths| && i < |q.types|
    requires HasType(t, v) && Encodable(t, v) && !v.Null?
    requires q.types[i] == oids(t.shape) && q.lengths[i] == SizeOf(t, v) != |Send(oids, t, v)|
    requires q.values[i].Some? && q.values[i].value + |Send(oids, t, v)| <= |q.buffer|
    requires q.buffer[q.values[i].value..q.values[i].value + |Send(oids, t, v)|] == Send(oids, t, v)
    ensures Arrived(q, oids, t, i) != Ok(Got(v, []))
  {
    var at, n := q.values[i].value, q.lengths[i];
    if at + n <= |q.buffer| {
      CutAtOwnStart(q.buffer, at, n, Send(oids, t, v));
      WrongLength(oids, t, v, Some(q.types[i]), q.buffer[at..at + n]);
    }
  }

  /** Cut at the right place, but to another length: too little of the piece, or all of it and more. */
  lemma CutAtOwnStart(buffer: Bytes, at: nat, n: nat, piece: Bytes)
    requires at + n <= |buffer| && at + |piece| <= |buffer| && buffer[at..at + |piece|] == piece
    ensures var cut := buffer[at..at + n];
            cut == if n < |piece| then piece[..n] else piece + cut[|piece|..]
  {
    var cut := buffer[at..at + n];
    if n < |piece| {
      assert cut == buffer[at..at + |piece|][..n];
    } else {
      assert cut[..|piece|] == buffer[at..at + |piece|];
    }
  }

  lemma WrongLength(oids: OidMap, t: Ty, v: Val, oid: Option<Oid>, cut: Bytes)
    requires HasType(t, v) && Encodable(t, v) && (oid == None || oid == Some(oids(t.shape)))
    requires var piece := Send(oids, t, v);
             |cut| != |piece| && cut == if |cut| < |piece| then piece[..|cut|] else piece + cut[|piece|..]
    ensures Recv(oids, t, oid, SizeOf(t, v), cut) != Ok(Got(v, []))
  {
    var piece := Send(oids, t, v);
    if |cut| < |piece| {
      Truncated(oids, t, v, oid, |cut|);
    } else {
      RoundTrip(oids, t, v, oid, cut[|piece|..]);
    }
  }

  /**
   A parameter behind parameters whose lengths are not off together arrives as it was given if and only if its own
   length is not off and it is not an empty string. An empty string arrives as null, wherever it stands.
   */
  lemma ArrivesExactlyWhen(q: BinaryQuery, oids: OidMap, ts: seq<Ty>, vs: seq<Val>, i: nat)
    requires RowHasType(ts, vs) && Describes(q, oids, ts, vs) && i < |ts| && Encodable(ts[i], vs[i])
    ensures TotalMiss(ts, vs, i) == 0 ==>
              (Arrived(q, oids, ts[i], i) == Ok(Got(vs[i], [])) <==> Miss(ts[i], vs[i]) == 0 && vs[i] != Chars([]))
    ensures vs[i] == Chars([]) ==>
              Arrived(q, oids, ts[i], i) == if ts[i].nullable then Ok(Got(Null, [])) else Err(UnexpectedNull)
  {
    NothingToSend(ts[i], vs[i]);
    assert q.lengths[i] == Length(ts[i], vs[i]);
    if q.lengths[i] != 0 && TotalMiss(ts, vs, i) == 0 {
      if Miss(ts[i], vs[i]) == 0 {
        UndisturbedArrives(q, oids, ts, vs, i);
      } else {
        MissedGoesWrong(q, oids, ts, vs, i);
      }
    }
  }

  lemma UndisturbedArrives(q: BinaryQuery, oids: OidMap, ts: seq<Ty>, vs: seq<Val>, i: nat)
    requires RowHasType(ts, vs) && Describes(q, oids, ts, vs) && i < |ts| && Encodable(ts[i], vs[i])
    requires TotalMiss(ts, vs, i) == 0 && Miss(ts[i], vs[i]) == 0 && q.lengths[i] != 0
    ensures Arrived(q, oids, ts[i], i) == Ok(Got(vs[i], []))
  {
    PlacedAtPointer(q, oids, ts, vs, i);
    LengthMisses(oids, ts, vs, i);
    ValueArrives(q, oids, ts[i], vs[i], i);
  }

  predicate ArrivesAt(q: BinaryQuery, oids: OidMap, ts: seq<Ty>, vs: seq<Val>, i: nat)
    requires RowHasType(ts, vs) && Describes(q, oids, ts, vs) && i < |ts|
  {
    Arrived(q, oids, ts[i], i) == Ok(Got(vs[i], []))
  }

  predicate AllArrive(q: BinaryQuery, oids: OidMap, ts: seq<Ty>, vs: seq<Val>)
    requires RowHasType(ts, vs) && Describes(q, oids, ts, vs)
  {
    forall i :: 0 <= i < |ts| ==> ArrivesAt(q, oids, ts, vs, i)
  }

  /** The parameters all arrive as they were given if and only if no length is off and none is an empty string. */
  lemma AllArriveExactlyWhen(q: BinaryQuery, oids: OidMap, ts: seq<Ty>, vs: seq<Val>)
    requires RowHasType(ts, vs) && Describes(q, oids, ts, vs) && RowEncodable(ts, vs)
    ensures AllArrive(q, oids, ts, vs) <==> NoneMissed(ts, vs) && Chars([]) !in vs
  {
    forall i | 0 <= i < |ts|
      ensures TotalMiss(ts, vs, i) == 0 ==>
                (ArrivesAt(q, oids, ts, vs, i) <==> Miss(ts[i], vs[i]) == 0 && vs[i] != Chars([]))
    {
      ArrivesExactlyWhen(q, oids, ts, vs, i);
    }
    if AllArrive(q, oids, ts, vs) {
      forall i | 0 <= i < |ts|
        ensures Miss(ts[i], vs[i]) == 0 && vs[i] != Chars([])
      {
        assert ArrivesAt(q, oids, ts, vs, i);
        FirstMissMisses(ts, vs, i);
      }
    } else if NoneMissed(ts, vs) {
      var i :| 0 <= i < |ts| && !ArrivesAt(q, oids, ts, vs, i);
      NothingMissed(ts, vs, i);
    }
  }

  /** A length that is off is off at the first such parameter, where the lengths before it are not. */
  lemma {:induction false} FirstMissMisses(ts: seq<Ty>, vs: seq<Val>, k: nat)
    requires RowHasType(ts, vs) && k <= |ts|
    requires forall i :: 0 <= i < k && TotalMiss(ts, vs, i) == 0 ==> Miss(ts[i], vs[i]) == 0
    ensures TotalMiss(ts, vs, k) == 0
  {
    if k == 0 {
    } else {
      FirstMissMisses(ts, vs, k - 1);
    }
  }

  /** An array that mixes a null with a value, and an integer. */
  const MIXED_TYPES := [Ty(false, ArrayOf(Ty(true, Scalar(Int32)))), Ty(false, Scalar(Int32))]
  const MIXED_VALUES := [List([Null, Number(0)]), Number(5)]

  lemma MixedTyped()
    ensures RowHasType(MIXED_TYPES, MIXED_VALUES)
  {
    assert Fits(4, 0) && Fits(4, 5) by { assert Base(3) == 0x100_0000 by { Base4(); } }
  }

  /** The array is sent as its header, the null and the zero. */
  lemma MixedPieces(oids: OidMap)
    requires RowHasType(MIXED_TYPES, MIXED_VALUES)
    ensures var e := Ty(true, Scalar(Int32));
            var ps := Pieces(oids, MIXED_TYPES, MIXED_VALUES);
            && ps[0] == ArrayHeader(oids, e, 2) + (Encode(4, -1) + (Encode(4, 4) + Encode(4, 0)))
            && ps[1] == Encode(4, 5) && Lengths(MIXED_TYPES, MIXED_VALUES) == [28, 4]
  {
    var e, items := Ty(true, Scalar(Int32)), [Null, Number(0)];
    assert HasType(MIXED_TYPES[0], MIXED_VALUES[0]) && HasType(MIXED_TYPES[1], MIXED_VALUES[1]);
    assert AllHaveType(e, items);
    assert items[1..] == [Number(0)] && items[1..][1..] == [];
    assert SendItems(oids, e, items[1..]) == Encode(4, 4) + Encode(4, 0);
    assert SendItems(oids, e, items) == Encode(4, -1) + (Encode(4, 4) + Encode(4, 0));
    assert DataFrameSize(e, items[0]) == 4;
  }

  /** The buffer up to the zero, the zero, and the five. */
  lemma MixedBuffer(q: BinaryQuery, oids: OidMap)
    requires RowHasType(MIXED_TYPES, MIXED_VALUES) && Describes(q, oids, MIXED_TYPES, MIXED_VALUES)
    ensures q.lengths == [28, 4] && q.values[1] == Some(28)
    ensures exists front: Bytes :: |front| == 28 && q.buffer == front + Encode(4, 0) + Encode(4, 5)
  {
    MixedPieces(oids);
    var ps := Pieces(oids, MIXED_TYPES, MIXED_VALUES);
    assert Joined(ps, 2) == Joined(ps, 1) + ps[1] && Joined(ps, 1) == Joined(ps, 0) + ps[0];
    assert Sum(q.lengths, 1) == Sum(q.lengths, 0) + 28;
    var header := ArrayHeader(oids, Ty(true, Scalar(Int32)), 2);
    var front := header + (Encode(4, -1) + Encode(4, 4));
    FrontAndLast(header, Encode(4, -1), Encode(4, 4), Encode(4, 0));
    assert Joined(ps, 0) + ps[0] == ps[0];
    assert q.buffer == front + Encode(4, 0) + Encode(4, 5);
  }

  lemma FrontAndLast(a: Bytes, b: Bytes, c: Bytes, d: Bytes)
    ensures a + (b + (c + d)) == a + (b + c) + d
  {
  }

  lemma MiddleOf(a: Bytes, b: Bytes, c: Bytes)
    ensures (a + b + c)[|a|..|a| + |b|] == b
  {
  }

  /** Behind a mixed array an innocent parameter is cut out of its neighbour: five arrives as zero. */
  lemma ShiftedHappens(q: BinaryQuery, oids: OidMap)
    requires RowHasType(MIXED_TYPES, MIXED_VALUES) && Describes(q, oids, MIXED_TYPES, MIXED_VALUES)
    ensures Miss(MIXED_TYPES[1], MIXED_VALUES[1]) == 0
    ensures Arrived(q, oids, MIXED_TYPES[1], 1) == Ok(Got(Number(0), []))
  {
    MixedBuffer(q, oids);
    var front: Bytes :| |front| == 28 && q.buffer == front + Encode(4, 0) + Encode(4, 5);
    MiddleOf(front, Encode(4, 0), Encode(4, 5));
    assert Fits(4, 0) by { assert Base(3) > 0; }
    ScalarReads(oids, Int32, Number(0), []);
    assert Encode(4, 0) + [] == Encode(4, 0);
  }

  /** The query exists: it is what is built from these parameters. */
  method ShiftedQuery(oids: OidMap) returns (q: BinaryQuery)
    ensures RowHasType(MIXED_TYPES, MIXED_VALUES) && Describes(q, oids, MIXED_TYPES, MIXED_VALUES)
    ensures Arrived(q, oids, MIXED_TYPES[1], 1) == Ok(Got(Number(0), []))
  {
    MixedTyped();
    q := Build(oids, MIXED_TYPES, MIXED_VALUES);
    ShiftedHappens(q, oids);
  }
}
