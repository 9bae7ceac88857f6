/** An encoding that breaks off is never taken for a value. */
module CodecTruncation {
  import opened Basics
  import opened Endian
  import opened Codec
  import opened CodecTheorems

  /** The first `k` bytes of two pieces. */
  lemma CutBetween(a: Bytes, b: Bytes, k: nat)
    requires |a| <= k <= |a| + |b|
    ensures (a + b)[..k] == a + b[..k - |a|]
  {
  }

  lemma CutWithin(a: Bytes, b: Bytes, k: nat)
    requires k <= |a|
    ensures (a + b)[..k] == a[..k]
  {
  }

  /** Reading an integer from the first `k` bytes of one and what follows it. */
  lemma ReadIntFromCut(x: int, rest: Bytes, k: nat)
    requires -0x8000_0000 <= x <= MAX_SIZE && k <= 4 + |rest|
    ensures ReadInt((Encode(4, x) + rest)[..k]) == if k < 4 then Err(UnexpectedEof) else Ok(Got(x, rest[..k - 4]))
  {
    if k >= 4 {
      CutBetween(Encode(4, x), rest, k);
      ReadIntOf(x, rest[..k - 4]);
    }
  }

  lemma ReadOidFromCut(x: Oid, rest: Bytes, k: nat)
    requires k <= 4 + |rest|
    ensures ReadOid((Encode(4, x) + rest)[..k]) == if k < 4 then Err(UnexpectedEof) else Ok(Got(x, rest[..k - 4]))
  {
    if k >= 4 {
      CutBetween(Encode(4, x), rest, k);
      ReadOidOf(x, rest[..k - 4]);
    }
  }

  /** Whatever is missing of the encoding of a value, receiving it reports the end of the input. */
  lemma {:induction false} Truncated(oids: OidMap, t: Ty, v: Val, oid: Option<Oid>, k: nat)
    requires HasType(t, v) && Encodable(t, v) && k < |Send(oids, t, v)|
    requires oid == None || oid == Some(oids(t.shape))
    ensures Recv(oids, t, oid, SizeOf(t, v), Send(oids, t, v)[..k]) == Err(UnexpectedEof)
    decreases t, 1
  {
    match t.shape
    case Scalar(_) =>
    case Text =>
    case ArrayOf(e) => ArrayTruncated(oids, e, v.items, k);
    case Composite(fs) =>
      var body := SendRow(oids, fs, v.columns);
      ReadIntFromCut(|fs|, body, k);
      if k >= 4 {
        RowTruncated(oids, fs, v.columns, k - 4);
      }
  }

  lemma {:induction false} ArrayTruncated(oids: OidMap, e: Ty, items: seq<Val>, k: nat)
    requires AllHaveType(e, items) && AllEncodable(e, items) && |items| <= MAX_SIZE
    requires k < 20 + |SendItems(oids, e, items)|
    ensures RecvArray(oids, e, (ArrayHeader(oids, e, |items|) + SendItems(oids, e, items))[..k]) == Err(UnexpectedEof)
    decreases e, 4
  {
    var header, body := ArrayHeader(oids, e, |items|), SendItems(oids, e, items);
    if k >= 20 {
      CutBetween(header, body, k);
      ArrayHeaderReads(oids, e, |items|, body[..k - 20]);
      ItemsTruncated(oids, e, items, k - 20);
    } else {
      CutWithin(header, body, k);
      HeaderTruncated(oids, e, |items|, k);
    }
  }

  lemma HeaderTruncated(oids: OidMap, e: Ty, n: nat, k: nat)
    requires n <= MAX_SIZE && k < 20
    ensures RecvArray(oids, e, ArrayHeader(oids, e, n)[..k]) == Err(UnexpectedEof)
  {
    var fromIndex := Encode(4, 0);
    var fromCount := Encode(4, n) + fromIndex;
    var fromElem := Encode(4, oids(e.shape)) + fromCount;
    var fromOffset := Encode(4, 0) + fromElem;
    assert ArrayHeader(oids, e, n) == Encode(4, 1) + fromOffset by {
      assert PgArray(oids, e) + fromCount == Encode(4, 1) + fromOffset;
    }
    ReadIntFromCut(1, fromOffset, k);
    if k >= 4 {
      ReadIntFromCut(0, fromElem, k - 4);
    }
    if k >= 8 {
      ReadOidFromCut(oids(e.shape), fromCount, k - 8);
    }
    if k >= 12 {
      ReadIntFromCut(n, fromIndex, k - 12);
    }
  }

  lemma {:induction false} DataFrameTruncated(oids: OidMap, t: Ty, v: Val, oid: Option<Oid>, k: nat)
    requires HasType(t, v) && Encodable(t, v) && k < |SendDataFrame(oids, t, v)|
    requires oid == None || oid == Some(oids(t.shape))
    ensures RecvDataFrame(oids, t, oid, SendDataFrame(oids, t, v)[..k]) == Err(UnexpectedEof)
    decreases t, 2
  {
    ReadIntFromCut(SizeOf(t, v), Send(oids, t, v), k);
    if k >= 4 {
      Truncated(oids, t, v, oid, k - 4);
    }
  }

  lemma {:induction false} FrameTruncated(oids: OidMap, t: Ty, v: Val, k: nat)
    requires HasType(t, v) && Encodable(t, v) && k < |SendFrame(oids, t, v)|
    ensures RecvFrame(oids, t, SendFrame(oids, t, v)[..k]) == Err(UnexpectedEof)
    decreases t, 3
  {
    ReadOidFromCut(oids(t.shape), SendDataFrame(oids, t, v), k);
    if k >= 4 {
      DataFrameTruncated(oids, t, v, Some(oids(t.shape)), k - 4);
    }
  }

  lemma {:induction false} ItemsTruncated(oids: OidMap, e: Ty, items: seq<Val>, k: nat)
    requires AllHaveType(e, items) && AllEncodable(e, items) && k < |SendItems(oids, e, items)|
    ensures items != [] && RecvItems(oids, e, |items|, SendItems(oids, e, items)[..k]) == Err(UnexpectedEof)
    decreases e, 3, |items|
  {
    var first, others := SendDataFrame(oids, e, items[0]), SendItems(oids, e, items[1..]);
    if k < |first| {
      CutWithin(first, others, k);
      DataFrameTruncated(oids, e, items[0], None, k);
    } else {
      CutBetween(first, others, k);
      DataFrameRoundTrip(oids, e, items[0], None, others[..k - |first|]);
      ItemsTruncated(oids, e, items[1..], k - |first|);
    }
  }

  lemma {:induction false} RowTruncated(oids: OidMap, fs: seq<Ty>, columns: seq<Val>, k: nat)
    requires RowHasType(fs, columns) && RowEncodable(fs, columns) && k < |SendRow(oids, fs, columns)|
    ensures RecvRow(oids, fs, SendRow(oids, fs, columns)[..k]) == Err(UnexpectedEof)
    decreases fs
  {
    var first, others := SendFrame(oids, fs[0], columns[0]), SendRow(oids, fs[1..], columns[1..]);
    if k < |first| {
      CutWithin(first, others, k);
      FrameTruncated(oids, fs[0], columns[0], k);
    } else {
      CutBetween(first, others, k);
      FrameRoundTrip(oids, fs[0], columns[0], others[..k - |first|]);
      RowTruncated(oids, fs[1..], columns[1..], k - |first|);
    }
  }
}
