/** The PostgreSQL binary format: what `send` writes, what `size_of` announces, what `recv` accepts. */
module Codec {
  import opened Basics
  import opened Endian
  import Intervals
  import TimeTraits

  /** Types whose binary form always has the same length. */
  datatype Kind = Int16 | Int32 | Int64 | Bool | Interval

  datatype Shape = Scalar(kind: Kind) | Text | ArrayOf(elem: Ty) | Composite(fields: seq<Ty>)

  /** A C++ type as the codec sees it: the unwrapped type, and whether a nullable wraps it. */
  datatype Ty = Ty(nullable: bool, shape: Shape)

  datatype Val =
    | Null
    | Number(n: int)
    | Truth(b: bool)
    | Span(ticks: TimeTraits.Ticks)
    | Chars(bytes: Bytes)
    | List(items: seq<Val>)
    | Row(columns: seq<Val>)

  type Oid = x: nat | x < 0x1_0000_0000 witness 0

  /** The oid of each unwrapped type: those built in, and those of the OID map. */
  type OidMap = Shape -> Oid

  const MAX_SIZE := 0x7fff_ffff

  datatype RecvError =
    | UnexpectedEof | OidTypeMismatch | UnexpectedNull | BadObjectSize
    | BadArrayDimension | BadCompositeSize | LengthError

  datatype Got<+T> = Got(value: T, rest: Bytes)

  function Width(k: Kind): nat {
    match k
    case Int16 => 2
    case Int32 => 4
    case Int64 => 8
    case Bool => 1
    case Interval => 16
  }

  predicate IsScalar(k: Kind, v: Val) {
    match k
    case Int16 => v.Number? && Fits(2, v.n)
    case Int32 => v.Number? && Fits(4, v.n)
    case Int64 => v.Number? && Fits(8, v.n)
    case Bool => v.Truth?
    case Interval => v.Span?
  }

  predicate HasType(t: Ty, v: Val)
    decreases t
  {
    if v.Null? then t.nullable
    else
      match t.shape
      case Scalar(k) => IsScalar(k, v)
      case Text => v.Chars?
      case ArrayOf(e) => v.List? && forall i :: 0 <= i < |v.items| ==> HasType(e, v.items[i])
      case Composite(fs) =>
        v.Row? && |v.columns| == |fs| && forall i :: 0 <= i < |fs| ==> HasType(fs[i], v.columns[i])
  }

  predicate AllHaveType(e: Ty, items: seq<Val>) {
    forall i :: 0 <= i < |items| ==> HasType(e, items[i])
  }

  predicate RowHasType(fs: seq<Ty>, columns: seq<Val>) {
    |columns| == |fs| && forall i :: 0 <= i < |fs| ==> HasType(fs[i], columns[i])
  }

  predicate StaticSize(t: Ty) {
    t.shape.Scalar?
  }

  // ---------------------------------------------------------------------------------------
  // size_of

  /** The length `size_of` announces: -1 stands for null. */
  function SizeOf(t: Ty, v: Val): (r: int)
    requires HasType(t, v)
    ensures r >= -1 && (r == -1 <==> v.Null?)
    decreases t, 0
  {
    if v.Null? then -1
    else
      match t.shape
      case Scalar(k) => Width(k)
      case Text => |v.bytes|
      case ArrayOf(e) => 20 + ArrayDataSize(e, v.items)
      case Composite(fs) => 4 + RowDataSize(fs, v.columns)
  }

  function DataFrameSize(t: Ty, v: Val): (r: int)
    requires HasType(t, v)
    ensures r >= 4
    decreases t, 1
  {
    4 + if SizeOf(t, v) > 0 then SizeOf(t, v) else 0
  }

  /** The first element speaks for all when the element type has a static size. */
  function ArrayDataSize(e: Ty, items: seq<Val>): (r: int)
    requires AllHaveType(e, items)
    ensures r >= 0
    decreases e, 3
  {
    if StaticSize(e) then
      if items == [] then 0 else DataFrameSize(e, items[0]) * |items|
    else SumOfFrames(e, items)
  }

  function SumOfFrames(e: Ty, items: seq<Val>): (r: int)
    requires AllHaveType(e, items)
    ensures r >= 0
    decreases e, 2, |items|
  {
    if items == [] then 0 else DataFrameSize(e, items[0]) + SumOfFrames(e, items[1..])
  }

  function RowDataSize(fs: seq<Ty>, columns: seq<Val>): (r: int)
    requires RowHasType(fs, columns)
    ensures r >= 0
    decreases fs
  {
    if fs == [] then 0 else 4 + DataFrameSize(fs[0], columns[0]) + RowDataSize(fs[1..], columns[1..])
  }

  // ---------------------------------------------------------------------------------------
  // send

  function IntervalBytes(i: Intervals.PgInterval): (r: Bytes)
    ensures |r| == 16
  {
    Encode(8, i.microseconds) + Encode(4, i.days) + Encode(4, i.months)
  }

  function ScalarBytes(k: Kind, v: Val): (r: Bytes)
    requires IsScalar(k, v)
    ensures |r| == Width(k)
  {
    match k
    case Int16 => Encode(2, v.n)
    case Int32 => Encode(4, v.n)
    case Int64 => Encode(8, v.n)
    case Bool => Encode(1, if v.b then 1 else 0)
    case Interval => IntervalBytes(Intervals.FromChrono(v.ticks))
  }

  function Send(oids: OidMap, t: Ty, v: Val): Bytes
    requires HasType(t, v)
    decreases t, 0
  {
    if v.Null? then []
    else
      match t.shape
      case Scalar(k) => ScalarBytes(k, v)
      case Text => v.bytes
      case ArrayOf(e) => ArrayHeader(oids, e, |v.items|) + SendItems(oids, e, v.items)
      case Composite(fs) => Encode(4, |fs|) + SendRow(oids, fs, v.columns)
  }

  function ArrayHeader(oids: OidMap, e: Ty, n: nat): (r: Bytes)
    ensures |r| == 20
  {
    PgArray(oids, e) + PgArrayDimension(n)
  }

  /** One dimension, no offset, the oid of the elements. */
  function PgArray(oids: OidMap, e: Ty): (r: Bytes)
    ensures |r| == 12
  {
    Encode(4, 1) + Encode(4, 0) + Encode(4, oids(e.shape))
  }

  function PgArrayDimension(n: nat): (r: Bytes)
    ensures |r| == 8
  {
    Encode(4, n) + Encode(4, 0)
  }

  function SendDataFrame(oids: OidMap, t: Ty, v: Val): Bytes
    requires HasType(t, v)
    decreases t, 1
  {
    Encode(4, SizeOf(t, v)) + Send(oids, t, v)
  }

  function SendFrame(oids: OidMap, t: Ty, v: Val): Bytes
    requires HasType(t, v)
    decreases t, 2
  {
    Encode(4, oids(t.shape)) + SendDataFrame(oids, t, v)
  }

  function SendItems(oids: OidMap, e: Ty, items: seq<Val>): Bytes
    requires AllHaveType(e, items)
    decreases e, 3, |items|
  {
    if items == [] then [] else SendDataFrame(oids, e, items[0]) + SendItems(oids, e, items[1..])
  }

  function SendRow(oids: OidMap, fs: seq<Ty>, columns: seq<Val>): Bytes
    requires RowHasType(fs, columns)
    decreases fs
  {
    if fs == [] then [] else SendFrame(oids, fs[0], columns[0]) + SendRow(oids, fs[1..], columns[1..])
  }

  // ---------------------------------------------------------------------------------------
  // recv

  function ReadBytes(n: nat, input: Bytes): Result<Got<Bytes>, RecvError> {
    if n <= |input| then Ok(Got(input[..n], input[n..])) else Err(UnexpectedEof)
  }

  function ReadInt(input: Bytes): Result<Got<int>, RecvError> {
    var g :- ReadBytes(4, input);
    Ok(Got(Decode(g.value), g.rest))
  }

  function ReadOid(input: Bytes): Result<Got<int>, RecvError> {
    var g :- ReadBytes(4, input);
    Ok(Got(Value(g.value), g.rest))
  }

  function ScalarOf(k: Kind, bs: Bytes): Val
    requires |bs| == Width(k)
  {
    match k
    case Bool => Truth(bs[0] != 0)
    case Interval => Span(Intervals.ToChrono(IntervalOf(bs)))
    case _ => Number(Decode(bs))
  }

  lemma DecodeFits(bs: Bytes)
    requires bs != []
    ensures Fits(|bs|, Decode(bs))
  {
  }

  function IntervalOf(bs: Bytes): Intervals.PgInterval
    requires |bs| == 16
  {
    DecodeFits(bs[..8]);
    DecodeFits(bs[8..12]);
    DecodeFits(bs[12..]);
    Intervals.PgInterval(Decode(bs[..8]), Decode(bs[8..12]), Decode(bs[12..]))
  }

  /** `recv`: the oid is checked when there is one, and the announced size is -1 for null. */
  function Recv(oids: OidMap, t: Ty, oid: Option<Oid>, size: int, input: Bytes): Result<Got<Val>, RecvError>
    decreases t, 1
  {
    if t.nullable && size == -1 then Ok(Got(Null, input))
    else if oid.Some? && oid.value != oids(t.shape) then Err(OidTypeMismatch)
    else if size == -1 then Err(UnexpectedNull)
    else RecvShape(oids, t.shape, size, input)
  }

  function RecvShape(oids: OidMap, s: Shape, size: int, input: Bytes): Result<Got<Val>, RecvError>
    decreases s, 0
  {
    match s
    case Scalar(k) =>
      if k != Interval && size != Width(k) then Err(BadObjectSize)
      else
        var g :- ReadBytes(Width(k), input);
        Ok(Got(ScalarOf(k, g.value), g.rest))
    case Text =>
      if size < 0 then Err(LengthError)
      else
        var g :- ReadBytes(size, input);
        Ok(Got(Chars(g.value), g.rest))
    case ArrayOf(e) => RecvArray(oids, e, input)
    case Composite(fs) =>
      var count :- ReadInt(input);
      if count.value != |fs| then Err(BadCompositeSize)
      else
        var row :- RecvRow(oids, fs, count.rest);
        Ok(Got(Row(row.value), row.rest))
  }

  function RecvArray(oids: OidMap, e: Ty, input: Bytes): Result<Got<Val>, RecvError>
    decreases e, 4
  {
    var dimensions :- ReadInt(input);
    var offset :- ReadInt(dimensions.rest);
    var elem :- ReadOid(offset.rest);
    if dimensions.value > 1 then Err(BadArrayDimension)
    else if elem.value != oids(e.shape) then Err(OidTypeMismatch)
    else if dimensions.value < 1 then Ok(Got(List([]), elem.rest))
    else
      var count :- ReadInt(elem.rest);
      var index :- ReadInt(count.rest);
      if count.value == 0 then Ok(Got(List([]), index.rest))
      else if count.value < 0 then Err(LengthError)
      else
        var items :- RecvItems(oids, e, count.value, index.rest);
        Ok(Got(List(items.value), items.rest))
  }

  function RecvDataFrame(oids: OidMap, t: Ty, oid: Option<Oid>, input: Bytes): Result<Got<Val>, RecvError>
    decreases t, 2
  {
    var size :- ReadInt(input);
    Recv(oids, t, oid, size.value, size.rest)
  }

  function RecvFrame(oids: OidMap, t: Ty, input: Bytes): Result<Got<Val>, RecvError>
    decreases t, 3
  {
    var oid :- ReadOid(input);
    RecvDataFrame(oids, t, Some(oid.value), oid.rest)
  }

  function RecvItems(oids: OidMap, e: Ty, n: nat, input: Bytes): Result<Got<seq<Val>>, RecvError>
    decreases e, 3, n
  {
    if n == 0 then Ok(Got([], input))
    else
      var first :- RecvDataFrame(oids, e, None, input);
      var others :- RecvItems(oids, e, n - 1, first.rest);
      Ok(Got([first.value] + others.value, others.rest))
  }

  function RecvRow(oids: OidMap, fs: seq<Ty>, input: Bytes): Result<Got<seq<Val>>, RecvError>
    decreases fs
  {
    if fs == [] then Ok(Got([], input))
    else
      var first :- RecvFrame(oids, fs[0], input);
      var others :- RecvRow(oids, fs[1..], first.rest);
      Ok(Got([first.value] + others.value, others.rest))
  }
}
