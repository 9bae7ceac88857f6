/** The codec as it runs: an output stream that appends to a buffer, an input stream that moves a cursor. */
module CodecStreams {
  import opened Basics
  import opened Endian
  import opened Codec
  import Intervals

  lemma Associate(a: Bytes, b: Bytes, c: Bytes, d: Bytes)
    ensures a + b + c + d == a + (b + c + d)
  {
  }

  lemma ItemsStep(oids: OidMap, e: Ty, items: seq<Val>, i: nat, before: Bytes)
    requires AllHaveType(e, items) && i < |items|
    ensures before + SendItems(oids, e, items[i..])
         == before + SendDataFrame(oids, e, items[i]) + SendItems(oids, e, items[i + 1..])
  {
    assert items[i..][1..] == items[i + 1..];
  }

  lemma RowStep(oids: OidMap, fs: seq<Ty>, columns: seq<Val>, i: nat, before: Bytes)
    requires RowHasType(fs, columns) && i < |fs|
    ensures before + SendRow(oids, fs[i..], columns[i..])
         == before + SendFrame(oids, fs[i], columns[i]) + SendRow(oids, fs[i + 1..], columns[i + 1..])
  {
    assert fs[i..][1..] == fs[i + 1..] && columns[i..][1..] == columns[i + 1..];
  }

  class OStream {
    var buf: Bytes

    constructor ()
      ensures buf == []
    {
      buf := [];
    }

    method Put(b: Byte)
      modifies this
      ensures buf == old(buf) + [b]
    {
      buf := buf + [b];
    }

    method Write(bs: Bytes)
      modifies this
      ensures buf == old(buf) + bs
    {
      buf := buf + bs;
    }

    /** An integer goes out through a native buffer holding its bytes swapped. */
    method WriteInt(w: nat, x: int)
      requires w > 0
      modifies this
      ensures buf == old(buf) + Encode(w, x)
    {
      var u := x % Base(w);
      if w == 1 {
        assert Encode(1, x) == [u] by { assert BigEndian(1, u) == BigEndian(0, u / 256) + [u % 256]; }
        Put(u);
      } else {
        SwapGivesBigEndian(w, u);
        Write(LittleEndian(w, Swap(w, u)));
      }
    }

    method WriteScalar(k: Kind, v: Val)
      requires IsScalar(k, v)
      modifies this
      ensures buf == old(buf) + ScalarBytes(k, v)
    {
      match k
      case Int16 => WriteInt(2, v.n);
      case Int32 => WriteInt(4, v.n);
      case Int64 => WriteInt(8, v.n);
      case Bool => WriteInt(1, if v.b then 1 else 0);
      case Interval =>
        WriteInterval(Intervals.FromChrono(v.ticks));
    }

    method WriteInterval(i: Intervals.PgInterval)
      modifies this
      ensures buf == old(buf) + IntervalBytes(i)
    {
      WriteInt(8, i.microseconds);
      WriteInt(4, i.days);
      WriteInt(4, i.months);
      Associate(old(buf), Encode(8, i.microseconds), Encode(4, i.days), Encode(4, i.months));
    }

    method Send(oids: OidMap, t: Ty, v: Val)
      requires HasType(t, v)
      modifies this
      ensures buf == old(buf) + Codec.Send(oids, t, v)
      decreases t, 0
    {
      if v.Null? {
        return;
      }
      match t.shape
      case Scalar(k) => WriteScalar(k, v);
      case Text => Write(v.bytes);
      case ArrayOf(e) => SendArray(oids, e, v.items);
      case Composite(fs) => SendComposite(oids, fs, v.columns);
    }

    method SendDataFrame(oids: OidMap, t: Ty, v: Val)
      requires HasType(t, v)
      modifies this
      ensures buf == old(buf) + Codec.SendDataFrame(oids, t, v)
      decreases t, 1
    {
      WriteInt(4, SizeOf(t, v));
      Send(oids, t, v);
      Regroup(old(buf), Encode(4, SizeOf(t, v)), Codec.Send(oids, t, v));
    }

    method SendFrame(oids: OidMap, t: Ty, v: Val)
      requires HasType(t, v)
      modifies this
      ensures buf == old(buf) + Codec.SendFrame(oids, t, v)
      decreases t, 2
    {
      WriteInt(4, oids(t.shape));
      SendDataFrame(oids, t, v);
      Regroup(old(buf), Encode(4, oids(t.shape)), Codec.SendDataFrame(oids, t, v));
    }

    method WriteArrayHeader(oids: OidMap, e: Ty, n: nat)
      modifies this
      ensures buf == old(buf) + ArrayHeader(oids, e, n)
    {
      WriteArray(oids, e);
      WriteArrayDimension(n);
    }

    method WriteArray(oids: OidMap, e: Ty)
      modifies this
      ensures buf == old(buf) + PgArray(oids, e)
    {
      WriteInt(4, 1);
      WriteInt(4, 0);
      WriteInt(4, oids(e.shape));
      Associate(old(buf), Encode(4, 1), Encode(4, 0), Encode(4, oids(e.shape)));
    }

    method WriteArrayDimension(n: nat)
      modifies this
      ensures buf == old(buf) + PgArrayDimension(n)
    {
      WriteInt(4, n);
      WriteInt(4, 0);
    }

    method SendAll(oids: OidMap, e: Ty, items: seq<Val>)
      requires AllHaveType(e, items)
      modifies this
      ensures buf == old(buf) + SendItems(oids, e, items)
      decreases e, 3
    {
      var i := 0;
      while i < |items|
        invariant 0 <= i <= |items|
        invariant buf + SendItems(oids, e, items[i..]) == old(buf) + SendItems(oids, e, items)
      {
        ItemsStep(oids, e, items, i, buf);
        SendDataFrame(oids, e, items[i]);
        i := i + 1;
      }
      assert buf + [] == buf;
    }

    method SendArray(oids: OidMap, e: Ty, items: seq<Val>)
      requires AllHaveType(e, items)
      modifies this
      ensures buf == old(buf) + (ArrayHeader(oids, e, |items|) + SendItems(oids, e, items))
      decreases e, 4
    {
      WriteArrayHeader(oids, e, |items|);
      SendAll(oids, e, items);
    }

    method SendFields(oids: OidMap, fs: seq<Ty>, columns: seq<Val>)
      requires RowHasType(fs, columns)
      modifies this
      ensures buf == old(buf) + SendRow(oids, fs, columns)
      decreases fs, 0
    {
      var i := 0;
      assert fs[0..] == fs && columns[0..] == columns;
      while i < |fs|
        invariant 0 <= i <= |fs|
        invariant buf + SendRow(oids, fs[i..], columns[i..]) == old(buf) + SendRow(oids, fs, columns)
      {
        RowStep(oids, fs, columns, i, buf);
        SendFrame(oids, fs[i], columns[i]);
        i := i + 1;
      }
      assert buf + [] == buf;
    }

    method SendComposite(oids: OidMap, fs: seq<Ty>, columns: seq<Val>)
      requires RowHasType(fs, columns)
      modifies this
      ensures buf == old(buf) + (Encode(4, |fs|) + SendRow(oids, fs, columns))
      decreases fs, 1
    {
      WriteInt(4, |fs|);
      SendFields(oids, fs, columns);
    }
  }

  /** A step of the stream did what the specification says, and left what it leaves. */
  predicate Follows<T(==)>(spec: Result<Got<T>, RecvError>, r: Result<T, RecvError>, left: Bytes) {
    match spec
    case Ok(g) => r == Ok(g.value) && left == g.rest
    case Err(e) => r == Err(e)
  }

  /** The items already received, then what is still to come. */
  function Resumed(done: seq<Val>, r: Result<Got<seq<Val>>, RecvError>): Result<Got<seq<Val>>, RecvError> {
    match r
    case Ok(g) => Ok(Got(done + g.value, g.rest))
    case Err(e) => Err(e)
  }

  lemma ResumeNothing(r: Result<Got<seq<Val>>, RecvError>)
    ensures Resumed([], r) == r
  {
    assert r.Ok? ==> [] + r.value.value == r.value.value;
  }

  lemma ResumeItems(oids: OidMap, e: Ty, n: nat, done: seq<Val>, input: Bytes)
    requires n > 0
    ensures var frame := RecvDataFrame(oids, e, None, input);
            Resumed(done, RecvItems(oids, e, n, input)) ==
            match frame
            case Ok(g) => Resumed(done + [g.value], RecvItems(oids, e, n - 1, g.rest))
            case Err(x) => Err(x)
  {
    var frame := RecvDataFrame(oids, e, None, input);
    if frame.Ok? && RecvItems(oids, e, n - 1, frame.value.rest).Ok? {
      var others := RecvItems(oids, e, n - 1, frame.value.rest).value.value;
      assert done + ([frame.value.value] + others) == done + [frame.value.value] + others;
    }
  }

  lemma ResumeRow(oids: OidMap, fs: seq<Ty>, done: seq<Val>, input: Bytes)
    requires fs != []
    ensures var frame := RecvFrame(oids, fs[0], input);
            Resumed(done, RecvRow(oids, fs, input)) ==
            match frame
            case Ok(g) => Resumed(done + [g.value], RecvRow(oids, fs[1..], g.rest))
            case Err(x) => Err(x)
  {
    var frame := RecvFrame(oids, fs[0], input);
    if frame.Ok? && RecvRow(oids, fs[1..], frame.value.rest).Ok? {
      var others := RecvRow(oids, fs[1..], frame.value.rest).value.value;
      assert done + ([frame.value.value] + others) == done + [frame.value.value] + others;
    }
  }

  /** The three numbers of an interval, read one after the other. */
  lemma IntervalParts(input: Bytes)
    requires |input| >= 16
    ensures var i := IntervalOf(input[..16]);
            && i.microseconds == Decode(input[..8])
            && i.days == Decode(input[8..][..4]) && i.months == Decode(input[8..][4..][..4])
            && input[8..][4..][4..] == input[16..]
  {
    assert input[..16][..8] == input[..8];
    assert input[..16][8..12] == input[8..][..4];
    assert input[..16][12..] == input[8..][4..][..4];
  }

  class IStream {
    const data: Bytes
    var pos: nat
    var unexpectedEof: bool

    ghost predicate Valid()
      reads this
    {
      pos <= |data|
    }

    /** Nothing has failed for want of input: whoever reads on after that would fail again. */
    ghost predicate Good()
      reads this
    {
      Valid() && !unexpectedEof
    }

    /** The flag is raised exactly by a failure for want of input. */
    ghost predicate Settled<T>(r: Result<T, RecvError>)
      reads this
    {
      Valid() && (unexpectedEof <==> r == Err(UnexpectedEof))
    }

    ghost function Left(): Bytes
      requires Valid()
      reads this
    {
      data[pos..]
    }

    constructor (data: Bytes)
      ensures Good() && Left() == data && this.data == data
    {
      this.data := data;
      pos := 0;
      unexpectedEof := false;
    }

    method Read(n: nat) returns (r: Result<Bytes, RecvError>)
      requires Good()
      modifies this
      ensures Settled(r) && Follows(ReadBytes(n, old(Left())), r, Left())
    {
      var last := if pos + n <= |data| then pos + n else |data|;
      var got := data[pos..last];
      assert |got| == n ==> got == Left()[..n] && data[last..] == Left()[n..];
      pos := last;
      if |got| != n {
        unexpectedEof := true;
        return Err(UnexpectedEof);
      }
      return Ok(got);
    }

    /** The unsigned number in the next `w` bytes: loaded natively, then swapped. */
    method ReadUnsigned(w: nat) returns (r: Result<nat, RecvError>)
      requires Good()
      modifies this
      ensures Settled(r)
      ensures var bytes := ReadBytes(w, old(Left()));
              if bytes.Ok? then r == Ok(Value(bytes.value.value)) && Left() == bytes.value.rest
              else r == Err(bytes.error)
    {
      var raw :- Read(w);
      SwapReadsBigEndian(raw);
      return Ok(Swap(w, LittleValue(raw)));
    }

    method ReadSigned(w: nat) returns (r: Result<int, RecvError>)
      requires Good() && w > 0
      modifies this
      ensures Settled(r)
      ensures var bytes := ReadBytes(w, old(Left()));
              if bytes.Ok? then r == Ok(Decode(bytes.value.value)) && Left() == bytes.value.rest
              else r == Err(bytes.error)
    {
      var u :- ReadUnsigned(w);
      return Ok(if u < 128 * Base(w - 1) then u else u - Base(w));
    }

    method ReadScalar(k: Kind) returns (r: Result<Val, RecvError>)
      requires Good()
      modifies this
      ensures Settled(r)
      ensures var bytes := ReadBytes(Width(k), old(Left()));
              if bytes.Ok? then r == Ok(ScalarOf(k, bytes.value.value)) && Left() == bytes.value.rest
              else r == Err(bytes.error)
    {
      match k
      case Bool =>
        var raw :- Read(1);
        return Ok(Truth(raw[0] != 0));
      case Interval =>
        r := ReadInterval();
      case _ =>
        var n :- ReadSigned(Width(k));
        return Ok(Number(n));
    }

    method ReadInterval() returns (r: Result<Val, RecvError>)
      requires Good()
      modifies this
      ensures Settled(r)
      ensures var bytes := ReadBytes(16, old(Left()));
              if bytes.Ok? then r == Ok(ScalarOf(Interval, bytes.value.value)) && Left() == bytes.value.rest
              else r == Err(bytes.error)
    {
      ghost var input := Left();
      var microseconds :- ReadSigned(8);
      var days :- ReadSigned(4);
      var months :- ReadSigned(4);
      IntervalParts(input);
      return Ok(Span(Intervals.ToChrono(Intervals.PgInterval(microseconds, days, months))));
    }

    method Recv(oids: OidMap, t: Ty, oid: Option<Oid>, size: int) returns (r: Result<Val, RecvError>)
      requires Good()
      modifies this
      ensures Settled(r) && Follows(Codec.Recv(oids, t, oid, size, old(Left())), r, Left())
      decreases t, 1
    {
      if t.nullable && size == -1 {
        return Ok(Null);
      }
      if oid.Some? && oid.value != oids(t.shape) {
        return Err(OidTypeMismatch);
      }
      if size == -1 {
        return Err(UnexpectedNull);
      }
      r := RecvUnwrapped(oids, t.shape, size);
    }

    method RecvUnwrapped(oids: OidMap, s: Shape, size: int) returns (r: Result<Val, RecvError>)
      requires Good()
      modifies this
      ensures Settled(r) && Follows(RecvShape(oids, s, size, old(Left())), r, Left())
      decreases s, 0
    {
      match s
      case Scalar(k) =>
        if k != Interval && size != Width(k) {
          return Err(BadObjectSize);
        }
        r := ReadScalar(k);
      case Text =>
        if size < 0 {
          return Err(LengthError);
        }
        var bytes :- Read(size);
        return Ok(Chars(bytes));
      case ArrayOf(e) =>
        r := RecvArray(oids, e);
      case Composite(fs) =>
        var count :- ReadSigned(4);
        if count != |fs| {
          return Err(BadCompositeSize);
        }
        var row :- RecvFields(oids, fs);
        return Ok(Row(row));
    }

    method RecvArray(oids: OidMap, e: Ty) returns (r: Result<Val, RecvError>)
      requires Good()
      modifies this
      ensures Settled(r) && Follows(Codec.RecvArray(oids, e, old(Left())), r, Left())
      decreases e, 4
    {
      var dimensions :- ReadSigned(4);
      var offset :- ReadSigned(4);
      var elem :- ReadUnsigned(4);
      if dimensions > 1 {
        return Err(BadArrayDimension);
      }
      if elem != oids(e.shape) {
        return Err(OidTypeMismatch);
      }
      if dimensions < 1 {
        return Ok(List([]));
      }
      var count :- ReadSigned(4);
      var index :- ReadSigned(4);
      if count == 0 {
        return Ok(List([]));
      }
      if count < 0 {
        return Err(LengthError);
      }
      var items :- RecvAll(oids, e, count);
      return Ok(List(items));
    }

    method RecvDataFrame(oids: OidMap, t: Ty, oid: Option<Oid>) returns (r: Result<Val, RecvError>)
      requires Good()
      modifies this
      ensures Settled(r) && Follows(Codec.RecvDataFrame(oids, t, oid, old(Left())), r, Left())
      decreases t, 2
    {
      var size :- ReadSigned(4);
      r := Recv(oids, t, oid, size);
    }

    method RecvFrame(oids: OidMap, t: Ty) returns (r: Result<Val, RecvError>)
      requires Good()
      modifies this
      ensures Settled(r) && Follows(Codec.RecvFrame(oids, t, old(Left())), r, Left())
      decreases t, 3
    {
      var oid :- ReadUnsigned(4);
      r := RecvDataFrame(oids, t, Some(oid));
    }

    method RecvAll(oids: OidMap, e: Ty, n: nat) returns (r: Result<seq<Val>, RecvError>)
      requires Good()
      modifies this
      ensures Settled(r) && Follows(RecvItems(oids, e, n, old(Left())), r, Left())
      decreases e, 3
    {
      var items := [];
      var i := 0;
      ResumeNothing(RecvItems(oids, e, n, Left()));
      while i < n
        invariant Good() && 0 <= i <= n
        invariant Resumed(items, RecvItems(oids, e, n - i, Left())) == RecvItems(oids, e, n, old(Left()))
      {
        ResumeItems(oids, e, n - i, items, Left());
        var item :- RecvDataFrame(oids, e, None);
        items := items + [item];
        i := i + 1;
      }
      assert items + [] == items;
      return Ok(items);
    }

    method RecvFields(oids: OidMap, fs: seq<Ty>) returns (r: Result<seq<Val>, RecvError>)
      requires Good()
      modifies this
      ensures Settled(r) && Follows(RecvRow(oids, fs, old(Left())), r, Left())
      decreases fs
    {
      var columns := [];
      var i := 0;
      assert fs[0..] == fs;
      ResumeNothing(RecvRow(oids, fs, Left()));
      while i < |fs|
        invariant Good() && 0 <= i <= |fs|
        invariant Resumed(columns, RecvRow(oids, fs[i..], Left())) == RecvRow(oids, fs, old(Left()))
      {
        ResumeRow(oids, fs[i..], columns, Left());
        assert fs[i..][1..] == fs[i + 1..];
        var column :- RecvFrame(oids, fs[i]);
        columns := columns + [column];
        i := i + 1;
      }
      assert columns + [] == columns;
      return Ok(columns);
    }
  }
}
