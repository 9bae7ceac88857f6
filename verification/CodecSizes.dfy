/** When the lengths `size_of` announces are the lengths `send` writes. */
module CodecSizes {
  import opened Endian
  import opened Codec

  /** Every length announced anywhere in the encoding of `v`, its own included, is the real one. */
  predicate Truthful(oids: OidMap, t: Ty, v: Val)
    requires HasType(t, v)
    decreases t
  {
    v.Null? ||
    (&& SizeOf(t, v) == |Send(oids, t, v)|
     && match t.shape
        case ArrayOf(e) => forall i :: 0 <= i < |v.items| ==> Truthful(oids, e, v.items[i])
        case Composite(fs) => forall i :: 0 <= i < |fs| ==> Truthful(oids, fs[i], v.columns[i])
        case _ => true)
  }

  /** The arrays of `v` whose elements have a static size do not mix nulls with values. */
  predicate Uniform(t: Ty, v: Val)
    requires HasType(t, v)
    decreases t
  {
    match t.shape
    case ArrayOf(e) =>
      v.Null? ||
      (if StaticSize(e) then Unmixed(v.items)
       else forall i :: 0 <= i < |v.items| ==> Uniform(e, v.items[i]))
    case Composite(fs) => v.Null? || forall i :: 0 <= i < |fs| ==> Uniform(fs[i], v.columns[i])
    case _ => true
  }

  predicate Unmixed(items: seq<Val>) {
    || (forall i :: 0 <= i < |items| ==> items[i].Null?)
    || (forall i :: 0 <= i < |items| ==> !items[i].Null?)
  }

  function Values(items: seq<Val>): (r: nat)
    ensures r <= |items|
  {
    if items == [] then 0 else (if items[0].Null? then 0 else 1) + Values(items[1..])
  }

  lemma {:induction false} ValuesMeaning(items: seq<Val>)
    ensures Values(items) == 0 <==> forall i :: 0 <= i < |items| ==> items[i].Null?
    ensures Values(items) == |items| <==> forall i :: 0 <= i < |items| ==> !items[i].Null?
  {
    if items == [] {
    } else {
      ValuesMeaning(items[1..]);
      assert forall i :: 0 < i < |items| ==> items[i] == items[1..][i - 1];
      assert forall i :: 0 <= i < |items| - 1 ==> items[1..][i] == items[i + 1];
    }
  }

  lemma {:induction false} StaticItems(oids: OidMap, e: Ty, items: seq<Val>)
    requires StaticSize(e) && AllHaveType(e, items)
    ensures |SendItems(oids, e, items)| == 4 * |items| + Width(e.shape.kind) * Values(items)
  {
    if items == [] {
    } else {
      StaticItems(oids, e, items[1..]);
      var w := Width(e.shape.kind);
      assert |SendDataFrame(oids, e, items[0])| == 4 + if items[0].Null? then 0 else w;
      assert w * (1 + Values(items[1..])) == w + w * Values(items[1..]);
    }
  }

  /** The first element speaks for all: by how much it misleads. */
  lemma StaticArrayMisses(oids: OidMap, e: Ty, items: seq<Val>)
    requires StaticSize(e) && AllHaveType(e, items) && items != []
    ensures ArrayDataSize(e, items) - |SendItems(oids, e, items)|
         == Width(e.shape.kind) * ((if items[0].Null? then 0 else |items|) - Values(items))
  {
    StaticItems(oids, e, items);
    var w, n := Width(e.shape.kind), |items|;
    assert DataFrameSize(e, items[0]) == if items[0].Null? then 4 else 4 + w;
    Spread(w, n, Values(items));
  }

  lemma Spread(w: nat, n: nat, values: nat)
    ensures (4 + w) * n == 4 * n + w * n
    ensures w * (n - values) == w * n - w * values
    ensures w * (0 - values) == -(w * values)
  {
  }

  // ---------------------------------------------------------------------------------------
  // By how much an announced length is off, for any value.

  function StaticMiss(e: Ty, items: seq<Val>): int
    requires StaticSize(e)
  {
    if items == [] then 0
    else Width(e.shape.kind) * ((if items[0].Null? then 0 else |items|) - Values(items))
  }

  /** The sum of what the arrays of static-size elements in `v` are off by, each by the nulls it mixes in. */
  function Miss(t: Ty, v: Val): int
    requires HasType(t, v)
    decreases t, 0
  {
    if v.Null? then 0
    else
      match t.shape
      case ArrayOf(e) => if StaticSize(e) then StaticMiss(e, v.items) else ItemsMiss(e, v.items)
      case Composite(fs) => RowMiss(fs, v.columns)
      case _ => 0
  }

  function ItemsMiss(e: Ty, items: seq<Val>): int
    requires AllHaveType(e, items)
    decreases e, 1, |items|
  {
    if items == [] then 0 else Miss(e, items[0]) + ItemsMiss(e, items[1..])
  }

  function RowMiss(fs: seq<Ty>, columns: seq<Val>): int
    requires RowHasType(fs, columns)
    decreases fs
  {
    if fs == [] then 0 else Miss(fs[0], columns[0]) + RowMiss(fs[1..], columns[1..])
  }

  /** The announced length less the real one. */
  lemma {:induction false} SizeMisses(oids: OidMap, t: Ty, v: Val)
    requires HasType(t, v)
    ensures !v.Null? ==> SizeOf(t, v) - |Send(oids, t, v)| == Miss(t, v)
    ensures DataFrameSize(t, v) - |SendDataFrame(oids, t, v)| == Miss(t, v)
    decreases t, 0
  {
    if !v.Null? {
      match t.shape
      case ArrayOf(e) =>
        if !StaticSize(e) {
          ItemsMisses(oids, e, v.items);
        } else if v.items != [] {
          StaticArrayMisses(oids, e, v.items);
        }
      case Composite(fs) => RowMisses(oids, fs, v.columns);
      case _ =>
    }
  }

  lemma {:induction false} ItemsMisses(oids: OidMap, e: Ty, items: seq<Val>)
    requires AllHaveType(e, items)
    ensures SumOfFrames(e, items) - |SendItems(oids, e, items)| == ItemsMiss(e, items)
    decreases e, 1, |items|
  {
    if items == [] {
    } else {
      SizeMisses(oids, e, items[0]);
      ItemsMisses(oids, e, items[1..]);
    }
  }

  lemma {:induction false} RowMisses(oids: OidMap, fs: seq<Ty>, columns: seq<Val>)
    requires RowHasType(fs, columns)
    ensures RowDataSize(fs, columns) - |SendRow(oids, fs, columns)| == RowMiss(fs, columns)
    decreases fs
  {
    if fs == [] {
    } else {
      SizeMisses(oids, fs[0], columns[0]);
      RowMisses(oids, fs[1..], columns[1..]);
    }
  }

  // ---------------------------------------------------------------------------------------
  // When none is off.

  lemma ProductZero(w: nat, x: int)
    requires w > 0
    ensures w * x == 0 <==> x == 0
  {
  }

  /** The shortcut for element types of static size is exact if and only if nulls are not mixed with values. */
  lemma ShortcutExactlyWhen(oids: OidMap, e: Ty, items: seq<Val>)
    requires StaticSize(e) && AllHaveType(e, items)
    ensures ArrayDataSize(e, items) == |SendItems(oids, e, items)| <==> Unmixed(items)
  {
    if items != [] {
      StaticArrayMisses(oids, e, items);
      ProductZero(Width(e.shape.kind), (if items[0].Null? then 0 else |items|) - Values(items));
      ValuesMeaning(items);
    }
  }

  lemma FrameIsTruthful(oids: OidMap, t: Ty, v: Val)
    requires HasType(t, v) && Truthful(oids, t, v)
    ensures DataFrameSize(t, v) == |SendDataFrame(oids, t, v)|
    ensures 4 + DataFrameSize(t, v) == |SendFrame(oids, t, v)|
  {
  }

  lemma {:induction false} SumIsTruthful(oids: OidMap, e: Ty, items: seq<Val>)
    requires AllHaveType(e, items)
    requires forall i :: 0 <= i < |items| ==> Truthful(oids, e, items[i])
    ensures SumOfFrames(e, items) == |SendItems(oids, e, items)|
  {
    if items == [] {
    } else {
      FrameIsTruthful(oids, e, items[0]);
      SumIsTruthful(oids, e, items[1..]);
    }
  }

  lemma {:induction false} RowIsTruthful(oids: OidMap, fs: seq<Ty>, columns: seq<Val>)
    requires RowHasType(fs, columns)
    requires forall i :: 0 <= i < |fs| ==> Truthful(oids, fs[i], columns[i])
    ensures RowDataSize(fs, columns) == |SendRow(oids, fs, columns)|
  {
    if fs == [] {
    } else {
      FrameIsTruthful(oids, fs[0], columns[0]);
      RowIsTruthful(oids, fs[1..], columns[1..]);
    }
  }

  /** Every announced length is real if and only if no array of static-size elements mixes nulls with values. */
  lemma {:induction false} TruthfulExactlyWhen(oids: OidMap, t: Ty, v: Val)
    requires HasType(t, v)
    ensures Truthful(oids, t, v) <==> Uniform(t, v)
    decreases t
  {
    match t.shape
    case ArrayOf(e) =>
      if !v.Null? {
        forall i | 0 <= i < |v.items|
          ensures Truthful(oids, e, v.items[i]) <==> Uniform(e, v.items[i])
        {
          TruthfulExactlyWhen(oids, e, v.items[i]);
        }
        if StaticSize(e) {
          ShortcutExactlyWhen(oids, e, v.items);
        } else if Uniform(t, v) {
          SumIsTruthful(oids, e, v.items);
        }
      }
    case Composite(fs) =>
      if !v.Null? {
        forall i | 0 <= i < |fs|
          ensures Truthful(oids, fs[i], v.columns[i]) <==> Uniform(fs[i], v.columns[i])
        {
          TruthfulExactlyWhen(oids, fs[i], v.columns[i]);
        }
        if Uniform(t, v) {
          RowIsTruthful(oids, fs, v.columns);
        }
      }
    case _ =>
  }

  /** An array of two nullable integers, one of them null, is announced four bytes too long or too short. */
  lemma MixedArrayLies(oids: OidMap)
    ensures var t := Ty(false, ArrayOf(Ty(true, Scalar(Int32))));
            && HasType(t, List([Number(0), Null])) && HasType(t, List([Null, Number(0)]))
            && SizeOf(t, List([Number(0), Null])) == |Send(oids, t, List([Number(0), Null]))| + 4
            && SizeOf(t, List([Null, Number(0)])) == |Send(oids, t, List([Null, Number(0)]))| - 4
  {
    var e := Ty(true, Scalar(Int32));
    assert Fits(4, 0) by { assert Base(3) > 0; }
    assert HasType(e, Null) && HasType(e, Number(0));
    OneValue(Number(0));
    StaticArrayMisses(oids, e, [Number(0), Null]);
    StaticArrayMisses(oids, e, [Null, Number(0)]);
  }

  lemma OneValue(v: Val)
    requires !v.Null?
    ensures Values([v, Null]) == 1 && Values([Null, v]) == 1
  {
    assert [v, Null][1..] == [Null] && [Null, v][1..] == [v];
    assert [Null][1..] == [] && [v][1..] == [];
  }

  lemma UniformHits(oids: OidMap, t: Ty, v: Val)
    requires HasType(t, v) && Uniform(t, v)
    ensures Miss(t, v) == 0
  {
    TruthfulExactlyWhen(oids, t, v);
    SizeMisses(oids, t, v);
  }
}
