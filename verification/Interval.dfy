/** Conversion between 64-bit microseconds and the PostgreSQL `interval`, with its saturation. */
module Intervals {
  import opened TimeTraits

  const DAY := 86_400_000_000
  const TWO_64 := 0x1_0000_0000_0000_0000

  type Int32 = x: int | -0x8000_0000 <= x <= 0x7fff_ffff witness 0

  datatype PgInterval = PgInterval(microseconds: Ticks, days: Int32, months: Int32)

  /** Division and remainder round toward zero. */
  function Quot(a: int, b: int): int
    requires b > 0
  {
    if a >= 0 then a / b else -(-a / b)
  }

  function Rem(a: int, b: int): int
    requires b > 0
  {
    a - Quot(a, b) * b
  }

  /** What 64-bit two's complement arithmetic leaves of an exact value. */
  function Wrap(x: int): Ticks {
    (x + 0x8000_0000_0000_0000) % TWO_64 - 0x8000_0000_0000_0000
  }

  predicate Fits(x: int) {
    MIN_TICKS <= x <= MAX_TICKS
  }

  function FromChrono(x: Ticks): PgInterval {
    PgInterval(Rem(x, DAY), Quot(x, DAY), 0)
  }

  function DaysTotal(i: PgInterval): int {
    30 * i.months + i.days + Quot(i.microseconds, DAY)
  }

  function Surplus(i: PgInterval): int {
    Rem(i.microseconds, DAY)
  }

  function ToChrono(i: PgInterval): Ticks {
    var s := Surplus(i);
    var d := DaysTotal(i);
    if d < Quot(MIN_TICKS, DAY) - 1 || (d < 0 && Wrap(Wrap((d + 1) * DAY) + s) < Wrap(MIN_TICKS + DAY)) then MIN_TICKS
    else if Quot(MAX_TICKS, DAY) + 1 < d || (0 < d && Wrap(MAX_TICKS - DAY) < Wrap(Wrap((d - 1) * DAY) + s)) then
      MAX_TICKS
    else Wrap(Wrap(d * DAY) + s)
  }

  /** Every value `ToChrono` computes on its way fits 64 bits, so no `Wrap` in it changes anything. */
  predicate NoOverflow(i: PgInterval) {
    var s := Surplus(i);
    var d := DaysTotal(i);
    && Fits(30 * i.months) && Fits(30 * i.months + i.days) && Fits(d)
    && (d < Quot(MIN_TICKS, DAY) - 1 ||
         (&& (d < 0 ==> Fits((d + 1) * DAY) && Fits((d + 1) * DAY + s) && Fits(MIN_TICKS + DAY))
          && ((d < 0 && (d + 1) * DAY + s < MIN_TICKS + DAY) || Quot(MAX_TICKS, DAY) + 1 < d ||
               (&& (0 < d ==> Fits((d - 1) * DAY) && Fits((d - 1) * DAY + s) && Fits(MAX_TICKS - DAY))
                && ((0 < d && MAX_TICKS - DAY < (d - 1) * DAY + s) || (Fits(d * DAY) && Fits(d * DAY + s)))))))
  }

  /** The same computation on unbounded integers. */
  function ToChronoUnbounded(i: PgInterval): int {
    var s := Surplus(i);
    var d := DaysTotal(i);
    if d < Quot(MIN_TICKS, DAY) - 1 || (d < 0 && (d + 1) * DAY + s < MIN_TICKS + DAY) then MIN_TICKS
    else if Quot(MAX_TICKS, DAY) + 1 < d || (0 < d && MAX_TICKS - DAY < (d - 1) * DAY + s) then MAX_TICKS
    else d * DAY + s
  }

  /** The exact length of an interval, a month being thirty days. */
  function Exact(i: PgInterval): int {
    (30 * i.months + i.days) * DAY + i.microseconds
  }

  /** The day totals next to the ends of the 64-bit range, with a surplus that leads past the end. */
  predicate Delicate(i: PgInterval) {
    || (DaysTotal(i) == -106751992 && Surplus(i) < -14454775808)
    || (DaysTotal(i) == 106751992 && Surplus(i) > 14454775807)
  }

  // ---------------------------------------------------------------------------------------

  lemma Splits(i: PgInterval)
    ensures Exact(i) == DaysTotal(i) * DAY + Surplus(i)
    ensures -DAY < Surplus(i) < DAY
    ensures -106751991 <= Quot(i.microseconds, DAY) <= 106751991
  {
  }

  /** A duration is split into whole days and less than a day, both of its sign, and no months. */
  lemma FromChronoMeaning(x: Ticks)
    ensures var i := FromChrono(x);
            && i.months == 0 && i.days * 86_400_000_000 + i.microseconds == x
            && -86_400_000_000 < i.microseconds < 86_400_000_000
            && (x >= 0 ==> i.days >= 0 && i.microseconds >= 0) && (x <= 0 ==> i.days <= 0 && i.microseconds <= 0)
  {
    var q := Quot(x, DAY);
    assert q * DAY + Rem(x, DAY) == x;
  }

  lemma WrapFits(x: int)
    requires Fits(x)
    ensures Wrap(x) == x
  {
  }

  lemma WrapAbove(x: int)
    requires MAX_TICKS < x <= MAX_TICKS + TWO_64
    ensures Wrap(x) == x - TWO_64
  {
  }

  lemma WrapBelow(x: int)
    requires MIN_TICKS - TWO_64 <= x < MIN_TICKS
    ensures Wrap(x) == x + TWO_64
  {
  }

  lemma WrapSum(x: int, s: int)
    ensures Wrap(Wrap(x) + s) == Wrap(x + s)
  {
    var k := (x + 0x8000_0000_0000_0000) / TWO_64;
    assert Wrap(x) == x - k * TWO_64;
    assert (x + s + 0x8000_0000_0000_0000 - k * TWO_64) % TWO_64 == (x + s + 0x8000_0000_0000_0000) % TWO_64;
  }

  /** Away from the two delicate day totals nothing overflows on the way. */
  lemma InteriorNoOverflow(i: PgInterval)
    requires DaysTotal(i) != 106751992 && DaysTotal(i) != -106751992
    ensures NoOverflow(i)
  {
    Splits(i);
  }

  /** Where nothing overflows, 64-bit arithmetic and unbounded arithmetic agree. */
  lemma NoOverflowMeansUnbounded(i: PgInterval)
    requires NoOverflow(i)
    ensures ToChrono(i) == ToChronoUnbounded(i)
  {
    var s := Surplus(i);
    var d := DaysTotal(i);
    if d < 0 && d >= Quot(MIN_TICKS, DAY) - 1 {
      WrapFits((d + 1) * DAY);
      WrapFits((d + 1) * DAY + s);
    }
    if 0 < d && d <= Quot(MAX_TICKS, DAY) + 1 {
      WrapFits((d - 1) * DAY);
      WrapFits((d - 1) * DAY + s);
    }
    WrapFits(MIN_TICKS + DAY);
    WrapFits(MAX_TICKS - DAY);
    if Fits(d * DAY) && Fits(d * DAY + s) {
      WrapFits(d * DAY);
      WrapFits(d * DAY + s);
    }
  }

  lemma ExactMeansClamped(i: PgInterval)
    requires -106751991 <= DaysTotal(i) <= 106751991
    ensures ToChrono(i) == Clamp(Exact(i))
  {
    Splits(i);
    var s, d := Surplus(i), DaysTotal(i);
    WrapFits(d * DAY);
    if d < 0 {
      WrapFits((d + 1) * DAY);
      WrapFits((d + 1) * DAY + s);
    } else if d > 0 {
      WrapFits((d - 1) * DAY);
      WrapFits((d - 1) * DAY + s);
    }
    if Fits(d * DAY + s) {
      WrapFits(d * DAY + s);
    }
  }

  lemma LowEdge(i: PgInterval)
    requires DaysTotal(i) == -106751992
    ensures ToChrono(i) == Clamp(Exact(i)) <==> !Delicate(i)
  {
    Splits(i);
    var s, d := Surplus(i), DaysTotal(i);
    WrapFits((d + 1) * DAY);
    WrapSum(d * DAY, s);
    if s < -14454775808 {
      WrapBelow((d + 1) * DAY + s);
      WrapBelow(d * DAY + s);
    } else {
      WrapFits((d + 1) * DAY + s);
      if Fits(d * DAY + s) {
        WrapFits(d * DAY + s);
      }
    }
  }

  lemma HighEdge(i: PgInterval)
    requires DaysTotal(i) == 106751992
    ensures ToChrono(i) == Clamp(Exact(i)) <==> !Delicate(i)
  {
    Splits(i);
    var s, d := Surplus(i), DaysTotal(i);
    WrapFits((d - 1) * DAY);
    WrapSum(d * DAY, s);
    if s > 14454775807 {
      WrapAbove((d - 1) * DAY + s);
      WrapAbove(d * DAY + s);
    } else {
      WrapFits((d - 1) * DAY + s);
      if Fits(d * DAY + s) {
        WrapFits(d * DAY + s);
      }
    }
  }

  /** The conversion saturates as promised, for every interval but the delicate ones, and for none of those. */
  lemma SaturatesExactlyWhen(i: PgInterval)
    ensures ToChrono(i) == Clamp(Exact(i)) <==> !Delicate(i)
  {
    Splits(i);
    var d := DaysTotal(i);
    if d == -106751992 {
      LowEdge(i);
    } else if d == 106751992 {
      HighEdge(i);
    } else if -106751991 <= d <= 106751991 {
      ExactMeansClamped(i);
    }
  }

  /** An interval the promise fails for: it is longer than any 64-bit count and comes out negative. */
  lemma DelicateHappens()
    ensures var i := PgInterval(14454775808, 106751992, 0);
            Delicate(i) && Clamp(Exact(i)) == MAX_TICKS && ToChrono(i) < 0
  {
    var i := PgInterval(14454775808, 106751992, 0);
    WrapFits(106751991 * DAY);
    WrapAbove(106751991 * DAY + 14454775808);
    WrapSum(106751992 * DAY, 14454775808);
    WrapAbove(106751992 * DAY + 14454775808);
  }

  /** Converting there and back loses nothing, over the whole 64-bit range. */
  lemma RoundTrip(x: Ticks)
    ensures Exact(FromChrono(x)) == x
    ensures ToChrono(FromChrono(x)) == x
  {
    var i := FromChrono(x);
    assert Quot(i.microseconds, DAY) == 0;
    SaturatesExactlyWhen(i);
  }
}
