/** Clock arithmetic of the resource pool: 64-bit ticks and the saturating `add`. */
module TimeTraits {

  const MIN_TICKS := -0x8000_0000_0000_0000
  const MAX_TICKS := 0x7fff_ffff_ffff_ffff

  /** A `time_point` or a `duration`: a signed 64-bit tick count. */
  type Ticks = x: int | MIN_TICKS <= x <= MAX_TICKS witness 0

  function Clamp(x: int): Ticks {
    if x < MIN_TICKS then MIN_TICKS else if x > MAX_TICKS then MAX_TICKS else x
  }

  /** Saturating addition. Every intermediate is typed `Ticks`, so none of them leaves 64 bits. */
  function Add(t: Ticks, d: Ticks): (r: Ticks)
    ensures r == Clamp(t + d)
  {
    if t >= 0 then
      var room: Ticks := MAX_TICKS - t;
      if room < d then MAX_TICKS else t + d
    else
      var room: Ticks := t - MIN_TICKS;
      var floor: Ticks := -room;
      if floor > d then MIN_TICKS else t + d
  }

  function Earlier(a: Ticks, b: Ticks): Ticks {
    if a <= b then a else b
  }
}
