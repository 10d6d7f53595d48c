/** Shared vocabulary: optional values, positive prices and step rounding. */
module Common {
  datatype Option<+T> = None | Some(value: T)

  datatype Side = Long | Short

  type Price = r: real | r > 0.0 witness 1.0

  /** The sign by which a price difference is multiplied to become a gain of the side. */
  function Dir(side: Side): (d: real) {
    if side.Long? then 1.0 else -1.0
  }

  /** What the side gains when the price moves from `a` to `b`. */
  function Gain(side: Side, a: real, b: real): real {
    if side.Long? then b - a else a - b
  }

  /** `a` is strictly less favourable than `b`. */
  predicate Behind(side: Side, a: real, b: real) {
    if side.Long? then a < b else a > b
  }

  /** The price `distance` behind `a`. */
  function StepBehind(side: Side, a: real, distance: real): real {
    if side.Long? then a - distance else a + distance
  }

  /** `a` is at least as favourable to the side as `b`; for a protective level: at least as tight. */
  predicate Favours(side: Side, a: real, b: real) {
    if side.Long? then a >= b else a <= b
  }

  function Max(a: int, b: int): int {
    if a >= b then a else b
  }

  function Min(a: int, b: int): int {
    if a <= b then a else b
  }

  function MaxR(a: real, b: real): real {
    if a >= b then a else b
  }

  function MinR(a: real, b: real): real {
    if a <= b then a else b
  }

  function Pow2(n: nat): (r: int)
    ensures r >= 1
  {
    if n == 0 then 1 else 2 * Pow2(n - 1)
  }

  /** The more favourable of two prices, or the tighter of two levels. */
  function Join(side: Side, a: real, b: real): real {
    if side.Long? then MaxR(a, b) else MinR(a, b)
  }

  function JoinOpt(side: Side, a: Option<real>, b: Option<real>): Option<real> {
    match (a, b)
    case (None, _) => b
    case (_, None) => a
    case (Some(x), Some(y)) => Some(Join(side, x, y))
  }

  /** An absent level is weaker than any level. */
  predicate FavoursOpt(side: Side, a: Option<real>, b: Option<real>) {
    b.None? || (a.Some? && Favours(side, a.value, b.value))
  }

  /** The number of whole steps in `v`, rounded down. */
  function FloorUnits(v: real, step: Price): int {
    (v / step).Floor
  }

  /** The number of whole steps in `v`, rounded up. */
  function CeilUnits(v: real, step: Price): int {
    var q := v / step;
    q.Floor + if q == q.Floor as real then 0 else 1
  }

  function RoundStep(v: real, step: Price, up: bool): real {
    (if up then CeilUnits(v, step) else FloorUnits(v, step)) as real * step
  }

  lemma MulOrder(a: real, b: real, c: real)
    requires c > 0.0
    ensures a <= b <==> a * c <= b * c
    ensures a < b <==> a * c < b * c
  {
    if a <= b {
      assert (b - a) * c >= 0.0;
    } else {
      assert (a - b) * c > 0.0;
    }
  }

  lemma QuotientOrder(v: real, step: Price, k: real)
    ensures k <= v / step <==> k * step <= v
    ensures v / step <= k <==> v <= k * step
  {
    var q := v / step;
    assert q * step == v;
    MulOrder(k, q, step);
    MulOrder(q, k, step);
  }

  lemma FloorUnitsBounds(v: real, step: Price)
    ensures FloorUnits(v, step) as real * step <= v < (FloorUnits(v, step) + 1) as real * step
  {
    var u := FloorUnits(v, step);
    QuotientOrder(v, step, u as real);
    QuotientOrder(v, step, (u + 1) as real);
  }

  lemma CeilUnitsBounds(v: real, step: Price)
    ensures (CeilUnits(v, step) - 1) as real * step < v <= CeilUnits(v, step) as real * step
  {
    var u := CeilUnits(v, step);
    QuotientOrder(v, step, u as real);
    QuotientOrder(v, step, (u - 1) as real);
  }

  /** Rounding down and up differ by one step, or not at all on the grid. */
  lemma UnitsAdjoin(v: real, step: Price)
    ensures CeilUnits(v, step) == FloorUnits(v, step) + if FloorUnits(v, step) as real * step == v then 0 else 1
  {
    QuotientOrder(v, step, FloorUnits(v, step) as real);
  }

  /** Given only its bounds, a rounded-up count of steps is the least whole count that covers the value. */
  lemma LeastCover(v: real, step: Price, c: int, k: int)
    requires (c - 1) as real * step < v <= c as real * step
    ensures k as real * step >= v <==> k >= c
  {
    if k >= c { GridOrder(c as real * step, c, k as real * step, k, step); }
    else { GridOrder(k as real * step, k, (c - 1) as real * step, c - 1, step); }
  }

  /** Given only its bounds, a rounded-down count of steps is the greatest whole count within the value. */
  lemma GreatestWithin(v: real, step: Price, f: int, k: int)
    requires f as real * step <= v < (f + 1) as real * step
    ensures k as real * step <= v <==> k <= f
  {
    if k <= f { GridOrder(k as real * step, k, f as real * step, f, step); }
    else { GridOrder((f + 1) as real * step, f + 1, k as real * step, k, step); }
  }

  /** Rounding up is the least grid point at or above the value, rounding down the greatest at or below. */
  lemma UnitsAreExtreme(v: real, step: Price, k: int)
    ensures k as real * step >= v <==> k >= CeilUnits(v, step)
    ensures k as real * step <= v <==> k <= FloorUnits(v, step)
  {
    hide CeilUnits, FloorUnits;
    CeilUnitsBounds(v, step);
    FloorUnitsBounds(v, step);
    LeastCover(v, step, CeilUnits(v, step), k);
    GreatestWithin(v, step, FloorUnits(v, step), k);
  }

  lemma UnitsMonotone(v: real, w: real, step: Price)
    requires v <= w
    ensures FloorUnits(v, step) <= FloorUnits(w, step)
    ensures CeilUnits(v, step) <= CeilUnits(w, step)
  {
    UnitsAreExtreme(w, step, FloorUnits(v, step));
    FloorUnitsBounds(v, step);
    UnitsAreExtreme(v, step, CeilUnits(w, step));
    CeilUnitsBounds(w, step);
  }

  lemma UnitsOnGrid(k: int, step: Price)
    ensures FloorUnits(k as real * step, step) == k == CeilUnits(k as real * step, step)
  {
    UnitsAreExtreme(k as real * step, step, k);
    UnitsAreExtreme(k as real * step, step, k + 1);
    UnitsAreExtreme(k as real * step, step, k - 1);
    MulOrder(k as real, (k + 1) as real, step);
    MulOrder((k - 1) as real, k as real, step);
  }

  lemma GridValue(x: real, k: int, step: Price)
    requires x == k as real * step
    ensures RoundStep(x, step, false) == x
  {
    UnitsOnGrid(k, step);
  }

  lemma GridOrder(x: real, k: int, y: real, m: int, step: Price)
    requires x == k as real * step && y == m as real * step && k <= m
    ensures x <= y
  {
    MulOrder(k as real, m as real, step);
  }
}
