/**
 * The settings page (options.js): the range checks made before saving, and the adjustment of a
 * delay field to its bounds and step as the user types.
 */
module Options {
  import opened Wrappers

  /** The result of `parseInt(text, 10)`; `None` stands for NaN. */
  type Parsed = Option<int>

  const HOVER_MIN: int := 0
  const HOVER_MAX: int := 2000
  const COLLAPSE_MIN: int := 0
  const COLLAPSE_MAX: int := 3000
  const STEP: int := 50

  const HOVER_RANGE_ERROR: string := "Hover delay must be between 0-2000 milliseconds"
  const COLLAPSE_RANGE_ERROR: string := "Collapse delay must be between 0-3000 milliseconds"

  datatype Settings = Settings(enabled: bool, hoverDelay: Parsed, collapseDelay: Parsed, debug: bool)

  datatype SaveOutcome = Stored(settings: Settings) | Rejected(message: string)

  /** JavaScript's `p < k` on a parseInt result: false whenever `p` is NaN. */
  predicate LessThan(p: Parsed, k: int)
  {
    p.Some? && p.value < k
  }

  /** JavaScript's `p > k` on a parseInt result: false whenever `p` is NaN. */
  predicate GreaterThan(p: Parsed, k: int)
  {
    p.Some? && p.value > k
  }

  /** A parsed delay that is a number inside [lo, hi], or NaN, which no comparison rejects. */
  predicate Admitted(p: Parsed, lo: int, hi: int)
  {
    p.None? || lo <= p.value <= hi
  }

  /**
   * saveSettings(): checks the hover delay, then the collapse delay, and stores the record only
   * when neither check rejects it; the first failing check names the message shown.
   */
  function SaveSettings(form: Settings): (r: SaveOutcome)
    ensures r.Stored? <==>
      Admitted(form.hoverDelay, HOVER_MIN, HOVER_MAX) && Admitted(form.collapseDelay, COLLAPSE_MIN, COLLAPSE_MAX)
    ensures r.Stored? ==> r.settings == form
    ensures !Admitted(form.hoverDelay, HOVER_MIN, HOVER_MAX) ==> r == Rejected(HOVER_RANGE_ERROR)
    ensures Admitted(form.hoverDelay, HOVER_MIN, HOVER_MAX) && !Admitted(form.collapseDelay, COLLAPSE_MIN, COLLAPSE_MAX)
      ==> r == Rejected(COLLAPSE_RANGE_ERROR)
  {
    if LessThan(form.hoverDelay, 0) || GreaterThan(form.hoverDelay, 2000) then
      Rejected(HOVER_RANGE_ERROR)
    else if LessThan(form.collapseDelay, 0) || GreaterThan(form.collapseDelay, 3000) then
      Rejected(COLLAPSE_RANGE_ERROR)
    else
      Stored(form)
  }

  /** A delay field that does not parse is stored as it is: NaN passes both range checks. */
  lemma UnparsedDelaysAreStored(enabled: bool, debug: bool)
    ensures SaveSettings(Settings(enabled, None, None, debug)) == Stored(Settings(enabled, None, None, debug))
  {
  }

  // ---------------------------------------------------------------- adjustInputValue

  /** Clamp low first, then high, as the handler does. */
  function Clamp(v: int, min: int, max: int): int
  {
    var low := if v < min then min else v;
    if low > max then max else low
  }

  /**
   * `Math.round(v / step) * step` for an integer `v`: Math.round takes the floor of x + 1/2, and the
   * floor of (2v + step) / (2 step) is exactly that for a positive step.
   */
  function RoundToStep(v: int, step: int): int
    requires step > 0
  {
    ((2 * v + step) / (2 * step)) * step
  }

  function Adjusted(v: int, min: int, max: int, step: int): int
    requires step > 0
  {
    RoundToStep(Clamp(v, min, max), step)
  }

  /**
   * The `input` handler of adjustInputValue: an input that does not parse is left untouched
   * (`None`); otherwise the value written back into the field.
   */
  method AdjustInputValue(input: Parsed, min: int, max: int, step: int) returns (written: Parsed)
    requires step > 0
    ensures written.None? <==> input.None?
    ensures input.Some? ==> written == Some(Adjusted(input.value, min, max, step))
    ensures input.Some? && min <= max && min % step == 0 && max % step == 0 ==>
      min <= written.value <= max && written.value % step == 0
  {
    if input.None? {
      return None;
    }
    var value := input.value;
    if value < min {
      value := min;
    }
    if value > max {
      value := max;
    }
    value := RoundToStep(value, step);
    if min <= max && min % step == 0 && max % step == 0 {
      AdjustedInBounds(input.value, min, max, step);
    }
    return Some(value);
  }

  /** RoundToStep gives the nearest multiple of `step`; a value halfway between rounds up. */
  lemma RoundToStepNearest(v: int, step: int)
    requires step > 0
    ensures RoundToStep(v, step) % step == 0
    ensures 2 * (v - RoundToStep(v, step)) < step
    ensures 2 * (RoundToStep(v, step) - v) <= step
  {
    var q := (2 * v + step) / (2 * step);
    var m := (2 * v + step) % (2 * step);
    assert 2 * v + step == (2 * step) * q + m && 0 <= m < 2 * step;
    assert q * step == RoundToStep(v, step);
    assert 2 * (q * step) == (2 * step) * q;
    MultipleMod(q, step);
  }

  /** The quotient of `d * q + r` by `d` is `q` when `0 <= r < d`. */
  lemma DivideExactly(q: int, r: int, d: int)
    requires 0 <= r < d
    ensures (d * q + r) / d == q
    ensures (d * q + r) % d == r
  {
    var n := d * q + r;
    var q', r' := n / d, n % d;
    assert d * q' + r' == d * q + r && 0 <= r' < d;
    assert d * (q - q') == r' - r;
    ProductBounded(q - q', d);
  }

  /** A multiple of `d` strictly between `-d` and `d` is zero. */
  lemma ProductBounded(k: int, d: int)
    requires d > 0 && -d < d * k < d
    ensures k == 0
  {
    if k > 0 {
      AtLeastOnce(k, d);
    }
  }

  lemma {:induction false} AtLeastOnce(k: nat, d: int)
    requires k >= 1 && d > 0
    ensures d * k >= d
    decreases k
  {
    if k > 1 {
      AtLeastOnce(k - 1, d);
      assert d * k == d * (k - 1) + d;
    }
  }

  lemma MultipleMod(q: int, step: int)
    requires step > 0
    ensures (q * step) % step == 0
  {
    assert q * step == step * q + 0;
    DivideExactly(q, 0, step);
  }

  /** A multiple of the step is its own rounding. */
  lemma RoundToStepFixesMultiples(v: int, step: int)
    requires step > 0 && v % step == 0
    ensures RoundToStep(v, step) == v
  {
    var k := v / step;
    assert v == step * k;
    assert 2 * v + step == (2 * step) * k + step;
    DivideExactly(k, step, 2 * step);
    assert RoundToStep(v, step) == k * step;
  }

  /** Two different multiples of `step` are at least `step` apart. */
  lemma MultiplesApart(a: int, b: int, step: int)
    requires step > 0 && a % step == 0 && b % step == 0 && a < b
    ensures b - a >= step
  {
    var qa, qb := a / step, b / step;
    assert a == step * qa && b == step * qb;
    assert b - a == step * (qb - qa);
    if b - a < step {
      ProductBounded(qb - qa, step);
    }
  }

  /** With bounds on the step, the adjusted value is a multiple of the step inside the bounds. */
  lemma AdjustedInBounds(v: int, min: int, max: int, step: int)
    requires step > 0 && min <= max && min % step == 0 && max % step == 0
    ensures min <= Adjusted(v, min, max, step) <= max
    ensures Adjusted(v, min, max, step) % step == 0
  {
    var c := Clamp(v, min, max);
    var r := RoundToStep(c, step);
    RoundToStepNearest(c, step);
    if r < min {
      MultiplesApart(r, min, step);
    }
    if r > max {
      MultiplesApart(max, r, step);
    }
  }

  /** Adjusting an adjusted value leaves it unchanged. */
  lemma AdjustedIdempotent(v: int, min: int, max: int, step: int)
    requires step > 0 && min <= max && min % step == 0 && max % step == 0
    ensures Adjusted(Adjusted(v, min, max, step), min, max, step) == Adjusted(v, min, max, step)
  {
    var a := Adjusted(v, min, max, step);
    AdjustedInBounds(v, min, max, step);
    assert Clamp(a, min, max) == a;
    RoundToStepFixesMultiples(a, step);
  }

  /** setupValidation(): both delay fields end up on the 50 ms grid inside their bounds, stably. */
  lemma ConfiguredFieldsStayOnGrid(v: int)
    ensures HOVER_MIN <= Adjusted(v, HOVER_MIN, HOVER_MAX, STEP) <= HOVER_MAX
    ensures Adjusted(v, HOVER_MIN, HOVER_MAX, STEP) % STEP == 0
    ensures Adjusted(Adjusted(v, HOVER_MIN, HOVER_MAX, STEP), HOVER_MIN, HOVER_MAX, STEP)
         == Adjusted(v, HOVER_MIN, HOVER_MAX, STEP)
    ensures COLLAPSE_MIN <= Adjusted(v, COLLAPSE_MIN, COLLAPSE_MAX, STEP) <= COLLAPSE_MAX
    ensures Adjusted(v, COLLAPSE_MIN, COLLAPSE_MAX, STEP) % STEP == 0
    ensures Adjusted(Adjusted(v, COLLAPSE_MIN, COLLAPSE_MAX, STEP), COLLAPSE_MIN, COLLAPSE_MAX, STEP)
         == Adjusted(v, COLLAPSE_MIN, COLLAPSE_MAX, STEP)
  {
    AdjustedInBounds(v, HOVER_MIN, HOVER_MAX, STEP);
    AdjustedIdempotent(v, HOVER_MIN, HOVER_MAX, STEP);
    AdjustedInBounds(v, COLLAPSE_MIN, COLLAPSE_MAX, STEP);
    AdjustedIdempotent(v, COLLAPSE_MIN, COLLAPSE_MAX, STEP);
  }

  /** Halves round up: 1025 becomes 1050 and 1024 becomes 1000 on the 50 ms grid. */
  lemma HalvesRoundUp()
    ensures Adjusted(1025, HOVER_MIN, HOVER_MAX, STEP) == 1050
    ensures Adjusted(1024, HOVER_MIN, HOVER_MAX, STEP) == 1000
    ensures Adjusted(-7, HOVER_MIN, HOVER_MAX, STEP) == 0
    ensures Adjusted(2990, HOVER_MIN, HOVER_MAX, STEP) == 2000
  {
  }
}
