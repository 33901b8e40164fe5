/** Quadrature decoding (`andino::Encoder`). */
module QuadratureEncoder {

  /** A reading of the two channels: `(b << 1) | a`. */
  type Reading = r: int | 0 <= r < 4

  /** `kTicksDelta`, indexed by the previous and the current reading. */
  const TICKS_DELTA: seq<int> := [0, 1, -1, 0, -1, 0, 0, 1, 1, 0, 0, -1, 0, -1, 1, 0]

  function Delta(before: Reading, now: Reading): int { TICKS_DELTA[before * 4 + now] }

  // ----- the Gray cycle ------------------------------------------------------

  /** Where a reading stands in the cycle 00, 01, 11, 10. */
  function GrayIndex(r: Reading): int { if r == 0 then 0 else if r == 1 then 1 else if r == 3 then 2 else 3 }

  /** The reading at a position of the shaft. */
  function GrayAt(position: int): Reading { [0, 1, 3, 2][position % 4] }

  /** Both channels changed at once: a state was missed. */
  predicate Skipped(before: Reading, now: Reading) { (GrayIndex(now) - GrayIndex(before)) % 4 == 2 }

  /** One step of the table: exact for the same or an adjacent state, zero for
      a missed one. */
  lemma DeltaIsGrayStep(before: Reading, now: Reading)
    ensures Skipped(before, now) ==> Delta(before, now) == 0
    ensures !Skipped(before, now) ==>
      -1 <= Delta(before, now) <= 1 && (Delta(before, now) - (GrayIndex(now) - GrayIndex(before))) % 4 == 0
  {
  }

  lemma GrayIndexOfPosition(q: int)
    ensures GrayIndex(GrayAt(q)) == q % 4
  {
  }

  // ----- runs of readings --------------------------------------------------------

  /** The count after a run of readings that starts from `start`. */
  function CountAfter(start: Reading, readings: seq<Reading>): int {
    if readings == [] then 0
    else
      var n := |readings| - 1;
      CountAfter(start, readings[..n]) + Delta(Last(start, readings[..n]), readings[n])
  }

  function Last(start: Reading, readings: seq<Reading>): Reading {
    if readings == [] then start else readings[|readings| - 1]
  }

  function SkipsIn(start: Reading, readings: seq<Reading>): nat {
    if readings == [] then 0
    else
      var n := |readings| - 1;
      SkipsIn(start, readings[..n]) + (if Skipped(Last(start, readings[..n]), readings[n]) then 1 else 0)
  }

  /** Over any run, misses included: modulo the cycle, the count and two ticks
      for every missed state add up to the way from the first to the last reading. */
  lemma {:induction false} CountModuloCycle(start: Reading, readings: seq<Reading>)
    ensures (CountAfter(start, readings) + 2 * SkipsIn(start, readings)
             - (GrayIndex(Last(start, readings)) - GrayIndex(start))) % 4 == 0
  {
    if readings != [] {
      var n := |readings| - 1;
      CountModuloCycle(start, readings[..n]);
      var before, now := Last(start, readings[..n]), readings[n];
      StepModuloCycle(before, now);
      hide Delta, GrayIndex, Skipped;
      MultiplesAdd(CountAfter(start, readings[..n]) + 2 * SkipsIn(start, readings[..n])
                   - (GrayIndex(before) - GrayIndex(start)),
                   Delta(before, now) + (if Skipped(before, now) then 2 else 0) - (GrayIndex(now) - GrayIndex(before)));
    }
  }

  lemma StepModuloCycle(before: Reading, now: Reading)
    ensures var skip := if Skipped(before, now) then 2 else 0;
      (Delta(before, now) + skip - (GrayIndex(now) - GrayIndex(before))) % 4 == 0
  {
  }

  lemma MultiplesAdd(a: int, b: int)
    requires a % 4 == 0 && b % 4 == 0
    ensures (a + b) % 4 == 0
  {
  }

  /** The shaft never moves more than one state between readings. */
  predicate Slow(q: seq<int>) { forall k :: 0 <= k < |q| - 1 ==> -1 <= q[k + 1] - q[k] <= 1 }

  function ReadingsOf(q: seq<int>): (r: seq<Reading>)
    requires q != []
    ensures |r| == |q| - 1 && forall k :: 0 <= k < |r| ==> r[k] == GrayAt(q[k + 1])
  {
    seq(|q| - 1, k requires 0 <= k < |q| - 1 => GrayAt(q[k + 1]))
  }

  /** If no state is missed, the count is exactly how far the shaft has turned. */
  lemma {:induction false} CountIsDisplacement(q: seq<int>)
    requires q != [] && Slow(q)
    ensures CountAfter(GrayAt(q[0]), ReadingsOf(q)) == q[|q| - 1] - q[0]
  {
    if |q| > 1 {
      var n := |q| - 1;
      CountIsDisplacement(q[..n]);
      assert ReadingsOf(q)[..n - 1] == ReadingsOf(q[..n]);
      assert Last(GrayAt(q[0]), ReadingsOf(q)[..n - 1]) == GrayAt(q[n - 1]);
      assert -1 <= q[n - 1 + 1] - q[n - 1] <= 1;
      OneSlowStep(q[n - 1], q[n]);
    }
  }

  lemma OneSlowStep(p: int, q: int)
    requires -1 <= q - p <= 1
    ensures Delta(GrayAt(p), GrayAt(q)) == q - p
  {
    GrayIndexOfPosition(p);
    GrayIndexOfPosition(q);
    DeltaIsGrayStep(GrayAt(p), GrayAt(q));
    hide Delta, GrayAt, GrayIndex;
    var d := q - p;
    StepMod(p, d);
    assert q == p + d;
  }

  /** A step of at most one changes the remainder by it, around the cycle. */
  lemma StepMod(p: int, d: int)
    requires -1 <= d <= 1
    ensures (p + d) % 4 - p % 4 == d || (p + d) % 4 - p % 4 == d - 4 || (p + d) % 4 - p % 4 == d + 4
  {
  }

  /** Shifting a reading into the byte keeps the last two readings apart. */
  lemma ShiftedIn(state: int, r: int)
    requires 0 <= state < 256 && 0 <= r < 4
    ensures 0 <= state * 4 % 256 + r < 256
    ensures (state * 4 % 256 + r) % 4 == r
    ensures (state * 4 % 256 + r) % 16 == (state % 4) * 4 + r
  {
    var q, low := state / 64, state % 64;
    FourTimes(q, low);
    FourBits(low, r);
  }

  lemma FourTimes(q: int, low: int)
    requires 0 <= low < 64
    ensures (q * 64 + low) * 4 % 256 == low * 4
    ensures (q * 64 + low) % 4 == low % 4
  {
    Mod256(q, low * 4);
    Mod4(q * 16 + low / 4, low % 4);
    assert (q * 64 + low) * 4 == q * 256 + low * 4;
    assert q * 64 + low == (q * 16 + low / 4) * 4 + low % 4;
  }

  lemma Mod256(q: int, r: int)
    requires 0 <= r < 256
    ensures (q * 256 + r) % 256 == r
  {
  }

  lemma Mod4(q: int, r: int)
    requires 0 <= r < 4
    ensures (q * 4 + r) % 4 == r
  {
  }

  lemma FourBits(low: int, r: int)
    requires 0 <= low < 64 && 0 <= r < 4
    ensures (low * 4 + r) % 4 == r && (low * 4 + r) % 16 == (low % 4) * 4 + r && low * 4 + r < 256
  {
    var h := low / 4;
    assert low * 4 + r == h * 16 + ((low % 4) * 4 + r);
  }

  // ----- the class ------------------------------------------------------------------

  class Encoder {
    /** Previous and current readings, in the low bits of a byte. */
    var state: int
    var count: int

    constructor ()
      ensures Valid() && Current() == 0 && count == 0
    {
      state, count := 0, 0;
    }

    predicate Valid()
      reads this
    {
      0 <= state < 256
    }

    function Current(): Reading
      reads this
    {
      state % 4
    }

    /** `read`. */
    function Read(): int
      reads this
    {
      count
    }

    /** `reset`: only the count; the channels keep their last reading. */
    method Reset()
      modifies this`count
      ensures count == 0
    {
      count := 0;
    }

    /** `callback`: shift in the new reading and look up the step. */
    method Callback(a: int, b: int)
      requires Valid() && 0 <= a <= 1 && 0 <= b <= 1
      modifies this
      ensures Valid() && Current() == 2 * b + a
      ensures count == old(count) + Delta(old(Current()), 2 * b + a)
    {
      ShiftedIn(state, 2 * b + a);
      state := state * 4 % 256;
      state := state + 2 * b + a;
      count := count + TICKS_DELTA[state % 16];
    }
  }
}
