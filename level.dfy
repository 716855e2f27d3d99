/**
 * The pure part of the control loop: the RMS reduction of a window, the
 * conversion of RMS to a decibel level, the mapping of a level to a
 * percentage between the two calibrated thresholds, and the text of the
 * control state that is logged.
 *
 * Arithmetic is over `real`. The square root and the base-10 logarithm are
 * not defined here: every member that needs them takes them as a parameter,
 * so nothing below depends on what they compute except where a lemma says so
 * in its `requires`.
 */
module Level {

  /** `rms_to_db` treats an RMS at or below this value as silence. */
  const SILENCE_FLOOR: real := 0.000000000001

  /** The level `rms_to_db` reports for silence instead of taking log10(0). */
  const SENTINEL_DB: real := -999.0

  /** Offsets of the soft and cut thresholds above the ambient level. */
  const SOFT_OFFSET_DB: real := 15.0
  const CUT_OFFSET_DB: real := 45.0

  // ---------------------------------------------------------------------
  // Window reduction
  // ---------------------------------------------------------------------

  /** The sum of the squared samples of a window. */
  function SumSquares(samples: seq<real>): (r: real)
    ensures r >= 0.0
  {
    if samples == [] then 0.0
    else samples[0] * samples[0] + SumSquares(samples[1..])
  }

  /** The mean of the squared samples of a non-empty buffer. */
  function MeanSquare(samples: seq<real>): (r: real)
    requires |samples| > 0
    ensures r >= 0.0
  {
    SumSquares(samples) / |samples| as real
  }

  /**
   * The RMS of a processed window: zero for an empty window, otherwise the
   * square root of the mean square.
   */
  function WindowRms(samples: seq<real>, sqrt: real -> real): (r: real)
    ensures samples == [] ==> r == 0.0
    ensures (forall x :: x >= 0.0 ==> sqrt(x) >= 0.0) ==> r >= 0.0
  {
    if samples == [] then 0.0 else sqrt(MeanSquare(samples))
  }

  /** `rms_to_db`: the sentinel at or below the silence floor, else 20·log10(rms). */
  function RmsToDb(rms: real, log10: real -> real): (r: real)
    ensures rms <= SILENCE_FLOOR ==> r == SENTINEL_DB
    ensures Log10Facts(log10) && rms > SILENCE_FLOOR ==> r >= -240.0
  {
    if rms <= SILENCE_FLOOR then SENTINEL_DB else 20.0 * log10(rms)
  }

  /** An empty window is reported as the sentinel level, whatever sqrt and log10 are. */
  lemma EmptyWindowIsSentinel(sqrt: real -> real, log10: real -> real)
    ensures RmsToDb(WindowRms([], sqrt), log10) == SENTINEL_DB
  {
  }

  /** log10 is non-decreasing on the positive reals and log10(1e-12) = -12. */
  ghost predicate Log10Facts(log10: real -> real)
  {
    log10(SILENCE_FLOOR) == -12.0 &&
    forall x: real, y: real :: 0.0 < x <= y ==> log10(x) <= log10(y)
  }

  /**
   * The level is non-decreasing in the RMS, across the silence floor too:
   * above the floor 20·log10(rms) is at least -240, well above the sentinel.
   */
  lemma RmsToDbMonotone(a: real, b: real, log10: real -> real)
    requires Log10Facts(log10)
    requires a <= b
    ensures RmsToDb(a, log10) <= RmsToDb(b, log10)
  {
  }

  /** A window of n identical samples a has mean square a², so its RMS is sqrt(a²). */
  lemma {:induction false} SumSquaresOfConstant(samples: seq<real>, a: real)
    requires forall i :: 0 <= i < |samples| ==> samples[i] == a
    ensures SumSquares(samples) == |samples| as real * (a * a)
  {
    if samples != [] {
      SumSquaresOfConstant(samples[1..], a);
      assert SumSquares(samples) == a * a + (|samples| - 1) as real * (a * a);
    }
  }

  lemma SteadyToneRms(samples: seq<real>, a: real, sqrt: real -> real)
    requires |samples| > 0
    requires forall i :: 0 <= i < |samples| ==> samples[i] == a
    ensures MeanSquare(samples) == a * a
    ensures WindowRms(samples, sqrt) == sqrt(a * a)
  {
    SumSquaresOfConstant(samples, a);
  }

  // ---------------------------------------------------------------------
  // Rounding and the percentage mapping
  // ---------------------------------------------------------------------

  /** `f32::round`: to the nearest integer, halves away from zero. */
  function Round(x: real): (r: int)
    ensures x >= 0.0 ==> x - 0.5 < r as real <= x + 0.5
    ensures x < 0.0 ==> x - 0.5 <= r as real < x + 0.5
  {
    if x >= 0.0 then (x + 0.5).Floor else -((0.5 - x).Floor)
  }

  lemma RoundMonotone(x: real, y: real)
    requires x <= y
    ensures Round(x) <= Round(y)
  {
  }

  /**
   * The percentage of a level between the soft threshold minDb and the cut
   * threshold maxDb: 100 at or below minDb, 0 at or above maxDb, and in
   * between the linear interpolation rounded to an integer.
   */
  function Percentage(db: real, minDb: real, maxDb: real): (pct: int)
    ensures 0 <= pct <= 100
    ensures db <= minDb ==> pct == 100
    ensures minDb < db && maxDb <= db ==> pct == 0
    ensures minDb < db < maxDb ==>
      var exact := 100.0 * (maxDb - db) / (maxDb - minDb);
      exact - 0.5 < pct as real <= exact + 0.5
  {
    if db <= minDb then 100
    else if db >= maxDb then 0
    else
      var v := 1.0 - (db - minDb) / (maxDb - minDb);
      assert 0.0 < v < 1.0 by { FractionBetween(db - minDb, maxDb - minDb); }
      assert 100.0 * v == 100.0 * (maxDb - db) / (maxDb - minDb) by {
        OneMinusFraction(db - minDb, maxDb - minDb);
      }
      Round(100.0 * v)
  }

  /**
   * With an ambient level of -40 dB the thresholds are -25 and 5 dB: -50 dB
   * gives 100 %, the midpoint -10 dB gives 50 %, 0 dB gives 17 % and 5 dB
   * cuts.
   */
  lemma AmbientMinus40Examples()
    ensures Percentage(-50.0, -40.0 + SOFT_OFFSET_DB, -40.0 + CUT_OFFSET_DB) == 100
    ensures Percentage(-10.0, -40.0 + SOFT_OFFSET_DB, -40.0 + CUT_OFFSET_DB) == 50
    ensures Percentage(0.0, -40.0 + SOFT_OFFSET_DB, -40.0 + CUT_OFFSET_DB) == 17
    ensures Percentage(5.0, -40.0 + SOFT_OFFSET_DB, -40.0 + CUT_OFFSET_DB) == 0
    ensures StateText(50) == "OK 50%" && StateText(0) == "CUT"
  {
  }

  lemma FractionBetween(n: real, d: real)
    requires 0.0 < n < d
    ensures 0.0 < n / d < 1.0
  {
    var q := n / d;
    assert q * d == n;
    MultiplyCancel(q, 1.0, d);
  }

  lemma MultiplyCancel(a: real, b: real, d: real)
    requires d > 0.0 && a * d < b * d
    ensures a < b
  {
  }

  lemma OneMinusFraction(n: real, d: real)
    requires d > 0.0
    ensures 1.0 - n / d == (d - n) / d
  {
    assert (d - n) / d == d / d - n / d;
  }

  /** A louder window never gets a higher percentage, whatever the thresholds. */
  lemma PercentageMonotone(db1: real, db2: real, minDb: real, maxDb: real)
    requires db1 <= db2
    ensures Percentage(db2, minDb, maxDb) <= Percentage(db1, minDb, maxDb)
  {
    if minDb < db1 && db2 < maxDb {
      var d := maxDb - minDb;
      assert (db1 - minDb) / d <= (db2 - minDb) / d by { DivideMonotone(db1 - minDb, db2 - minDb, d); }
      RoundMonotone(100.0 * (1.0 - (db2 - minDb) / d), 100.0 * (1.0 - (db1 - minDb) / d));
    }
  }

  lemma DivideMonotone(a: real, b: real, d: real)
    requires a <= b && d > 0.0
    ensures a / d <= b / d
  {
  }

  /**
   * With the calibrated gap of 30 dB, the interface is cut exactly when the
   * level is above maxDb - 0.15, and the percentage is 100 exactly when the
   * level is at most minDb + 0.15 (the rounding moves both edges inwards).
   */
  lemma CutAndFullEdges(db: real, minDb: real, maxDb: real)
    requires maxDb == minDb + (CUT_OFFSET_DB - SOFT_OFFSET_DB)
    ensures Percentage(db, minDb, maxDb) == 0 <==> db > maxDb - 0.15
    ensures Percentage(db, minDb, maxDb) == 100 <==> db <= minDb + 0.15
  {
    if minDb < db < maxDb {
      var x := 100.0 * (1.0 - (db - minDb) / (maxDb - minDb));
      assert x == 100.0 * (maxDb - db) / 30.0 by { OneMinusFraction(db - minDb, maxDb - minDb); }
      assert Percentage(db, minDb, maxDb) == (x + 0.5).Floor;
    }
  }

  // ---------------------------------------------------------------------
  // Control state text
  // ---------------------------------------------------------------------

  function DigitChar(d: nat): (c: char)
    requires d < 10
    ensures '0' <= c <= '9'
  {
    "0123456789"[d]
  }

  /** Decimal digits of a natural number, most significant first, without leading zeros. */
  function Digits(n: nat): (s: string)
    ensures |s| >= 1
    ensures forall i :: 0 <= i < |s| ==> '0' <= s[i] <= '9'
    ensures n < 10 <==> |s| == 1
  {
    if n < 10 then [DigitChar(n)] else Digits(n / 10) + [DigitChar(n % 10)]
  }

  /** Decimal text of an integer as `{}` formats it: a minus sign before negatives. */
  function IntText(n: int): (s: string)
    ensures |s| >= 1
    ensures s[0] == '-' <==> n < 0
    ensures forall i :: 1 <= i < |s| ==> '0' <= s[i] <= '9'
    ensures n >= 0 ==> forall i :: 0 <= i < |s| ==> '0' <= s[i] <= '9'
  {
    if n < 0 then "-" + Digits(-n) else Digits(n)
  }

  /**
   * The state text of a percentage: "CUT" at 0 and only there; any other
   * percentage reads "OK " followed by a number and a percent sign.
   */
  function StateText(pct: int): (s: string)
    ensures s == "CUT" <==> pct == 0
    ensures pct != 0 ==> |s| >= 5 && s[..3] == "OK " && s[|s| - 1] == '%'
    ensures pct > 0 ==> forall i :: 3 <= i < |s| - 1 ==> '0' <= s[i] <= '9'
  {
    if pct == 0 then "CUT" else "OK " + IntText(pct) + "%"
  }

  lemma DigitCharInjective(a: nat, b: nat)
    requires a < 10 && b < 10 && DigitChar(a) == DigitChar(b)
    ensures a == b
  {
  }

  lemma {:induction false} DigitsInjective(a: nat, b: nat)
    requires Digits(a) == Digits(b)
    ensures a == b
  {
    var s := Digits(a);
    if a < 10 {
      DigitCharInjective(a, b);
    } else {
      assert b >= 10;
      assert s == Digits(a / 10) + [DigitChar(a % 10)];
      assert s == Digits(b / 10) + [DigitChar(b % 10)];
      assert s[|s| - 1] == DigitChar(a % 10) == DigitChar(b % 10);
      DigitCharInjective(a % 10, b % 10);
      assert Digits(a / 10) == s[..|s| - 1] == Digits(b / 10);
      DigitsInjective(a / 10, b / 10);
    }
  }

  lemma IntTextInjective(a: int, b: int)
    requires IntText(a) == IntText(b)
    ensures a == b
  {
    assert a < 0 ==> IntText(a)[0] == '-';
    assert b >= 0 ==> '0' <= IntText(b)[0] <= '9';
    assert b < 0 ==> IntText(b)[0] == '-';
    assert a >= 0 ==> '0' <= IntText(a)[0] <= '9';
    if a < 0 && b < 0 {
      assert Digits(-a) == IntText(a)[1..];
      DigitsInjective(-a, -b);
    } else if a >= 0 && b >= 0 {
      DigitsInjective(a, b);
    }
  }

  /**
   * Distinct percentages have distinct state texts, and "CUT" is the text of 0
   * alone: deduplicating on the text is deduplicating on the percentage.
   */
  lemma StateTextInjective(p: int, q: int)
    ensures StateText(p) == StateText(q) <==> p == q
    ensures StateText(p) == "CUT" <==> p == 0
  {
    if p != 0 {
      assert StateText(p)[0] == 'O';
    }
    if StateText(p) == StateText(q) && p != 0 && q != 0 {
      var tp, tq := IntText(p), IntText(q);
      assert tp == StateText(p)[3..|StateText(p)| - 1];
      assert tq == StateText(q)[3..|StateText(q)| - 1];
      IntTextInjective(p, q);
    }
    if q != 0 {
      assert StateText(q)[0] == 'O';
    }
  }
}
