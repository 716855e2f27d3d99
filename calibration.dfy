/**
 * Start-up: the window capacity derived from the device's sample rate, and
 * the calibration that measures the ambient level over the first six
 * windows' worth of samples.
 */
module Calibration {
  import opened Level
  import opened Receive

  /** Duration of one analysis window, in milliseconds. */
  const SAMPLE_WINDOW_MS: nat := 500

  /** Calibration collects this many windows' worth of samples. */
  const CALIBRATION_WINDOWS: nat := 6

  /**
   * Samples per window: the sample rate times the window duration, in whole
   * milliseconds, truncated. For a 500 ms window that is half the rate,
   * rounded down. (`main.rs` widens the rate to 64 bits first, so the
   * product cannot overflow.)
   */
  function SamplesPerWindow(sampleRate: nat): (n: nat)
    ensures n == sampleRate / 2
    ensures 2 * n <= sampleRate < 2 * n + 2
  {
    sampleRate * SAMPLE_WINDOW_MS / 1000
  }

  /** How calibration stands once a run of receive outcomes is used up. */
  datatype Calibrated =
    | StillWaiting                     // fewer samples than needed: calibrate would keep polling
    | Ambient(db: real, consumed: nat) // the ambient level, and how many outcomes it took

  /**
   * `calibrate`: receive until six windows' worth of samples are held, then
   * convert the RMS of all of them to a level. Timeouts and a closed channel
   * only make it poll again; `rx` is the run of outcomes its receives get.
   */
  method Calibrate(rx: seq<Recv>, samplesPerWindow: nat, sqrt: real -> real, log10: real -> real)
    returns (r: Calibrated)
    requires samplesPerWindow > 0
    ensures r.StillWaiting? <==> |SamplesIn(rx)| < samplesPerWindow * CALIBRATION_WINDOWS
    ensures r.Ambient? ==> 0 < r.consumed <= |rx|
    ensures r.Ambient? ==>
      && |SamplesIn(rx[..r.consumed])| == samplesPerWindow * CALIBRATION_WINDOWS
      && |SamplesIn(rx[..r.consumed - 1])| < samplesPerWindow * CALIBRATION_WINDOWS
      && r.db == RmsToDb(sqrt(MeanSquare(SamplesIn(rx[..r.consumed]))), log10)
  {
    var buf: seq<real> := [];
    var targetSamples := samplesPerWindow * CALIBRATION_WINDOWS;
    var i := 0;
    while |buf| < targetSamples && i < |rx|
      invariant 0 <= i <= |rx|
      invariant buf == SamplesIn(rx[..i])
      invariant |buf| <= targetSamples
      invariant i > 0 ==> |SamplesIn(rx[..i - 1])| < targetSamples
    {
      SamplesInStep(rx, i, 0);
      if rx[i].Got? {
        buf := buf + [rx[i].sample];
      }
      i := i + 1;
    }
    if |buf| < targetSamples {
      assert rx[..i] == rx;
      r := StillWaiting;
    } else {
      SamplesInPrefix(rx, i);
      var rms := sqrt(MeanSquare(buf));
      r := Ambient(RmsToDb(rms, log10), i);
    }
  }
}
