# shhh: a verified model of the volume-driven interface switch

`shhh` listens to the default microphone and switches a network interface
off when the room gets loud. At start-up it measures the ambient level over
six half-second windows. From then on it fills one 500 ms window of samples
at a time and reduces it to an RMS value and a level in dB. It maps the
level to a percentage between a soft threshold (ambient + 15 dB) and a cut
threshold (ambient + 45 dB). At 0 % it disables the interface; at any other
percentage it enables it. It prints a line whenever the state text
("CUT" or "OK n%") changes. A watchdog re-enables the interface after more
than 3 s without any sample.

This project models that control core of `src/main.rs` in Dafny:

- `level.dfy`, module `Level` (pure): the window reduction (`SumSquares`,
  `MeanSquare`, `WindowRms`), `rms_to_db` (`RmsToDb`), `f32::round`
  (`Round`), the percentage mapping (`Percentage`) and the state text
  (`StateText`, with `IntText`/`Digits` for the decimal rendering).
- `receive.dfy`, module `Receive`: clock readings (`Instant`, nanoseconds),
  `Instant::elapsed` (`Elapsed`, saturating at zero), and the three outcomes
  of a `recv_timeout` (`Recv`: a sample with its arrival time, a timeout with
  its time, or a closed channel). `SamplesIn` gives the samples delivered by a
  run of outcomes.
- `calibration.dfy`, module `Calibration`: the window capacity
  (`SamplesPerWindow`) and `calibrate` (`Calibrate`, a method with the
  same `while` loop as `main.rs`).
- `control.dfy`, module `Control`: class `ControlLoop` holds the state
  `run_loop` mutates: `buffer`, `lastState`, `lastSampleTime`,
  `ifaceDisabled` and the window start. It also holds two traces:
  `ifaceCalls` records every `set_iface` call, and `log` records the printed
  lines. The step methods are `BeginWindow` (top of the loop), `ReceiveOne` (one
  receive of the fill loop), `FillWindow` (the fill loop itself) and
  `EndWindow` (watchdog, RMS, percentage, effector, log). `Iterate` is one
  whole pass.

`sqrt` and `log10` are not defined. They are parameters of type
`real -> real`, and the loop object keeps them as constants. Results hold
for any such functions unless a lemma states what it needs
(`Log10Facts`: log10 is monotone and log10(1e-12) = -12).

`ControlLoop.Valid()` is kept by every method. It says:

- the buffer never holds more than one window;
- the thresholds are 30 dB apart;
- `ifaceDisabled` is true exactly when the last `set_iface` call disabled
  the interface;
- `lastState` is the state of the latest transition line;
- the interface is left disabled only in state "CUT".

Facts about the code worth knowing:

- The interpolation branch of the percentage mapping is reached only when
  `min_db < db < max_db`, so its divisor is always positive. `Percentage`
  lies in [0, 100] and is non-increasing for every pair of thresholds, even
  an inverted or equal pair.
- Rounding moves the edges inwards: with thresholds 30 dB apart, the
  interface is cut only above `max_db - 0.15` (`CutAndFullEdges`). With an
  ambient level of -40 dB the cut threshold is 5 dB, and a 0 dB window gives
  17 % ("OK 17%"), not a cut (`AmbientMinus40Examples`).
- After the watchdog restores the interface, `last_state` keeps its old value
  ("CUT"). If the next window is loud again, the interface is disabled
  without a new transition line. `EndWindow` states this: a skipped window
  leaves `lastState` unchanged.

## Model

| member | source | states |
|---|---|---|
| `Calibration.SamplesPerWindow` | src/main.rs:55 | the capacity `rate * 500 / 1000` in integers is exactly half the sample rate, rounded down |
| `Calibration.Calibrate` | src/main.rs:21-31 | calibration is done exactly when the outcomes received so far deliver `samplesPerWindow * 6` samples, and not one outcome earlier; it keeps waiting iff the run holds fewer; the ambient level is `rms_to_db` of the root of the mean square of exactly those samples |
| `Receive.Elapsed` | src/main.rs:129 | the elapsed time never exceeds the current reading, from an earlier instant it is exactly the difference, and from a later one it is zero |
| `Receive.SamplesIn` | src/main.rs:124-126 | a run of receive outcomes never delivers more samples than it has outcomes |
| `Receive.SamplesInPrefix` | src/main.rs:25-27 | a longer run of outcomes never delivers fewer samples (so calibration, once the target is reached, stays reached) |
| `Receive.SilentDeliversNothing` | src/main.rs:128-133 | timeouts and disconnects add no sample and leave the last-sample time unchanged |
| `Level.SumSquares` | src/main.rs:153 | the sum of squared samples is never negative |
| `Level.MeanSquare` | src/main.rs:153-154 | the mean square of a non-empty window is never negative |
| `Level.SumSquaresOfConstant` | src/main.rs:28 | n identical samples a have sum of squares n·a² |
| `Level.SteadyToneRms` | src/main.rs:28-29 | a window of identical samples a has mean square a², so its RMS is sqrt(a²) |
| `Level.WindowRms` | src/main.rs:150-155 | an empty window has RMS 0; with a square root that is non-negative on non-negative inputs, every RMS is non-negative |
| `Level.RmsToDb` | src/main.rs:33-36 | at or below 1e-12 the level is exactly -999; above it, with `Log10Facts` (log10 monotone and log10(1e-12) = -12), the level is at least -240, so it is never confused with the silence value |
| `Level.EmptyWindowIsSentinel` | src/main.rs:150-158 | an empty window is reported as exactly -999 dB, whatever sqrt and log10 are |
| `Level.RmsToDbMonotone` | src/main.rs:33-36 | with `Log10Facts` (log10 monotone and log10(1e-12) = -12), a larger RMS never gives a lower level, across the silence floor as well |
| `Level.Round` | src/main.rs:167 | the result is within half of its argument, with halves rounded away from zero |
| `Level.RoundMonotone` | src/main.rs:167 | rounding is monotone |
| `Level.Percentage` | src/main.rs:161-168 | for any thresholds the percentage lies in [0, 100]; 100 at or below `min_db`; 0 from `max_db` up; strictly between, within half of the linear interpolation `100·(max_db - db)/(max_db - min_db)` |
| `Level.PercentageMonotone` | src/main.rs:161-168 | a louder window never gets a higher percentage, for any thresholds |
| `Level.CutAndFullEdges` | src/main.rs:115-116 | with thresholds 30 dB apart, the result is 0 iff `db > max_db - 0.15` and 100 iff `db <= min_db + 0.15` |
| `Level.AmbientMinus40Examples` | src/main.rs:161-178 | ambient -40 dB: -50 dB gives 100, -10 dB gives 50, 0 dB gives 17, 5 dB gives 0; the texts are "OK 50%" and "CUT" |
| `Level.IntText` | src/main.rs:177 | the `{}` text of an integer is non-empty, starts with '-' iff the integer is negative, and is otherwise made of digits |
| `Level.StateText` | src/main.rs:170-178 | the text is "CUT" iff the percentage is 0; any other percentage gives "OK ", then the number, then '%'; a positive one has only digits in between |
| `Level.DigitsInjective` | src/main.rs:177 | distinct naturals have distinct decimal texts |
| `Level.IntTextInjective` | src/main.rs:177 | distinct integers have distinct `{}` texts |
| `Level.StateTextInjective` | src/main.rs:170-178 | two percentages have the same state text iff they are equal, and the text is "CUT" iff the percentage is 0 |
| `Control.EndsFill` | src/main.rs:128-133 | the fill loop is left only on a closed channel or a timeout more than 700 ms after the window start; a sample never ends it |
| `Control.LastTransition` | src/main.rs:180-183 | what `last_state` holds: none iff no transition line was printed, otherwise the state of the transition line that no later one follows |
| `Control.ControlLoop.constructor` | src/main.rs:109-116 | empty buffer, no last state, interface not disabled, last-sample time at loop entry, thresholds ambient+15 and ambient+45, empty traces |
| `Control.ControlLoop.BeginWindow` | src/main.rs:120 | the window start is the current time and nothing else changes |
| `Control.ControlLoop.ReceiveOne` | src/main.rs:123-134 | a sample is appended and its arrival time recorded; a timeout or a closed channel changes nothing; the fill ends iff the channel is closed or a timeout arrives more than 700 ms after the window start |
| `Control.ControlLoop.FillWindow` | src/main.rs:122-135 | the buffer grows by exactly the received samples in order and never beyond the capacity; the last-sample time is that of the last sample; the fill stops at a full buffer, a late timeout or a closed channel, and no earlier outcome would have stopped it; `FeedExhausted` is reported only when the last outcome did not end the fill |
| `Control.ControlLoop.EndWindow` | src/main.rs:137-183 | watchdog after more than 3 s of silence: one enable call and a restore line iff the interface was disabled, not disabled afterwards, empty buffer, no level and no state. Otherwise: exactly one effector call, a disable iff the percentage is 0; `ifaceDisabled` iff the percentage is 0; state "CUT" or "OK n%"; a transition line iff the text differs from `last_state`, which then holds the new text; empty buffer |
| `Control.ControlLoop.Iterate` | src/main.rs:119-186 | one pass processes exactly the samples received in that pass, at most one window of them; it consumes outcomes up to the one that fills the buffer, the first late timeout or the first disconnect, and no further; the effector trace and the log change as `EndWindow` says, on a skipped pass too |
| `Control.ControlLoop.SilentPasses` | src/main.rs:138-147 | two silent passes after 3 s without a sample re-enable the interface at most once, and only if it was disabled |
| `Control.ControlLoop.ConsecutivePasses` | src/main.rs:180-183 | two processed passes: the log gains the first pass's volume line, its transition line iff its text differs from the previous `last_state`, then the second pass's volume line, and a transition line iff the two percentages differ; `last_state` ends at the second state |

## Left out

- Audio capture with cpal (host, device, config, stream) and the three sample-format callbacks with their integer-to-float normalisation (src/main.rs:46-103): these are foreign library calls running on the capture thread. The model starts from the float samples the channel delivers.
- The channel, the `Arc<Mutex<_>>` around the sender and the producer thread: each receive is one of the three `Recv` outcomes, supplied as a run of outcomes.
- `set_iface` and its `netsh` command through `cmd /C` (src/main.rs:10-18): each call is one entry of the `ifaceCalls` trace. `main.rs` ignores its failures, and the model does not model them.
- The Ctrl-C handler and the process exit (src/main.rs:40-44).
- Real time: `Instant::now`, the 100 ms and 200 ms receive timeouts, and the 100 ms and 50 ms sleeps (src/main.rs:145, 185). Times are parameters in nanoseconds.
- IEEE-754 behaviour of `f32`/`f64`: rounding in the sum of squares, the `as` casts, NaN and infinities. The model uses `real`, with `sqrt` and `log10` as parameters. The `as i32` cast of the rounded percentage saturates in Rust; the model does not model the saturation, because the value lies in [0, 100] anyway.
- The dB formatting with one decimal in printed lines, and the start-up lines (device, config, ambient summary at src/main.rs:50-51, 117). Log entries carry the exact level.
- Calibration.Calibrate: requires a window of at least one sample (a sample rate of at least 2 Hz). With a zero-sample window, `calibrate` divides 0.0 by 0 and gets NaN, which `real` cannot represent.
- Calibration.Calibrate: `calibrate` may wait forever for samples. The model reads a finite run of outcomes and answers `StillWaiting` when the run ends before the target.
- Control.ControlLoop.FillWindow: the model reads a finite run of outcomes and answers `FeedExhausted` when the run ends while the Rust loop would still be receiving.
