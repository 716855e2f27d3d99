/**
 * The steady-state control loop of `run_loop`: fill a window from the
 * channel, run the inactivity watchdog, reduce the window to a level, map
 * the level to a percentage and a state, drive the interface and log state
 * changes.
 *
 * The interface switch is recorded as the trace `ifaceCalls` (one entry per
 * call, `true` for enable) and the console output as the trace `log`.
 */
module Control {
  import opened Wrappers
  import opened Level
  import opened Receive
  import Calibration

  /** A receive timeout ends the fill once the window is this old (500 ms + 200 ms). */
  const FILL_DEADLINE: nat := (Calibration.SAMPLE_WINDOW_MS + 200) * NANOS_PER_MILLI

  /** The watchdog fires once no sample has arrived for longer than this (3 s). */
  const WATCHDOG_SILENCE: nat := 3000 * NANOS_PER_MILLI

  /** The lines the loop prints. */
  datatype LogLine =
    | Volume(db: real)                    // every processed window
    | Transition(db: real, state: string) // the state text changed
    | Restored                            // the watchdog re-enabled the interface

  /** Why the fill loop stopped. */
  datatype FillEnd =
    | Full          // the buffer reached the window capacity
    | Deadline      // a receive timed out after the fill deadline
    | ChannelClosed // the channel is disconnected
    | FeedExhausted // the given receive outcomes ran out with the fill still going

  /** What one pass of the loop did after the fill. */
  datatype WindowOutcome =
    | Skipped                                     // the watchdog fired
    | Processed(db: real, pct: int, state: string)

  /**
   * The state text of the latest transition line: none exactly when no
   * transition line was ever printed, otherwise the state of a transition
   * line that no later one follows.
   */
  function LastTransition(log: seq<LogLine>): (r: Option<string>)
    ensures r == None <==> forall i :: 0 <= i < |log| ==> !log[i].Transition?
    ensures r.Some? ==> exists i :: 0 <= i < |log| && log[i].Transition? && log[i].state == r.value
                                    && forall k :: i < k < |log| ==> !log[k].Transition?
  {
    if log == [] then None
    else if log[|log| - 1].Transition? then Some(log[|log| - 1].state)
    else LastTransition(log[..|log| - 1])
  }

  /** A receive outcome that breaks out of the fill loop; a sample never does. */
  predicate EndsFill(e: Recv, windowStart: Instant)
    ensures EndsFill(e, windowStart) ==> !e.Got?
  {
    e.Disconnected? || (e.TimedOut? && Elapsed(windowStart, e.at) > FILL_DEADLINE)
  }

  class ControlLoop {
    const samplesPerWindow: nat
    const minDb: real
    const maxDb: real
    const sqrt: real -> real
    const log10: real -> real

    var buffer: seq<real>
    var lastState: Option<string>
    var lastSampleTime: Instant
    var ifaceDisabled: bool
    var windowStart: Instant

    var ifaceCalls: seq<bool>
    var log: seq<LogLine>

    /**
     * The buffer never exceeds the window; the thresholds are 30 dB apart;
     * `ifaceDisabled` says whether the last interface call disabled it;
     * `lastState` is the state of the latest transition line; and the
     * interface is only ever left disabled in the "CUT" state.
     */
    ghost predicate Valid()
      reads this
    {
      && |buffer| <= samplesPerWindow
      && maxDb - minDb == CUT_OFFSET_DB - SOFT_OFFSET_DB
      && (ifaceDisabled <==> |ifaceCalls| > 0 && !ifaceCalls[|ifaceCalls| - 1])
      && lastState == LastTransition(log)
      && (ifaceDisabled ==> lastState == Some("CUT"))
    }

    /**
     * The loop's state as `run_loop` sets it up: `enteredAt` is when it was
     * entered, before calibration; `ambientDb` is what calibration measured.
     */
    constructor (samplesPerWindow: nat, ambientDb: real, sqrt: real -> real, log10: real -> real, enteredAt: Instant)
      ensures Valid()
      ensures this.samplesPerWindow == samplesPerWindow && this.sqrt == sqrt && this.log10 == log10
      ensures minDb == ambientDb + SOFT_OFFSET_DB && maxDb == ambientDb + CUT_OFFSET_DB
      ensures buffer == [] && lastState == None && lastSampleTime == enteredAt && !ifaceDisabled
      ensures ifaceCalls == [] && log == []
    {
      this.samplesPerWindow := samplesPerWindow;
      this.sqrt := sqrt;
      this.log10 := log10;
      minDb := ambientDb + SOFT_OFFSET_DB;
      maxDb := ambientDb + CUT_OFFSET_DB;
      buffer := [];
      lastState := None;
      lastSampleTime := enteredAt;
      ifaceDisabled := false;
      windowStart := enteredAt;
      ifaceCalls := [];
      log := [];
    }

    /** The top of the loop: the window's fill starts at `now`. */
    method BeginWindow(now: Instant)
      requires Valid()
      modifies this`windowStart
      ensures Valid() && windowStart == now
    {
      windowStart := now;
    }

    /**
     * One receive of the fill loop, made while the buffer is not full: a
     * sample is appended and its time recorded; a timeout or a closed channel
     * changes nothing and says whether the fill loop ends.
     */
    method ReceiveOne(e: Recv) returns (stop: bool)
      requires Valid()
      requires |buffer| < samplesPerWindow
      modifies this`buffer, this`lastSampleTime
      ensures Valid()
      ensures stop == EndsFill(e, windowStart)
      ensures e.Got? ==> buffer == old(buffer) + [e.sample] && lastSampleTime == e.at
      ensures !e.Got? ==> buffer == old(buffer) && lastSampleTime == old(lastSampleTime)
    {
      match e
      case Got(s, at) =>
        buffer := buffer + [s];
        lastSampleTime := at;
        stop := false;
      case TimedOut(at) =>
        stop := Elapsed(windowStart, at) > FILL_DEADLINE;
      case Disconnected =>
        stop := true;
    }

    /**
     * The fill loop over a run of receive outcomes: receive while the buffer
     * is short of the window, until a late timeout or a closed channel. Every
     * sample is appended in order and the last one's time recorded; nothing
     * else changes; the outcomes before the last one consumed did not end the
     * fill.
     */
    method FillWindow(feed: seq<Recv>) returns (consumed: nat, end: FillEnd)
      requires Valid()
      modifies this`buffer, this`lastSampleTime
      ensures Valid()
      ensures consumed <= |feed|
      ensures buffer == old(buffer) + SamplesIn(feed[..consumed])
      ensures lastSampleTime == LatestReceipt(feed[..consumed], old(lastSampleTime))
      ensures forall j :: 0 <= j < consumed ==> |old(buffer)| + |SamplesIn(feed[..j])| < samplesPerWindow
      ensures forall j :: 0 <= j < consumed - 1 ==> !EndsFill(feed[j], windowStart)
      ensures end == Full <==> |buffer| == samplesPerWindow
      ensures end == Deadline ==> 0 < consumed && feed[consumed - 1].TimedOut? && EndsFill(feed[consumed - 1], windowStart)
      ensures end == ChannelClosed ==> 0 < consumed && feed[consumed - 1].Disconnected?
      ensures end == FeedExhausted ==> consumed == |feed|
      ensures end == FeedExhausted ==> consumed == 0 || !EndsFill(feed[consumed - 1], windowStart)
    {
      ghost var start := buffer;
      ghost var since := lastSampleTime;
      consumed := 0;
      end := FeedExhausted;
      var stopped := false;
      while !stopped && |buffer| < samplesPerWindow && consumed < |feed|
        invariant Valid()
        invariant consumed <= |feed|
        invariant buffer == start + SamplesIn(feed[..consumed])
        invariant lastSampleTime == LatestReceipt(feed[..consumed], since)
        invariant forall j :: 0 <= j < consumed ==> |start| + |SamplesIn(feed[..j])| < samplesPerWindow
        invariant forall j :: 0 <= j < consumed - 1 ==> !EndsFill(feed[j], windowStart)
        invariant stopped ==> 0 < consumed && EndsFill(feed[consumed - 1], windowStart)
        invariant !stopped ==> end == FeedExhausted
        invariant !stopped && 0 < consumed ==> !EndsFill(feed[consumed - 1], windowStart)
        invariant stopped ==> |buffer| < samplesPerWindow
        invariant stopped && feed[consumed - 1].TimedOut? ==> end == Deadline
        invariant stopped && feed[consumed - 1].Disconnected? ==> end == ChannelClosed
        decreases |feed| - consumed
      {
        SamplesInStep(feed, consumed, since);
        var e := feed[consumed];
        stopped := ReceiveOne(e);
        consumed := consumed + 1;
        if stopped {
          end := if e.Disconnected? then ChannelClosed else Deadline;
        }
      }
      if !stopped && |buffer| == samplesPerWindow {
        end := Full;
      }
    }

    /**
     * After the fill. If no sample arrived for more than 3 s by `now`, the
     * watchdog re-enables the interface only if it was disabled, clears the
     * buffer and skips the window. Otherwise the window is reduced to a level
     * and a percentage, the interface is switched on every window (off
     * exactly at 0 %), and a transition line is logged only when the state
     * text differs from the last one logged.
     */
    method EndWindow(now: Instant) returns (outcome: WindowOutcome)
      requires Valid()
      modifies this`buffer, this`lastState, this`ifaceDisabled, this`ifaceCalls, this`log
      ensures Valid() && buffer == []
      ensures Elapsed(old(lastSampleTime), now) > WATCHDOG_SILENCE ==>
        && outcome == Skipped
        && ifaceCalls == old(ifaceCalls) + (if old(ifaceDisabled) then [true] else [])
        && log == old(log) + (if old(ifaceDisabled) then [Restored] else [])
        && !ifaceDisabled
        && lastState == old(lastState)
      ensures Elapsed(old(lastSampleTime), now) <= WATCHDOG_SILENCE ==>
        && outcome.Processed?
        && outcome.db == RmsToDb(WindowRms(old(buffer), sqrt), log10)
        && outcome.pct == Percentage(outcome.db, minDb, maxDb)
        && outcome.state == StateText(outcome.pct)
        && ifaceCalls == old(ifaceCalls) + [outcome.pct != 0]
        && ifaceDisabled == (outcome.pct == 0)
        && lastState == Some(outcome.state)
        && log == old(log) + [Volume(outcome.db)]
                  + (if Some(outcome.state) != old(lastState) then [Transition(outcome.db, outcome.state)] else [])
    {
      if Elapsed(lastSampleTime, now) > WATCHDOG_SILENCE {
        if ifaceDisabled {
          ifaceCalls := ifaceCalls + [true];
          log := log + [Restored];
          ifaceDisabled := false;
        }
        buffer := [];
        outcome := Skipped;
        assert LastTransition(log) == LastTransition(old(log));
        return;
      }

      var rms := WindowRms(buffer, sqrt);
      buffer := [];
      var db := RmsToDb(rms, log10);
      log := log + [Volume(db)];

      var pct := Percentage(db, minDb, maxDb);
      var state;
      if pct == 0 {
        ifaceCalls := ifaceCalls + [false];
        ifaceDisabled := true;
        state := "CUT";
      } else {
        ifaceCalls := ifaceCalls + [true];
        ifaceDisabled := false;
        state := "OK " + IntText(pct) + "%";
      }

      if Some(state) != lastState {
        log := log + [Transition(db, state)];
        lastState := Some(state);
      }
      outcome := Processed(db, pct, state);
    }

    /**
     * One pass of the loop: the window starts at `start`, is filled from
     * `feed` and finished at `now`. The window processed is exactly the
     * samples received, never more than the capacity.
     */
    method Iterate(start: Instant, feed: seq<Recv>, now: Instant) returns (consumed: nat, end: FillEnd, outcome: WindowOutcome)
      requires Valid() && buffer == []
      modifies this`windowStart, this`buffer, this`lastSampleTime, this`lastState, this`ifaceDisabled, this`ifaceCalls, this`log
      ensures Valid() && buffer == [] && windowStart == start
      ensures consumed <= |feed| && |SamplesIn(feed[..consumed])| <= samplesPerWindow
      ensures lastSampleTime == LatestReceipt(feed[..consumed], old(lastSampleTime))
      ensures forall j :: 0 <= j < consumed ==> |SamplesIn(feed[..j])| < samplesPerWindow
      ensures forall j :: 0 <= j < consumed - 1 ==> !EndsFill(feed[j], start)
      ensures end == Full <==> |SamplesIn(feed[..consumed])| == samplesPerWindow
      ensures end == Deadline ==> 0 < consumed && feed[consumed - 1].TimedOut? && EndsFill(feed[consumed - 1], start)
      ensures end == ChannelClosed ==> 0 < consumed && feed[consumed - 1].Disconnected?
      ensures end == FeedExhausted ==> consumed == |feed| && (consumed == 0 || !EndsFill(feed[consumed - 1], start))
      ensures outcome == Skipped <==> Elapsed(lastSampleTime, now) > WATCHDOG_SILENCE
      ensures outcome == Skipped ==>
        && ifaceCalls == old(ifaceCalls) + (if old(ifaceDisabled) then [true] else [])
        && log == old(log) + (if old(ifaceDisabled) then [Restored] else [])
        && !ifaceDisabled && lastState == old(lastState)
      ensures outcome.Processed? ==>
        && outcome.db == RmsToDb(WindowRms(SamplesIn(feed[..consumed]), sqrt), log10)
        && outcome.pct == Percentage(outcome.db, minDb, maxDb)
        && outcome.state == StateText(outcome.pct)
        && ifaceCalls == old(ifaceCalls) + [outcome.pct != 0]
        && lastState == Some(outcome.state)
        && log == old(log) + [Volume(outcome.db)]
                  + (if Some(outcome.state) != old(lastState) then [Transition(outcome.db, outcome.state)] else [])
    {
      BeginWindow(start);
      consumed, end := FillWindow(feed);
      ghost var window := buffer;
      ghost var filled := lastSampleTime;
      assert window == SamplesIn(feed[..consumed]);
      outcome := EndWindow(now);
      assert lastSampleTime == filled;
    }

    /**
     * Two silent passes in a row, after more than 3 s without a sample: the
     * interface is re-enabled at most once, and only if it was disabled.
     */
    method SilentPasses(start1: Instant, feed1: seq<Recv>, now1: Instant, start2: Instant, feed2: seq<Recv>, now2: Instant)
      returns (outcome1: WindowOutcome, outcome2: WindowOutcome)
      requires Valid() && buffer == []
      requires Silent(feed1) && Silent(feed2)
      requires Elapsed(lastSampleTime, now1) > WATCHDOG_SILENCE && now1 <= now2
      modifies this`windowStart, this`buffer, this`lastSampleTime, this`lastState, this`ifaceDisabled, this`ifaceCalls, this`log
      ensures Valid() && buffer == [] && !ifaceDisabled
      ensures outcome1 == Skipped && outcome2 == Skipped
      ensures ifaceCalls == old(ifaceCalls) + (if old(ifaceDisabled) then [true] else [])
      ensures lastSampleTime == old(lastSampleTime) && lastState == old(lastState)
    {
      var consumed, end;
      SilentDeliversNothing(feed1, lastSampleTime);
      consumed, end, outcome1 := Iterate(start1, feed1, now1);
      SilentDeliversNothing(feed1[..consumed], old(lastSampleTime));
      SilentDeliversNothing(feed2, lastSampleTime);
      consumed, end, outcome2 := Iterate(start2, feed2, now2);
      SilentDeliversNothing(feed2[..consumed], old(lastSampleTime));
    }

    /**
     * Two processed passes in a row: when they give the same percentage the
     * second logs only its volume line; when they differ it logs a transition.
     */
    method ConsecutivePasses(start1: Instant, feed1: seq<Recv>, now1: Instant, start2: Instant, feed2: seq<Recv>, now2: Instant)
      returns (outcome1: WindowOutcome, outcome2: WindowOutcome)
      requires Valid() && buffer == []
      modifies this`windowStart, this`buffer, this`lastSampleTime, this`lastState, this`ifaceDisabled, this`ifaceCalls, this`log
      ensures Valid() && buffer == []
      ensures outcome1.Processed? && outcome2.Processed? ==>
        && log == old(log)
                  + [Volume(outcome1.db)]
                  + (if Some(outcome1.state) != old(lastState) then [Transition(outcome1.db, outcome1.state)] else [])
                  + [Volume(outcome2.db)]
                  + (if outcome1.pct != outcome2.pct then [Transition(outcome2.db, outcome2.state)] else [])
        && lastState == Some(outcome2.state)
    {
      var consumed, end;
      consumed, end, outcome1 := Iterate(start1, feed1, now1);
      consumed, end, outcome2 := Iterate(start2, feed2, now2);
      if outcome1.Processed? && outcome2.Processed? {
        StateTextInjective(outcome1.pct, outcome2.pct);
      }
    }
  }
}
