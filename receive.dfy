/**
 * The consumer's view of the sample channel and of the clock. Each
 * `recv_timeout` on the channel has one of three outcomes; the time at which
 * a receive returns is carried with it instead of being read from a clock.
 */
module Receive {

  /** A reading of the monotonic clock, in nanoseconds. */
  type Instant = nat

  const NANOS_PER_MILLI: nat := 1_000_000

  /** `Instant::elapsed`: the time from `since` to `now`, zero if `now` is earlier. */
  function Elapsed(since: Instant, now: Instant): (r: nat)
    ensures r <= now
    ensures since <= now ==> since + r == now
    ensures now < since ==> r == 0
  {
    if now >= since then now - since else 0
  }

  /** The outcome of one receive: a sample, a timeout, or a closed channel. */
  datatype Recv = Got(sample: real, at: Instant) | TimedOut(at: Instant) | Disconnected

  /** The samples a run of receive outcomes delivers, in the order received. */
  function SamplesIn(feed: seq<Recv>): (s: seq<real>)
    ensures |s| <= |feed|
  {
    if feed == [] then []
    else
      var last := feed[|feed| - 1];
      SamplesIn(feed[..|feed| - 1]) + (if last.Got? then [last.sample] else [])
  }

  /** The time of the latest sample in a run of outcomes, or `since` if it holds none. */
  function LatestReceipt(feed: seq<Recv>, since: Instant): Instant
  {
    if feed == [] then since
    else if feed[|feed| - 1].Got? then feed[|feed| - 1].at
    else LatestReceipt(feed[..|feed| - 1], since)
  }

  /** One more receive outcome adds its sample, if any, at the end. */
  lemma SamplesInStep(feed: seq<Recv>, i: nat, since: Instant)
    requires i < |feed|
    ensures SamplesIn(feed[..i + 1]) == SamplesIn(feed[..i]) + (if feed[i].Got? then [feed[i].sample] else [])
    ensures LatestReceipt(feed[..i + 1], since) == (if feed[i].Got? then feed[i].at else LatestReceipt(feed[..i], since))
  {
    assert feed[..i + 1][..i] == feed[..i];
  }

  /** A longer run of outcomes never delivers fewer samples. */
  lemma {:induction false} SamplesInPrefix(feed: seq<Recv>, n: nat)
    requires n <= |feed|
    ensures |SamplesIn(feed[..n])| <= |SamplesIn(feed)|
    decreases |feed| - n
  {
    if n < |feed| {
      SamplesInPrefix(feed, n + 1);
      SamplesInStep(feed, n, 0);
      assert feed[..|feed|] == feed;
    } else {
      assert feed[..n] == feed;
    }
  }

  /** A run of outcomes with no sample in it: only timeouts and disconnects. */
  predicate Silent(feed: seq<Recv>)
  {
    forall i :: 0 <= i < |feed| ==> !feed[i].Got?
  }

  /** A silent run delivers no samples and leaves the time of the last sample alone. */
  lemma {:induction false} SilentDeliversNothing(feed: seq<Recv>, since: Instant)
    requires Silent(feed)
    ensures SamplesIn(feed) == []
    ensures LatestReceipt(feed, since) == since
  {
    if feed != [] {
      var init := feed[..|feed| - 1];
      assert Silent(init) by {
        forall i | 0 <= i < |init| ensures !init[i].Got? {
          assert init[i] == feed[i];
        }
      }
      SilentDeliversNothing(init, since);
    }
  }
}
