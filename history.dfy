// The historical bootstrap: the list of sample times sent to the
// historical-positions endpoint, and how the window it yields meets the
// live pruning that follows.

module History {
  import opened Positions

  /** Samples in the bootstrap request: one every 30 seconds for 24 hours. */
  const SampleCount: int := 24 * 60 * 2
  const StrideSeconds: int := 30

  /** The clock in whole epoch seconds, rounded down (index.js:63). Dafny's `/`
      by a positive divisor rounds toward negative infinity. */
  function EpochSeconds(nowMs: int): (s: int)
    ensures s * 1000 <= nowMs < s * 1000 + 1000
  {
    nowMs / 1000
  }

  /** The sample times as first built (index.js:64): 2880 values stepping
      back 30 seconds from `now`, newest first. */
  function Countdown(now: int): (s: seq<int>)
    ensures |s| == SampleCount && s[0] == now
    ensures forall i :: 0 <= i < |s| - 1 ==> s[i + 1] == s[i] - StrideSeconds
  {
    seq(SampleCount, i => now - i * StrideSeconds)
  }

  /** Array reversal: the element at `i` comes from position `|s| - 1 - i`. */
  function Reverse(s: seq<int>): (r: seq<int>)
    ensures |r| == |s|
    ensures forall i :: 0 <= i < |s| ==> r[i] == s[|s| - 1 - i]
  {
    if |s| == 0 then [] else [s[|s| - 1]] + Reverse(s[..|s| - 1])
  }

  /** The timestamp list of the bootstrap request, oldest first, in epoch seconds. */
  function SampleTimes(nowMs: int): (r: seq<int>)
    ensures |r| == SampleCount
  {
    Reverse(Countdown(EpochSeconds(nowMs)))
  }

  /** The request list has exactly 2880 entries; it starts 2879 strides before
      `now` and ends at `now`, rising by 30 seconds at every step. */
  lemma SampleTimesShape(nowMs: int)
    ensures var r := SampleTimes(nowMs);
            var now := EpochSeconds(nowMs);
            |r| == SampleCount
            && r[0] == now - (SampleCount - 1) * StrideSeconds
            && r[|r| - 1] == now
            && (forall j :: 0 <= j < |r| ==> r[j] == now - (SampleCount - 1 - j) * StrideSeconds)
            && (forall j :: 0 <= j < |r| - 1 ==> r[j + 1] == r[j] + StrideSeconds)
  {
  }

  /** The request list is strictly increasing, and all of it lies within the
      24 hours before `now`. */
  lemma SampleTimesIncreasing(nowMs: int)
    ensures var r := SampleTimes(nowMs);
            (forall i, j :: 0 <= i < j < |r| ==> r[i] < r[j])
            && (forall j :: 0 <= j < |r| ==> EpochSeconds(nowMs) - 24 * 60 * 60 < r[j] <= EpochSeconds(nowMs))
  {
    SampleTimesShape(nowMs);
    var r := SampleTimes(nowMs);
    var now := EpochSeconds(nowMs);
    forall i, j | 0 <= i < j < |r|
      ensures r[i] < r[j]
    {
      assert r[i] == now - (SampleCount - 1 - i) * StrideSeconds;
      assert r[j] == now - (SampleCount - 1 - j) * StrideSeconds;
    }
  }

  /** The server answered with one record per requested sample time, in order. */
  ghost predicate AnswersRequest(data: seq<PastRecord>, request: seq<int>)
  {
    |data| == |request| && forall i :: 0 <= i < |data| ==> data[i].timestamp == request[i]
  }

  /** When the server answers the request sample for sample, the bootstrap
      window holds 2880 entries, oldest first, 30 000 ms apart, the newest at
      the request's `now` (in whole seconds). */
  lemma BootstrapWindowShape(nowMs: int, data: seq<PastRecord>)
    requires AnswersRequest(data, SampleTimes(nowMs))
    ensures var w := FromRecords(data);
            |w| == SampleCount
            && w[|w| - 1].timestamp == EpochSeconds(nowMs) * 1000
            && (forall j :: 0 <= j < |w| - 1 ==> w[j + 1].timestamp == w[j].timestamp + StrideSeconds * 1000)
            && Chronological(w)
  {
    SampleTimesShape(nowMs);
    SampleTimesIncreasing(nowMs);
    var w := FromRecords(data);
    forall i, j | 0 <= i < j < |w|
      ensures w[i].timestamp <= w[j].timestamp
    {
      assert data[i].timestamp < data[j].timestamp;
    }
  }

  /** Such a bootstrap window survives a live prune whole while the live
      clock is less than 30 seconds past the bootstrap's whole second; from
      then on its oldest sample is older than 24 hours and is pruned. */
  lemma BootstrapSurvivesEarlyPrune(nowMs: int, data: seq<PastRecord>, pruneTime: int)
    requires AnswersRequest(data, SampleTimes(nowMs))
    ensures pruneTime < EpochSeconds(nowMs) * 1000 + StrideSeconds * 1000
            <==> Prune(FromRecords(data), Cutoff(pruneTime)) == FromRecords(data)
  {
    SampleTimesShape(nowMs);
    SampleTimesIncreasing(nowMs);
    var w := FromRecords(data);
    var now := EpochSeconds(nowMs);
    assert w[0].timestamp == (now - (SampleCount - 1) * StrideSeconds) * 1000;
    if pruneTime < now * 1000 + StrideSeconds * 1000 {
      forall i | 0 <= i < |w|
        ensures w[i].timestamp > Cutoff(pruneTime)
      {
        assert data[0].timestamp <= data[i].timestamp;
      }
      PruneAllFresh(w, Cutoff(pruneTime));
    } else {
      PruneKeepsExactly(w, Cutoff(pruneTime), w[0]);
      assert w[0] in w;
    }
  }
}
