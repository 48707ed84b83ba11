/**
 * The calibration report's prediction of whether a sequence of scores would authenticate,
 * and its agreement with what the attempt policy does on the same scores.
 */
module Calibration {
  import opened RustInts
  import opened AttemptPolicies

  /** The `k` scores from position `a` on all reach the threshold. */
  predicate RunAt(scores: seq<real>, threshold: real, a: nat, k: nat) {
    a + k <= |scores| && forall i :: a <= i < a + k ==> scores[i] >= threshold
  }

  /** Somewhere `k` scores in a row reach the threshold. */
  ghost predicate HasRun(scores: seq<real>, threshold: real, k: nat) {
    exists a: nat :: RunAt(scores, threshold, a, k)
  }

  /** `n` is the length of the longest run of passing scores, as far as a u32 can count. */
  ghost predicate IsLongestRun(scores: seq<real>, threshold: real, n: u32) {
    && HasRun(scores, threshold, n)
    && (forall k: nat :: k <= U32_MAX && HasRun(scores, threshold, k) ==> k <= n)
  }

  method LongestConsecutivePassCount(scores: seq<real>, threshold: real) returns (longest: u32)
    ensures IsLongestRun(scores, threshold, longest)
  {
    longest := 0;
    var current: u32 := 0;
    assert RunAt(scores, threshold, 0, 0);
    for i := 0 to |scores|
      invariant current <= i && RunAt(scores, threshold, i - current, current)
      invariant current < U32_MAX && current < i ==> scores[i - current - 1] < threshold
      invariant current <= longest && HasRun(scores, threshold, longest)
      invariant forall a: nat, k: nat :: a + k <= i && RunAt(scores, threshold, a, k) ==> Min(k, U32_MAX) <= longest
    {
      var before := longest;
      if scores[i] >= threshold {
        current := SaturatingIncrement(current);
        assert RunAt(scores, threshold, i + 1 - current, current);
        longest := Max(longest, current);
      } else {
        current := 0;
      }
      forall a: nat, k: nat | a + k <= i + 1 && RunAt(scores, threshold, a, k)
        ensures Min(k, U32_MAX) <= longest
      {
        if a + k <= i {
          assert Min(k, U32_MAX) <= before;
        } else if k > 0 {
          assert scores[i] >= threshold;
        }
      }
    }
  }

  /** The report's verdict for one threshold. */
  method SequenceAuthWouldPass(scores: seq<real>, threshold: real, requiredConsecutiveMatchCount: u32)
    returns (wouldPass: bool)
    ensures wouldPass <==> HasRun(scores, threshold, requiredConsecutiveMatchCount)
  {
    var longest := LongestConsecutivePassCount(scores, threshold);
    wouldPass := longest >= requiredConsecutiveMatchCount;
    if wouldPass {
      ShorterRun(scores, threshold, longest, requiredConsecutiveMatchCount);
    }
  }

  lemma ShorterRun(scores: seq<real>, threshold: real, k: nat, m: nat)
    requires m <= k && HasRun(scores, threshold, k)
    ensures HasRun(scores, threshold, m)
  {
    var a: nat :| RunAt(scores, threshold, a, k);
    assert RunAt(scores, threshold, a, m);
  }

  /** Raising the threshold never lengthens the longest run. */
  lemma LongestRunShrinksAsThresholdRises(scores: seq<real>, low: real, high: real, atLow: u32, atHigh: u32)
    requires low <= high
    requires IsLongestRun(scores, low, atLow) && IsLongestRun(scores, high, atHigh)
    ensures atHigh <= atLow
  {
    var a: nat :| RunAt(scores, high, a, atHigh);
    assert RunAt(scores, low, a, atHigh);
    assert HasRun(scores, low, atHigh);
  }

  // ----- the same scores, fed to the policy -----

  /** `log` records the policy being given the scores one by one, judged by `threshold`. */
  predicate Plays(log: Log, scores: seq<real>, threshold: real) {
    && |log| == |scores|
    && forall i :: 0 <= i < |log| ==>
                     if scores[i] >= threshold then log[i].MatchRecorded? else log[i].FailureRecorded?
  }

  /** A fresh policy given the scores at the given times. */
  function Replay(config: Config, scores: seq<real>, threshold: real, times: seq<i64>): (log: Log)
    requires |times| == |scores|
  {
    if scores == [] then []
    else
      var last := |scores| - 1;
      var before := Replay(config, scores[..last], threshold, times[..last]);
      before + [if scores[last] >= threshold
                then MatchRecorded(times[last], PendingMatches(before) + 1 >= config.requiredConsecutiveMatchCount)
                else FailureRecorded(times[last], FailureStreak(config, before) + 1 >= config.failureLimitBeforeCooldown)]
  }

  lemma {:induction false} ReplayIsAHistory(config: Config, scores: seq<real>, threshold: real, times: seq<i64>)
    requires |times| == |scores|
    ensures var log := Replay(config, scores, threshold, times);
            Faithful(config, log) && Plays(log, scores, threshold)
  {
    if scores != [] {
      var last := |scores| - 1;
      ReplayIsAHistory(config, scores[..last], threshold, times[..last]);
      var log := Replay(config, scores, threshold, times);
      FaithfulStep(config, log[..last], log[last]);
      assert log == log[..last] + [log[last]];
    }
  }

  lemma {:induction false} EveryEventAMatch(log: Log)
    requires forall i :: 0 <= i < |log| ==> log[i].MatchRecorded?
    ensures Matches(log) == |log|
  {
    if log != [] {
      EveryEventAMatch(log[..|log| - 1]);
    }
  }

  /** The policy accepts somewhere along the scores exactly when a long enough run exists. */
  lemma PolicyAcceptsExactlyOnARun(config: Config, log: Log, scores: seq<real>, threshold: real)
    requires Faithful(config, log) && Plays(log, scores, threshold)
    ensures (exists i :: 0 <= i < |log| && IsAcceptance(log[i])) <==>
            HasRun(scores, threshold, config.MatchesPerAcceptance())
  {
    var cost := config.MatchesPerAcceptance();
    if i :| 0 <= i < |log| && IsAcceptance(log[i]) {
      AcceptanceWindow(config, log, i);
      var w := WindowStart(log[..i]);
      forall j | w <= j < i + 1 ensures log[j].MatchRecorded? {
        assert j < i ==> !BreaksMatches(log[j]);
      }
      EveryEventAMatch(log[w..i + 1]);
      assert RunAt(scores, threshold, w, cost);
    }
    if HasRun(scores, threshold, cost) {
      var a: nat :| RunAt(scores, threshold, a, cost);
      EveryEventAMatch(log[a..a + cost]);
      EnoughMatchesAreAccepted(config, log, a, a + cost);
    }
  }

  lemma RunOfOne(scores: seq<real>, threshold: real)
    ensures HasRun(scores, threshold, 1) <==> exists i :: 0 <= i < |scores| && scores[i] >= threshold
  {
    if i :| 0 <= i < |scores| && scores[i] >= threshold {
      assert RunAt(scores, threshold, i, 1);
    }
    if HasRun(scores, threshold, 1) {
      var a: nat :| RunAt(scores, threshold, a, 1);
      assert scores[a] >= threshold;
    }
  }

  /**
   * When the report's prediction is what the policy does: for every required count of at
   * least one, and for a required count of zero only if some score passes at all.
   */
  lemma ReportAgreesWithPolicy(config: Config, log: Log, scores: seq<real>, threshold: real, longest: u32)
    requires Faithful(config, log) && Plays(log, scores, threshold)
    requires IsLongestRun(scores, threshold, longest)
    ensures (longest >= config.requiredConsecutiveMatchCount <==>
             exists i :: 0 <= i < |log| && IsAcceptance(log[i]))
            <==> (config.requiredConsecutiveMatchCount >= 1 || exists i :: 0 <= i < |scores| && scores[i] >= threshold)
  {
    PolicyAcceptsExactlyOnARun(config, log, scores, threshold);
    var cost := config.MatchesPerAcceptance();
    if longest >= cost {
      ShorterRun(scores, threshold, longest, cost);
    }
    RunOfOne(scores, threshold);
  }

  /**
   * The disagreement: asked for no consecutive match at all, the report predicts success for
   * scores that all fail, and the policy, given those scores, accepts none of them.
   */
  lemma ZeroRequiredDisagrees(config: Config, scores: seq<real>, threshold: real, times: seq<i64>) returns (log: Log)
    requires config.requiredConsecutiveMatchCount == 0 && |times| == |scores|
    requires forall i :: 0 <= i < |scores| ==> scores[i] < threshold
    ensures Faithful(config, log) && Plays(log, scores, threshold)
    ensures HasRun(scores, threshold, config.requiredConsecutiveMatchCount)
    ensures !exists i :: 0 <= i < |log| && IsAcceptance(log[i])
  {
    log := Replay(config, scores, threshold, times);
    ReplayIsAHistory(config, scores, threshold, times);
    assert RunAt(scores, threshold, 0, 0);
    PolicyAcceptsExactlyOnARun(config, log, scores, threshold);
    RunOfOne(scores, threshold);
  }

  /** One such input: a single score below the threshold, and a required count of zero. */
  lemma ZeroRequiredExample() returns (log: Log)
    ensures var config := Config(0, 3, 30000, 0.3);
            && Faithful(config, log) && Plays(log, [0.5], 0.65)
            && HasRun([0.5], 0.65, 0) && !exists i :: 0 <= i < |log| && IsAcceptance(log[i])
  {
    log := ZeroRequiredDisagrees(Config(0, 3, 30000, 0.3), [0.5], 0.65, [0]);
  }
}
