/**
 * The attempt policy: how many matches make an acceptance, how many failures start a
 * cooldown, and when a cooldown ends.
 *
 * The class keeps three counters.  Its ghost log records every call and what it answered,
 * and the object invariant says what the counters mean in terms of that history.  The
 * theorems are about histories, so they hold for every sequence of calls.
 */
module AttemptPolicies {
  import opened RustInts
  import opened Wrappers

  datatype Config = Config(
    requiredConsecutiveMatchCount: u32,
    failureLimitBeforeCooldown: u32,
    cooldownDurationMs: i64,
    intruderSimilarityThreshold: real)
  {
    /** How many matches an acceptance costs: a limit of zero behaves like one. */
    function MatchesPerAcceptance(): nat {
      Max(1, requiredConsecutiveMatchCount)
    }

    /** How many failures start a cooldown: a limit of zero behaves like one. */
    function FailuresPerCooldown(): nat {
      Max(1, failureLimitBeforeCooldown)
    }
  }

  datatype State = State(matchCount: u32, failureCount: u32, cooldownUntil: Option<i64>)

  datatype Decision =
    | AuthenticationAccepted
    | NeedMoreConsecutiveMatches
    | MatchRejectedBelowThreshold
    | IntruderDetected
    | CooldownActivated

  /** One call of the policy together with what the policy made of it. */
  datatype Event =
    | CooldownQueried(time: i64, active: bool)
    | MatchRecorded(time: i64, accepted: bool)
    | FailureRecorded(time: i64, cooldownStarted: bool)
    | MatchesReset

  type Log = seq<Event>

  // ----- what a history means -----

  /** Events after which earlier matches no longer count. */
  predicate BreaksMatches(e: Event) {
    e.MatchesReset? || e.FailureRecorded? || (e.MatchRecorded? && e.accepted)
  }

  /** Where the current window of matches starts: just after the last breaking event. */
  function WindowStart(log: Log): (w: nat)
    ensures w <= |log|
  {
    if log == [] then 0
    else if BreaksMatches(log[|log| - 1]) then |log|
    else WindowStart(log[..|log| - 1])
  }

  function Matches(log: Log): nat {
    if log == [] then 0
    else Matches(log[..|log| - 1]) + if log[|log| - 1].MatchRecorded? then 1 else 0
  }

  function Acceptances(log: Log): nat {
    if log == [] then 0
    else Acceptances(log[..|log| - 1]) + if IsAcceptance(log[|log| - 1]) then 1 else 0
  }

  predicate IsAcceptance(e: Event) {
    e.MatchRecorded? && e.accepted
  }

  function Failures(log: Log): nat {
    if log == [] then 0
    else Failures(log[..|log| - 1]) + if log[|log| - 1].FailureRecorded? then 1 else 0
  }

  function PendingMatches(log: Log): nat {
    Matches(log[WindowStart(log)..])
  }

  /** End of the cooldown that is still stored after `log`, if any. */
  function CooldownEnd(config: Config, log: Log): Option<i64> {
    if log == [] then None
    else
      match log[|log| - 1]
      case FailureRecorded(time, true) => Some(WrappingAdd(time, config.cooldownDurationMs))
      case CooldownQueried(_, false) => None
      case _ => CooldownEnd(config, log[..|log| - 1])
  }

  /** Failures recorded since the last match or the last expired cooldown. */
  function FailureStreak(config: Config, log: Log): nat {
    if log == [] then 0
    else
      var before := log[..|log| - 1];
      match log[|log| - 1]
      case FailureRecorded(_, _) => FailureStreak(config, before) + 1
      case MatchRecorded(_, _) => 0
      case CooldownQueried(_, false) =>
        if CooldownEnd(config, before).Some? then 0 else FailureStreak(config, before)
      case _ => FailureStreak(config, before)
  }

  /** The answer recorded in `e` is the right one after the history `before`. */
  predicate RightAnswer(config: Config, before: Log, e: Event) {
    match e
    case CooldownQueried(time, active) =>
      active <==> CooldownEnd(config, before).Some? && time < CooldownEnd(config, before).value
    case MatchRecorded(_, accepted) =>
      accepted <==> PendingMatches(before) + 1 >= config.requiredConsecutiveMatchCount
    case FailureRecorded(_, started) =>
      started <==> FailureStreak(config, before) + 1 >= config.failureLimitBeforeCooldown
    case MatchesReset => true
  }

  /** A history that the policy can produce: every recorded answer is the right one. */
  predicate Faithful(config: Config, log: Log) {
    forall i {:trigger RightAnswer(config, log[..i], log[i])} ::
      0 <= i < |log| ==> RightAnswer(config, log[..i], log[i])
  }

  // ----- small facts about histories -----

  lemma {:induction false} MatchesSplit(log: Log, k: nat)
    requires k <= |log|
    ensures Matches(log) == Matches(log[..k]) + Matches(log[k..])
  {
    if k == |log| {
      assert log[..k] == log;
    } else {
      var last := |log| - 1;
      MatchesSplit(log[..last], k);
      assert log[..last][..k] == log[..k];
      assert log[k..][..last - k] == log[..last][k..];
    }
  }

  lemma {:induction false} NothingBreaksAWindow(log: Log, i: nat)
    requires WindowStart(log) <= i < |log|
    ensures !BreaksMatches(log[i])
  {
    var last := |log| - 1;
    if i < last {
      NothingBreaksAWindow(log[..last], i);
    }
  }

  lemma {:induction false} WindowStartIsAfterBreaks(log: Log, i: nat)
    requires i < |log| && BreaksMatches(log[i])
    ensures i < WindowStart(log)
  {
    var last := |log| - 1;
    if i < last && !BreaksMatches(log[last]) {
      WindowStartIsAfterBreaks(log[..last], i);
    }
  }

  lemma PendingMatchesStep(log: Log, e: Event)
    ensures PendingMatches(log + [e]) ==
            if BreaksMatches(e) then 0
            else PendingMatches(log) + if e.MatchRecorded? then 1 else 0
  {
    var after := log + [e];
    assert after[..|log|] == log;
    if !BreaksMatches(e) {
      var w := WindowStart(log);
      assert after[w..][..|log| - w] == log[w..];
    }
  }

  /** What one more event does to the three readings of a history. */
  lemma HistoryStep(log: Log, e: Event)
    ensures (log + [e])[..|log|] == log
    ensures PendingMatches(log + [e]) ==
            if BreaksMatches(e) then 0
            else PendingMatches(log) + if e.MatchRecorded? then 1 else 0
  {
    PendingMatchesStep(log, e);
  }

  lemma FaithfulPrefix(config: Config, log: Log, k: nat)
    requires Faithful(config, log) && k <= |log|
    ensures Faithful(config, log[..k])
  {
    forall i | 0 <= i < k ensures RightAnswer(config, log[..k][..i], log[..k][i]) {
      assert log[..k][..i] == log[..i];
    }
  }

  lemma FaithfulStep(config: Config, log: Log, e: Event)
    requires Faithful(config, log) && RightAnswer(config, log, e)
    ensures Faithful(config, log + [e])
  {
    var after := log + [e];
    forall i | 0 <= i < |after| ensures RightAnswer(config, after[..i], after[i]) {
      assert after[..i] == log[..i];
      assert log[..|log|] == log;
    }
  }

  // ----- acceptance windows -----

  /** The stored match count never reaches the number of matches an acceptance costs. */
  lemma {:induction false} PendingMatchesStayBelowCost(config: Config, log: Log)
    requires Faithful(config, log)
    ensures PendingMatches(log) < config.MatchesPerAcceptance()
  {
    if log != [] {
      var last := |log| - 1;
      assert log == log[..last] + [log[last]];
      assert RightAnswer(config, log[..last], log[last]);
      FaithfulPrefix(config, log, last);
      PendingMatchesStayBelowCost(config, log[..last]);
      PendingMatchesStep(log[..last], log[last]);
    }
  }

  /**
   * Exactly when a recorded match is an acceptance: when it is the match that completes
   * the cost, counted from the last failure, reset or acceptance; and the window it
   * completes holds nothing that breaks it.
   */
  lemma AcceptanceWindow(config: Config, log: Log, i: nat)
    requires Faithful(config, log) && i < |log| && log[i].MatchRecorded?
    ensures var w := WindowStart(log[..i]);
            && (log[i].accepted <==> Matches(log[w..i + 1]) == config.MatchesPerAcceptance())
            && (forall j :: w <= j < i ==> !BreaksMatches(log[j]))
            && (w == 0 || BreaksMatches(log[w - 1]))
  {
    var before := log[..i];
    var w := WindowStart(before);
    assert RightAnswer(config, before, log[i]);
    FaithfulPrefix(config, log, i);
    PendingMatchesStayBelowCost(config, before);
    assert log[w..i + 1][..i - w] == before[w..];
    forall j | w <= j < i ensures !BreaksMatches(log[j]) {
      NothingBreaksAWindow(before, j);
    }
    WindowStartFollowsABreak(before);
  }

  lemma {:induction false} WindowStartFollowsABreak(log: Log)
    ensures var w := WindowStart(log); w == 0 || BreaksMatches(log[w - 1])
  {
    if log != [] && !BreaksMatches(log[|log| - 1]) {
      WindowStartFollowsABreak(log[..|log| - 1]);
    }
  }

  /** The windows of two acceptances have no event in common. */
  lemma AcceptanceWindowsAreDisjoint(log: Log, i: nat, j: nat)
    requires i < j < |log| && IsAcceptance(log[i])
    ensures i < WindowStart(log[..j])
  {
    WindowStartIsAfterBreaks(log[..j], i);
  }

  /** Over any history each acceptance uses up its own matches. */
  lemma {:induction false} AcceptancesArePaidFor(config: Config, log: Log)
    requires Faithful(config, log)
    ensures Acceptances(log) * config.MatchesPerAcceptance() + PendingMatches(log) <= Matches(log)
  {
    if log != [] {
      var last := |log| - 1;
      var before, e := log[..last], log[last];
      assert log == before + [e];
      FaithfulPrefix(config, log, last);
      AcceptancesArePaidFor(config, before);
      PendingMatchesStep(before, e);
      if IsAcceptance(e) {
        AcceptanceCost(config, before, e);
        OneMore(Acceptances(before), config.MatchesPerAcceptance());
      }
    }
  }

  lemma AcceptanceCost(config: Config, before: Log, e: Event)
    requires Faithful(config, before + [e]) && IsAcceptance(e)
    ensures PendingMatches(before) + 1 == config.MatchesPerAcceptance()
  {
    var log := before + [e];
    var last := |before|;
    assert log[..last] == before;
    assert RightAnswer(config, log[..last], log[last]);
    FaithfulPrefix(config, log, last);
    PendingMatchesStayBelowCost(config, before);
  }

  lemma OneMore(n: nat, cost: nat)
    ensures (n + 1) * cost == n * cost + cost
  {
  }

  /** A stretch with enough matches and neither failure nor reset contains an acceptance. */
  lemma {:induction false} EnoughMatchesAreAccepted(config: Config, log: Log, a: nat, b: nat)
    requires Faithful(config, log) && a <= b <= |log|
    requires forall i :: a <= i < b ==> !log[i].FailureRecorded? && !log[i].MatchesReset?
    requires Matches(log[a..b]) >= config.MatchesPerAcceptance()
    ensures exists i :: a <= i < b && IsAcceptance(log[i])
  {
    if forall i :: a <= i < b ==> !IsAcceptance(log[i]) {
      QuietStretchKeepsMatches(log[..b], a);
      assert log[..b][a..] == log[a..b];
      FaithfulPrefix(config, log, b);
      PendingMatchesStayBelowCost(config, log[..b]);
    }
  }

  lemma {:induction false} QuietStretchKeepsMatches(log: Log, a: nat)
    requires a <= |log|
    requires forall i :: a <= i < |log| ==> !BreaksMatches(log[i])
    ensures PendingMatches(log) >= Matches(log[a..])
  {
    var w := WindowStart(log);
    WindowStartFollowsABreak(log);
    assert w <= a;
    MatchesSplit(log[w..], a - w);
    assert log[w..][a - w..] == log[a..];
  }

  // ----- the cooldown as a throttle -----

  predicate IsAttempt(e: Event) {
    e.MatchRecorded? || e.FailureRecorded?
  }

  /**
   * Every recorded attempt comes straight after a question about the cooldown, asked at the
   * same time and answered "not active".  The authenticator guarantees this.
   */
  predicate Guarded(log: Log) {
    forall i {:trigger GuardedAt(log, i)} :: 0 <= i < |log| ==> GuardedAt(log, i)
  }

  predicate GuardedAt(log: Log, i: nat)
    requires i < |log|
  {
    IsAttempt(log[i]) ==> 0 < i && log[i - 1] == CooldownQueried(log[i].time, false)
  }

  predicate TimesNeverGoBack(log: Log) {
    forall i, j :: 0 <= i <= j < |log| && !log[i].MatchesReset? && !log[j].MatchesReset? ==> log[i].time <= log[j].time
  }

  /** The times recorded in `log` lie in lo..hi and never go back. */
  predicate TimesWithin(log: Log, lo: int, hi: int) {
    && (forall i :: 0 <= i < |log| && !log[i].MatchesReset? ==> lo <= log[i].time <= hi)
    && TimesNeverGoBack(log)
  }

  /** An attempt meets no stored cooldown. */
  lemma NothingStoredAtAttempt(config: Config, log: Log, i: nat)
    requires Guarded(log) && i < |log| && IsAttempt(log[i])
    ensures CooldownEnd(config, log[..i]) == None
  {
    assert GuardedAt(log, i);
    assert log[..i][..i - 1] == log[..i - 1];
  }

  /** The cooldown that starts at `i` is stored up to `j`, unless a question in between found it over. */
  lemma {:induction false} CooldownStaysUntilOver(config: Config, log: Log, i: nat, j: nat)
    requires Faithful(config, log) && Guarded(log) && i < j <= |log|
    requires log[i].FailureRecorded? && log[i].cooldownStarted
    ensures var end := WrappingAdd(log[i].time, config.cooldownDurationMs);
            || CooldownEnd(config, log[..j]) == Some(end)
            || exists k :: i < k < j && log[k].CooldownQueried? && end <= log[k].time
  {
    var before, end := log[..j - 1], WrappingAdd(log[i].time, config.cooldownDurationMs);
    assert log[..j][..j - 1] == before;
    if i < j - 1 {
      CooldownStaysUntilOver(config, log, i, j - 1);
      if CooldownEnd(config, before) == Some(end) {
        assert RightAnswer(config, before, log[j - 1]);
        if IsAttempt(log[j - 1]) {
          NothingStoredAtAttempt(config, log, j - 1);
        }
      }
    }
  }

  /**
   * Nothing is accepted or counted during a cooldown: an attempt recorded after the failure
   * that started one is recorded at its end or later.
   */
  lemma NoAttemptDuringCooldown(config: Config, log: Log, i: nat, j: nat)
    requires Faithful(config, log) && Guarded(log) && TimesNeverGoBack(log) && i < j < |log|
    requires log[i].FailureRecorded? && log[i].cooldownStarted && IsAttempt(log[j])
    ensures WrappingAdd(log[i].time, config.cooldownDurationMs) <= log[j].time
  {
    CooldownStaysUntilOver(config, log, i, j);
    NothingStoredAtAttempt(config, log, j);
  }

  /** Without a stored cooldown the failures so far have not reached the limit. */
  lemma {:induction false} StreakBelowLimit(config: Config, log: Log)
    requires Faithful(config, log) && Guarded(log)
    ensures CooldownEnd(config, log) == None ==>
              FailureStreak(config, log) < config.FailuresPerCooldown()
  {
    if log != [] {
      var last := |log| - 1;
      var before := log[..last];
      FaithfulPrefix(config, log, last);
      GuardedPrefix(log, last);
      StreakBelowLimit(config, before);
      assert RightAnswer(config, before, log[last]);
      if IsAttempt(log[last]) {
        NothingStoredAtAttempt(config, log, last);
      }
    }
  }

  lemma GuardedPrefix(log: Log, k: nat)
    requires Guarded(log) && k <= |log|
    ensures Guarded(log[..k])
  {
    forall i | 0 <= i < k ensures GuardedAt(log[..k], i) {
      assert GuardedAt(log, i);
    }
  }

  // ----- which failure starts a cooldown -----

  /** Events after which earlier failures no longer count: a match, and a question that found a stored cooldown over. */
  predicate ForgetsFailures(config: Config, log: Log, k: nat)
    requires k < |log|
  {
    log[k].MatchRecorded? || (log[k].CooldownQueried? && !log[k].active && CooldownEnd(config, log[..k]).Some?)
  }

  /** From `s` on, and not from before, failures count towards the next cooldown. */
  predicate CountsFrom(config: Config, log: Log, s: nat, i: nat)
    requires i <= |log|
  {
    && s <= i && (s == 0 || ForgetsFailures(config, log, s - 1))
    && forall k :: s <= k < i ==> !ForgetsFailures(config, log, k)
  }

  lemma {:induction false} FailuresSinceForgetting(config: Config, log: Log, s: nat, i: nat)
    requires i <= |log| && CountsFrom(config, log, s, i)
    ensures FailureStreak(config, log[..i]) == Failures(log[s..i])
  {
    if s < i {
      var last := i - 1;
      assert log[..i][..last] == log[..last] && log[s..i][..last - s] == log[s..last];
      assert !ForgetsFailures(config, log, last);
      FailuresSinceForgetting(config, log, s, last);
    } else if s > 0 {
      assert log[..i][..i - 1] == log[..i - 1];
    }
  }

  /**
   * Exactly when a recorded failure starts a cooldown: when it brings the failures up to the
   * limit, counted from the last match or the last question that found a cooldown over.
   */
  lemma CooldownWindow(config: Config, log: Log, s: nat, i: nat)
    requires Faithful(config, log) && i < |log| && log[i].FailureRecorded? && CountsFrom(config, log, s, i)
    ensures log[i].cooldownStarted <==> Failures(log[s..i + 1]) >= config.FailuresPerCooldown()
  {
    FailuresSinceForgetting(config, log, s, i);
    assert RightAnswer(config, log[..i], log[i]);
    assert log[s..i + 1][..i - s] == log[s..i];
  }

  /** Every position has such a window in front of it. */
  lemma {:induction false} SomeWindowCounts(config: Config, log: Log, i: nat) returns (s: nat)
    requires i <= |log|
    ensures CountsFrom(config, log, s, i)
  {
    if i == 0 || ForgetsFailures(config, log, i - 1) {
      s := i;
    } else {
      s := SomeWindowCounts(config, log, i - 1);
    }
  }

  /** With a limit of two or more, the first failure after a match never starts a cooldown. */
  lemma FirstFailureAfterMatch(config: Config, log: Log, m: nat, i: nat)
    requires Faithful(config, log) && m < i < |log| && config.failureLimitBeforeCooldown >= 2
    requires log[m].MatchRecorded? && log[i].FailureRecorded?
    requires forall k :: m < k < i ==> !log[k].FailureRecorded?
    ensures !log[i].cooldownStarted
  {
    var s := SomeWindowCounts(config, log, i);
    assert ForgetsFailures(config, log, m);
    CooldownWindow(config, log, s, i);
    assert log[s..i + 1][..i - s] == log[s..i];
    NoFailures(log[s..i]);
  }

  lemma {:induction false} NoFailures(log: Log)
    requires forall k :: 0 <= k < |log| ==> !log[k].FailureRecorded?
    ensures Failures(log) == 0
  {
    if log != [] {
      NoFailures(log[..|log| - 1]);
    }
  }

  /**
   * In a guarded history a cooldown takes exactly as many failures as the limit says: there
   * are never more than that since the last match or cooldown that was found over.
   */
  lemma FailuresStayWithinLimit(config: Config, log: Log, s: nat, i: nat)
    requires Faithful(config, log) && Guarded(log) && i < |log| && log[i].FailureRecorded? && CountsFrom(config, log, s, i)
    ensures Failures(log[s..i + 1]) <= config.FailuresPerCooldown()
  {
    FailuresSinceForgetting(config, log, s, i);
    assert log[s..i + 1][..i - s] == log[s..i];
    NothingStoredAtAttempt(config, log, i);
    FaithfulPrefix(config, log, i);
    GuardedPrefix(log, i);
    StreakBelowLimit(config, log[..i]);
  }

  // ----- the throttle bound -----

  /** Failures that fit into a span: one cooldown's worth for every period begun in it. */
  function Budget(perCooldown: nat, d: int, span: int): (total: nat)
    requires d > 0
    decreases Max(0, span + 1)
  {
    if span < 0 then 0 else perCooldown + Budget(perCooldown, d, span - d)
  }

  lemma {:induction false} BudgetGrows(p: nat, d: int, narrow: int, wide: int)
    requires d > 0 && narrow <= wide
    ensures Budget(p, d, narrow) <= Budget(p, d, wide)
    decreases Max(0, wide + 1)
  {
    if narrow >= 0 {
      BudgetGrows(p, d, narrow - d, wide - d);
    }
  }

  lemma {:induction false} BudgetIsAProduct(p: nat, d: int, span: nat)
    requires d > 0
    ensures Budget(p, d, span) == p * (span / d + 1)
  {
    if span < d {
      assert span / d == 0;
    } else {
      BudgetIsAProduct(p, d, span - d);
      OnePeriodLess(p, d, span);
    }
  }

  lemma OnePeriodLess(p: nat, d: int, span: int)
    requires 0 < d <= span
    ensures p + p * ((span - d) / d + 1) == p * (span / d + 1)
  {
    QuotientOfOnePeriodLess(d, span);
    var q := span / d;
    assert p + p * q == p * (q + 1);
  }

  lemma QuotientOfOnePeriodLess(d: int, span: int)
    requires 0 < d <= span
    ensures (span - d) / d + 1 == span / d
  {
    var q := (span - d) / d;
    assert span - d == d * q + (span - d) % d;
    assert d * (q + 1) == d * q + d;
    QuotientIsUnique(d, span, q + 1);
  }

  lemma QuotientIsUnique(d: int, x: int, q: int)
    requires d > 0 && d * q <= x < d * q + d
    ensures x / d == q
  {
    var k := x / d;
    assert x == d * k + x % d;
    if k < q {
      TimesOneMore(d, k, q);
    }
    if q < k {
      TimesOneMore(d, q, k);
    }
  }

  lemma TimesOneMore(d: int, a: int, b: int)
    requires d > 0 && a < b
    ensures d * a + d <= d * b
  {
    var gap := b - a - 1;
    assert d * b == d * a + d + d * gap;
    assert d * gap >= 0;
  }

  lemma GuardedStep(log: Log, e: Event)
    requires Guarded(log)
    requires IsAttempt(e) ==> log != [] && log[|log| - 1] == CooldownQueried(e.time, false)
    ensures Guarded(log + [e])
  {
    forall i | 0 <= i < |log + [e]| ensures GuardedAt(log + [e], i) {
      if i < |log| {
        assert GuardedAt(log, i);
      }
    }
  }

  lemma LastAnswerIsRight(config: Config, log: Log, e: Event)
    requires Faithful(config, log + [e])
    ensures RightAnswer(config, log, e)
  {
    var after := log + [e];
    assert after[..|log|] == log;
    assert RightAnswer(config, after[..|log|], after[|log|]);
  }

  /** How many failures can still be recorded between lo and hi. */
  function Allowance(config: Config, streak: nat, until: Option<i64>, lo: int, hi: int): int
    requires config.cooldownDurationMs > 0
  {
    var perCooldown, d := config.FailuresPerCooldown(), config.cooldownDurationMs;
    match until
    case None => Budget(perCooldown, d, hi - lo) - streak
    case Some(u) => Budget(perCooldown, d, hi - Max(lo, u))
  }

  /** A failure that starts a cooldown gives back no more than a whole period later. */
  lemma StartingFailureStep(config: Config, lo: int, time: i64, hi: int)
    requires lo <= time <= hi
    requires config.cooldownDurationMs > 0 && hi + config.cooldownDurationMs <= I64_MAX
    ensures var p, d := config.FailuresPerCooldown(), config.cooldownDurationMs;
            Allowance(config, p - 1, None, lo, hi) >= 1 + Allowance(config, p, Some(WrappingAdd(time, d)), time, hi)
  {
    BudgetGrows(config.FailuresPerCooldown(), config.cooldownDurationMs, hi - time, hi - lo);
  }

  lemma LaterAllowance(config: Config, streak: nat, until: Option<i64>, lo: int, next: int, hi: int)
    requires lo <= next && config.cooldownDurationMs > 0
    ensures Allowance(config, streak, until, next, hi) <= Allowance(config, streak, until, lo, hi)
  {
    var p, d := config.FailuresPerCooldown(), config.cooldownDurationMs;
    match until
    case None => BudgetGrows(p, d, hi - next, hi - lo);
    case Some(u) => BudgetGrows(p, d, hi - Max(next, u), hi - Max(lo, u));
  }

  /** Recording one more event uses up the allowance it should. */
  lemma AllowanceStep(config: Config, log: Log, i: nat, lo: int, next: int, hi: int)
    requires Faithful(config, log) && Guarded(log) && i < |log| && !log[i].MatchRecorded?
    requires lo <= next <= hi && (log[i].MatchesReset? || next == log[i].time)
    requires config.cooldownDurationMs > 0 && hi + config.cooldownDurationMs <= I64_MAX
    ensures Allowance(config, FailureStreak(config, log[..i]), CooldownEnd(config, log[..i]), lo, hi) >=
            Allowance(config, FailureStreak(config, log[..i + 1]), CooldownEnd(config, log[..i + 1]), next, hi)
            + if log[i].FailureRecorded? then 1 else 0
  {
    var before, e := log[..i], log[i];
    assert log[..i + 1][..i] == before;
    assert RightAnswer(config, before, e);
    LaterAllowance(config, FailureStreak(config, before), CooldownEnd(config, before), lo, next, hi);
    if e.FailureRecorded? {
      FaithfulPrefix(config, log, i);
      GuardedPrefix(log, i);
      StreakBelowLimit(config, before);
      NothingStoredAtAttempt(config, log, i);
      if e.cooldownStarted {
        StartingFailureStep(config, lo, e.time, hi);
      }
    }
  }

  lemma {:induction false} FailuresWithinAllowance(config: Config, log: Log, a: nat, lo: int, hi: int)
    requires Faithful(config, log) && Guarded(log) && a <= |log|
    requires TimesWithin(log[a..], lo, hi) && lo <= hi
    requires forall i :: a <= i < |log| ==> !log[i].MatchRecorded?
    requires config.cooldownDurationMs > 0 && hi + config.cooldownDurationMs <= I64_MAX
    ensures Failures(log[a..]) <=
            Allowance(config, FailureStreak(config, log[..a]), CooldownEnd(config, log[..a]), lo, hi)
    decreases |log| - a
  {
    if a == |log| {
      assert log[..a] == log;
      StreakBelowLimit(config, log);
      BudgetGrows(config.FailuresPerCooldown(), config.cooldownDurationMs, 0, hi - lo);
    } else {
      var e := log[a];
      var next := if e.MatchesReset? then lo else e.time;
      FailuresHead(log[a..]);
      assert log[a..][1..] == log[a + 1..];
      TimesTail(log[a..], lo, hi);
      FailuresWithinAllowance(config, log, a + 1, next, hi);
      AllowanceStep(config, log, a, lo, next, hi);
    }
  }

  lemma TimesTail(log: Log, lo: int, hi: int)
    requires log != [] && TimesWithin(log, lo, hi)
    ensures TimesWithin(log[1..], if log[0].MatchesReset? then lo else log[0].time, hi)
  {
    forall i | 0 <= i < |log[1..]| && !log[1..][i].MatchesReset?
      ensures (if log[0].MatchesReset? then lo else log[0].time) <= log[1..][i].time <= hi
    {
      assert log[1..][i] == log[i + 1];
    }
  }

  lemma {:induction false} FailuresHead(log: Log)
    requires log != []
    ensures Failures(log) == Failures(log[1..]) + if log[0].FailureRecorded? then 1 else 0
  {
    var last := |log| - 1;
    if last > 0 {
      FailuresHead(log[..last]);
      assert log[..last][1..] == log[1..][..last - 1];
    }
  }

  /**
   * The throttle bound.  In any stretch of a guarded history whose times lie within an
   * interval of length T and which holds no match, at most L * (T / d + 1) failures are
   * recorded, where L is the failure limit (at least one) and d the cooldown duration.
   */
  lemma ThrottleBound(config: Config, log: Log, a: nat, b: nat, lo: int, hi: int)
    requires Faithful(config, log) && Guarded(log) && a <= b <= |log|
    requires lo <= hi && TimesWithin(log[a..b], lo, hi)
    requires forall i :: a <= i < b ==> !log[i].MatchRecorded?
    requires config.cooldownDurationMs > 0 && hi + config.cooldownDurationMs <= I64_MAX
    ensures Failures(log[a..b]) <=
            config.FailuresPerCooldown() * ((hi - lo) / config.cooldownDurationMs + 1)
  {
    var p, d := config.FailuresPerCooldown(), config.cooldownDurationMs;
    var shorter := log[..b];
    FaithfulPrefix(config, log, b);
    GuardedPrefix(log, b);
    assert shorter[a..] == log[a..b];
    FailuresWithinAllowance(config, shorter, a, lo, hi);
    var until := CooldownEnd(config, shorter[..a]);
    if until.Some? {
      BudgetGrows(p, d, hi - Max(lo, until.value), hi - lo);
    }
    BudgetIsAProduct(p, d, hi - lo);
  }

  // ----- the bound is reached -----

  /** `log` followed by one more guarded failure, with the answer the policy gives. */
  function WithFailure(config: Config, log: Log, time: i64): Log {
    var asked := log + [CooldownQueried(time, false)];
    asked + [FailureRecorded(time, FailureStreak(config, asked) + 1 >= config.failureLimitBeforeCooldown)]
  }

  /**
   * As many failures as possible: `failures` of them at `time`, after a full cooldown's
   * worth at time - d, at time - 2 * d, and so on, none earlier than `lo`.
   */
  function Barrage(config: Config, lo: i64, time: i64, failures: nat): Log
    requires config.cooldownDurationMs > 0
    decreases Max(0, time - lo), failures
  {
    if failures > 0 then
      WithFailure(config, Barrage(config, lo, time, failures - 1), time)
    else if lo <= time - config.cooldownDurationMs then
      Barrage(config, lo, time - config.cooldownDurationMs, config.FailuresPerCooldown())
    else []
  }

  lemma WithFailureCounts(config: Config, log: Log, time: i64)
    ensures var after := WithFailure(config, log, time);
            var streak := 1 + if CooldownEnd(config, log).Some? then 0 else FailureStreak(config, log);
            && Failures(after) == Failures(log) + 1 && Matches(after) == Matches(log)
            && FailureStreak(config, after) == streak
            && CooldownEnd(config, after) ==
               if streak >= config.failureLimitBeforeCooldown
               then Some(WrappingAdd(time, config.cooldownDurationMs)) else None
  {
    var asked := log + [CooldownQueried(time, false)];
    assert asked[..|log|] == log;
    var after := WithFailure(config, log, time);
    assert after[..|asked|] == asked;
  }

  lemma WithFailureIsProper(config: Config, log: Log, time: i64, lo: int)
    requires Faithful(config, log) && Guarded(log) && lo <= time && TimesWithin(log, lo, time)
    requires CooldownEnd(config, log).Some? ==> CooldownEnd(config, log).value <= time
    ensures var after := WithFailure(config, log, time);
            Faithful(config, after) && Guarded(after) && TimesWithin(after, lo, time)
  {
    var ask := CooldownQueried(time, false);
    var asked := log + [ask];
    FaithfulStep(config, log, ask);
    var after := WithFailure(config, log, time);
    FaithfulStep(config, asked, after[|asked|]);
    forall i | 0 <= i < |after| ensures GuardedAt(after, i) {
      if i < |log| {
        assert GuardedAt(log, i);
      }
    }
  }

  lemma OneMoreOfABurst(config: Config, log: Log, time: i64, nth: nat)
    requires config.cooldownDurationMs > 0 && time + config.cooldownDurationMs <= I64_MAX
    requires 1 <= nth <= config.FailuresPerCooldown()
    requires CooldownEnd(config, log) == None ==> FailureStreak(config, log) == nth - 1
    requires CooldownEnd(config, log).Some? ==> nth == 1
    ensures var after := WithFailure(config, log, time);
            && Failures(after) == Failures(log) + 1 && Matches(after) == Matches(log)
            && CooldownEnd(config, after) ==
               (if nth == config.FailuresPerCooldown() then Some(time + config.cooldownDurationMs) else None)
            && FailureStreak(config, after) == nth
  {
    WithFailureCounts(config, log, time);
  }

  lemma {:induction false} BarrageCounts(config: Config, lo: i64, time: i64, failures: nat)
    requires config.cooldownDurationMs > 0 && failures <= config.FailuresPerCooldown()
    requires lo <= time && time + config.cooldownDurationMs <= I64_MAX
    ensures var log, d, p := Barrage(config, lo, time, failures), config.cooldownDurationMs, config.FailuresPerCooldown();
            && Matches(log) == 0 && Failures(log) == failures + Budget(p, d, time - d - lo)
            && CooldownEnd(config, log) ==
               (if failures == p then Some(time + d)
                else if failures == 0 && lo <= time - d then Some(time) else None)
            && (CooldownEnd(config, log) == None ==> FailureStreak(config, log) == failures)
    decreases time - lo, failures
  {
    var d := config.cooldownDurationMs;
    if failures > 0 {
      BarrageCounts(config, lo, time, failures - 1);
      OneMoreOfABurst(config, Barrage(config, lo, time, failures - 1), time, failures);
    } else if lo <= time - d {
      BarrageCounts(config, lo, time - d, config.FailuresPerCooldown());
    }
  }

  lemma {:induction false} BarrageIsProper(config: Config, lo: i64, time: i64, failures: nat)
    requires config.cooldownDurationMs > 0 && failures <= config.FailuresPerCooldown()
    requires lo <= time && time + config.cooldownDurationMs <= I64_MAX
    ensures var log := Barrage(config, lo, time, failures);
            Faithful(config, log) && Guarded(log) && TimesWithin(log, lo, time)
    decreases time - lo, failures
  {
    var d := config.cooldownDurationMs;
    if failures > 0 {
      BarrageIsProper(config, lo, time, failures - 1);
      BarrageCounts(config, lo, time, failures - 1);
      WithFailureIsProper(config, Barrage(config, lo, time, failures - 1), time, lo);
    } else if lo <= time - d {
      BarrageIsProper(config, lo, time - d, config.FailuresPerCooldown());
    }
  }

  /** The throttle bound is exact: some history records that many failures in the interval. */
  lemma ThrottleBoundIsReached(config: Config, lo: i64, hi: i64) returns (log: Log)
    requires lo <= hi && config.cooldownDurationMs > 0 && hi + config.cooldownDurationMs <= I64_MAX
    ensures Faithful(config, log) && Guarded(log) && TimesWithin(log, lo, hi) && Matches(log) == 0
    ensures Failures(log) ==
            config.FailuresPerCooldown() * ((hi - lo) / config.cooldownDurationMs + 1)
  {
    log := Barrage(config, lo, hi, config.FailuresPerCooldown());
    BarrageIsProper(config, lo, hi, config.FailuresPerCooldown());
    BarrageCounts(config, lo, hi, config.FailuresPerCooldown());
    BudgetIsAProduct(config.FailuresPerCooldown(), config.cooldownDurationMs, hi - lo);
  }

  /**
   * A cooldown that starts at `time` ends later exactly when the sum fits into an i64.
   * When it wraps, the cooldown is over before it begins.
   */
  lemma CooldownLastsUnlessTheClockOverflows(config: Config, log: Log, i: nat)
    requires Faithful(config, log) && config.cooldownDurationMs > 0
    requires i < |log| && log[i].FailureRecorded? && log[i].cooldownStarted
    ensures var after := CooldownEnd(config, log[..i + 1]);
            after.Some? && (log[i].time < after.value <==> log[i].time + config.cooldownDurationMs <= I64_MAX)
  {
    assert log[..i + 1][i] == log[i];
  }

  /** Failures and questions about the cooldown by turns, all at the last instant of the clock. */
  function Hammering(n: nat): Log {
    if n == 0 then [] else Hammering(n - 1) + [CooldownQueried(I64_MAX, false), FailureRecorded(I64_MAX, true)]
  }

  /**
   * What overflow does to the bound: at the last instant of the clock, where no cooldown
   * fits, any number of failures can be recorded, each of them starting a cooldown.
   */
  lemma {:induction false} NoThrottleAtTheEndOfTime(config: Config, n: nat)
    requires config.cooldownDurationMs > 0 && config.FailuresPerCooldown() == 1
    ensures var log := Hammering(n);
            && Faithful(config, log) && Guarded(log) && TimesWithin(log, I64_MAX, I64_MAX)
            && Matches(log) == 0 && Failures(log) == n
  {
    if n > 0 {
      NoThrottleAtTheEndOfTime(config, n - 1);
      OneMoreBlow(config, Hammering(n - 1));
    }
  }

  lemma OneMoreBlow(config: Config, before: Log)
    requires config.cooldownDurationMs > 0 && config.FailuresPerCooldown() == 1
    requires Faithful(config, before) && Guarded(before) && TimesWithin(before, I64_MAX, I64_MAX)
    ensures var after := before + [CooldownQueried(I64_MAX, false), FailureRecorded(I64_MAX, true)];
            && Faithful(config, after) && Guarded(after) && TimesWithin(after, I64_MAX, I64_MAX)
            && Matches(after) == Matches(before) && Failures(after) == Failures(before) + 1
  {
    var ask, fail := CooldownQueried(I64_MAX, false), FailureRecorded(I64_MAX, true);
    FaithfulStep(config, before, ask);
    FaithfulStep(config, before + [ask], fail);
    assert before + [ask, fail] == before + [ask] + [fail];
    assert (before + [ask] + [fail])[..|before| + 1] == before + [ask] && (before + [ask])[..|before|] == before;
    forall i | 0 <= i < |before| ensures GuardedAt(before + [ask, fail], i) {
      assert GuardedAt(before, i);
    }
  }

  // ----- the policy object -----

  /** The counters that the history `log` leaves behind. */
  ghost function StateAfter(config: Config, log: Log): State
    requires Faithful(config, log)
  {
    PendingMatchesStayBelowCost(config, log);
    State(PendingMatches(log), Min(FailureStreak(config, log), U32_MAX), CooldownEnd(config, log))
  }

  /** Asking about the cooldown changes nothing, unless a stored cooldown is over. */
  lemma QueryOnlyClears(config: Config, before: Log, after: Log, time: i64)
    requires Faithful(config, before) && Faithful(config, after)
    requires after == before || exists active :: after == before + [CooldownQueried(time, active)]
    ensures var was := StateAfter(config, before);
            StateAfter(config, after) ==
            if after != before && was.cooldownUntil.Some? && was.cooldownUntil.value <= time
            then State(was.matchCount, 0, None) else was
  {
    if active :| after == before + [CooldownQueried(time, active)] {
      HistoryStep(before, CooldownQueried(time, active));
      LastAnswerIsRight(config, before, CooldownQueried(time, active));
    }
  }

  class AttemptPolicy {
    const config: Config
    var state: State
    ghost var log: Log

    ghost predicate Valid()
      reads this
    {
      Faithful(config, log) && state == StateAfter(config, log)
    }

    constructor (config: Config)
      ensures Valid() && this.config == config && log == []
    {
      this.config := config;
      state := State(0, 0, None);
      log := [];
    }

    method CooldownIsActive(currentTime: i64) returns (active: bool)
      requires Valid()
      modifies this
      ensures Valid() && log == old(log) + [CooldownQueried(currentTime, active)]
    {
      match state.cooldownUntil {
        case Some(until) =>
          if currentTime < until {
            active := true;
          } else {
            state := state.(cooldownUntil := None, failureCount := 0);
            active := false;
          }
        case None =>
          active := false;
      }
      HistoryStep(log, CooldownQueried(currentTime, active));
      Record(CooldownQueried(currentTime, active));
    }

    method RecordMatchResult(matchThresholdPassed: bool, isIntruder: bool, currentTime: i64)
      returns (decision: Decision)
      requires Valid()
      modifies this
      ensures Valid()
      ensures matchThresholdPassed ==>
                && decision in {AuthenticationAccepted, NeedMoreConsecutiveMatches}
                && log == old(log) + [MatchRecorded(currentTime, decision == AuthenticationAccepted)]
      ensures !matchThresholdPassed ==>
                && log == old(log) + [FailureRecorded(currentTime, decision == CooldownActivated)]
                && (decision == CooldownActivated
                    || decision == if isIntruder then IntruderDetected else MatchRejectedBelowThreshold)
    {
      if !matchThresholdPassed {
        decision := RecordFailedAttempt(currentTime);
        if decision != CooldownActivated && isIntruder {
          return IntruderDetected;
        }
        return;
      }
      state := state.(failureCount := 0, matchCount := SaturatingIncrement(state.matchCount));
      if state.matchCount >= config.requiredConsecutiveMatchCount {
        state := state.(matchCount := 0);
        decision := AuthenticationAccepted;
      } else {
        decision := NeedMoreConsecutiveMatches;
      }
      HistoryStep(log, MatchRecorded(currentTime, decision == AuthenticationAccepted));
      Record(MatchRecorded(currentTime, decision == AuthenticationAccepted));
    }

    method RecordFailedAttempt(currentTime: i64) returns (decision: Decision)
      requires Valid()
      modifies this
      ensures Valid() && log == old(log) + [FailureRecorded(currentTime, decision == CooldownActivated)]
      ensures decision in {CooldownActivated, MatchRejectedBelowThreshold}
    {
      state := state.(matchCount := 0, failureCount := SaturatingIncrement(state.failureCount));
      if state.failureCount >= config.failureLimitBeforeCooldown {
        state := state.(cooldownUntil := Some(WrappingAdd(currentTime, config.cooldownDurationMs)));
        decision := CooldownActivated;
      } else {
        decision := MatchRejectedBelowThreshold;
      }
      HistoryStep(log, FailureRecorded(currentTime, decision == CooldownActivated));
      Record(FailureRecorded(currentTime, decision == CooldownActivated));
    }

    method ResetConsecutiveMatches()
      requires Valid()
      modifies this
      ensures Valid() && log == old(log) + [MatchesReset]
    {
      state := state.(matchCount := 0);
      HistoryStep(log, MatchesReset);
      Record(MatchesReset);
    }

    /** Appends a rightly answered event to the history; the counters must already agree. */
    ghost method Record(e: Event)
      requires Faithful(config, log) && RightAnswer(config, log, e)
      requires Faithful(config, log + [e]) ==> state == StateAfter(config, log + [e])
      modifies this`log
      ensures Valid() && log == old(log) + [e]
    {
      FaithfulStep(config, log, e);
      log := log + [e];
    }
  }
}
