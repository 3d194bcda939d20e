// How long a gate waits (_compute_effective_timeout) and how it waits (_poll_for_decision),
// agent/src/hooks.py.
module ApprovalTimeout {
  import opened Wrappers
  import PolicyTiers

  const FLOOR_30S: int := PolicyTiers.FLOOR_TIMEOUT_S
  const CLEANUP_MARGIN_120S: int := 120

  // ---------------------------------------------------------------- the effective timeout

  datatype Clip = Unclipped | RuleAnnotation | LifetimeCeiling

  method ComputeEffectiveTimeout(decision: Option<int>, taskDefault: int, remaining: Option<int>)
    returns (effective: int, clip: Clip, requested: int)
    ensures (effective, clip, requested) == EffectiveTimeout(decision, taskDefault, remaining)
  {
    requested := taskDefault;
    var value := if decision.Some? then decision.value else taskDefault;
    effective, clip := value, Unclipped;
    if value < requested { clip := RuleAnnotation; }
    if remaining.Some? {
      var ceiling := remaining.value - CLEANUP_MARGIN_120S;
      if ceiling < effective { effective, clip := ceiling, LifetimeCeiling; }
    }
    if effective < FLOOR_30S { effective := FLOOR_30S; }
  }

  // What the gate would like, before the lifetime and the floor have their say.
  function Asked(decision: Option<int>, taskDefault: int): int {
    if decision.Some? then decision.value else taskDefault
  }

  function EffectiveTimeout(decision: Option<int>, taskDefault: int, remaining: Option<int>): (int, Clip, int) {
    var asked := Asked(decision, taskDefault);
    var bounded := if remaining.Some? && remaining.value - CLEANUP_MARGIN_120S < asked
                   then remaining.value - CLEANUP_MARGIN_120S else asked;
    (if bounded < FLOOR_30S then FLOOR_30S else bounded,
     if bounded < asked then LifetimeCeiling else if asked < taskDefault then RuleAnnotation else Unclipped,
     taskDefault)
  }

  // The hook refuses the gate when even the floor would not fit in the lifetime that is left.
  predicate Fits(remaining: Option<int>) {
    remaining.Some? ==> remaining.value - CLEANUP_MARGIN_120S >= FLOOR_30S
  }

  // From the matching rules to the row: a gate that is written waits at least the floor, at most
  // the task default and every matching annotation, and leaves the cleanup margin; the reported
  // reason names the bound that binds.
  lemma {:induction false} WrittenGateBounds(asked: seq<int>, taskDefault: int, merged: int, remaining: Option<int>)
    requires taskDefault >= FLOOR_30S && (forall t :: t in asked ==> t >= FLOOR_30S)
    requires PolicyTiers.IsTightest(asked + [taskDefault], merged) && Fits(remaining)
    ensures var (effective, clip, _) := EffectiveTimeout(Some(merged), taskDefault, remaining);
            && FLOOR_30S <= effective <= taskDefault
            && (forall t :: t in asked ==> effective <= t)
            && (remaining.Some? ==> effective + CLEANUP_MARGIN_120S <= remaining.value)
            && (clip == Unclipped <==> effective == taskDefault)
            && (clip == LifetimeCeiling <==>
                  remaining.Some? && effective + CLEANUP_MARGIN_120S == remaining.value &&
                  effective < taskDefault && forall t :: t in asked ==> effective < t)
            && (clip == RuleAnnotation <==> effective < taskDefault && effective in asked)
  {
    assert taskDefault in asked + [taskDefault];
    assert forall t :: t in asked ==> t in asked + [taskDefault];
  }

  // The task default bounds what a gate waits if and only if it is itself at least the floor. The
  // constructor does not check its task_default_timeout_s against the floor: with 29, say, every
  // gate waits longer than the default, whatever rules matched and however much lifetime is left.
  lemma {:induction false} DefaultBoundsTimeoutIffAboveFloor(asked: seq<int>, taskDefault: int, merged: int,
                                                             remaining: Option<int>)
    requires PolicyTiers.IsTightest(asked + [taskDefault], merged)
    ensures EffectiveTimeout(Some(merged), taskDefault, remaining).0 <= taskDefault <==> taskDefault >= FLOOR_30S
  {
    assert taskDefault in asked + [taskDefault];
  }

  // ---------------------------------------------------------------- the poll

  const POLL_FAST_INTERVAL_S := 2.0
  const POLL_FAST_DURATION_S := 30.0
  const POLL_SLOW_INTERVAL_S := 5.0
  const POLL_DEGRADED_FAILS := 3
  const POLL_MAX_CONSECUTIVE_FAILS := 10

  datatype Reply = Failed | Missing | Pending | TimedOutRow | Approved(scope: string) | Denied(reason: string)

  datatype Outcome = GrantedAs(scope: string) | RefusedFor(reason: string) | TimedOut | PollFailed

  predicate Decisive(r: Reply) {
    r.Approved? || r.Denied?
  }

  function OutcomeOf(r: Reply): Outcome
    requires Decisive(r)
  {
    match r
    case Approved(scope) => GrantedAs(scope)
    case Denied(reason) => RefusedFor(if reason == "" then "denied" else reason)
  }

  function Ceil(x: real): int {
    -((-x).Floor)
  }

  // How many reads can still start when the loop is entered `elapsed` seconds into a poll that
  // ends `span` seconds after its start.
  function ReadsLeft(elapsed: real, span: real): int {
    if elapsed >= span then 0
    else if elapsed >= POLL_FAST_DURATION_S then Ceil((span - elapsed) / POLL_SLOW_INTERVAL_S)
    else
      var fast := if span < POLL_FAST_DURATION_S then span else POLL_FAST_DURATION_S;
      Ceil((fast - elapsed) / POLL_FAST_INTERVAL_S) + Ceil((span - fast) / POLL_SLOW_INTERVAL_S)
  }

  predicate NoneDecisive(replies: seq<Reply>) {
    forall r :: r in replies ==> !Decisive(r)
  }

  function TrailingFails(replies: seq<Reply>): nat {
    if replies == [] || replies[|replies| - 1] != Failed then 0 else 1 + TrailingFails(replies[..|replies| - 1])
  }

  function EverDegraded(replies: seq<Reply>): bool {
    replies != [] && (TrailingFails(replies) >= POLL_DEGRADED_FAILS || EverDegraded(replies[..|replies| - 1]))
  }

  // n reads in a row failed, the i-th first.
  predicate FailedRun(replies: seq<Reply>, i: nat, n: nat) {
    i + n <= |replies| && forall j :: i <= j < i + n ==> replies[j] == Failed
  }

  lemma {:induction false} TrailingFailsAre(replies: seq<Reply>, n: nat)
    requires n <= |replies|
    ensures TrailingFails(replies) <= |replies|
    ensures n <= TrailingFails(replies) <==> FailedRun(replies, |replies| - n, n)
  {
    if replies != [] {
      TrailingFailsAre(replies[..|replies| - 1], if n == 0 then 0 else n - 1);
    }
  }

  lemma {:induction false} EverDegradedIs(replies: seq<Reply>)
    ensures EverDegraded(replies) <==> exists i: nat :: FailedRun(replies, i, POLL_DEGRADED_FAILS)
  {
    if replies != [] {
      var n, front := |replies|, replies[..|replies| - 1];
      EverDegradedIs(front);
      assert forall i: nat :: FailedRun(front, i, 3) ==> FailedRun(replies, i, 3);
      assert forall i: nat :: FailedRun(replies, i, 3) && i + 3 < n ==> FailedRun(front, i, 3);
      TrailingFailsAre(replies, 0);
      if n >= 3 {
        TrailingFailsAre(replies, 3);
      }
    }
  }

  lemma {:induction false} FailsInARow(replies: seq<Reply>)
    ensures TrailingFails(replies) >= POLL_MAX_CONSECUTIVE_FAILS <==>
            |replies| >= 10 && FailedRun(replies, |replies| - 10, 10)
    ensures EverDegraded(replies) <==> exists i: nat :: FailedRun(replies, i, 3)
  {
    hide TrailingFails, EverDegraded;
    EverDegradedIs(replies);
    TrailingFailsAre(replies, 0);
    if |replies| >= 10 {
      TrailingFailsAre(replies, 10);
    }
  }

  ghost predicate Concludes(outcome: Outcome, replies: seq<Reply>) {
    && (outcome.PollFailed? <==> TrailingFails(replies) >= POLL_MAX_CONSECUTIVE_FAILS)
    && if outcome.TimedOut? || outcome.PollFailed? then NoneDecisive(replies)
       else replies != [] && NoneDecisive(replies[..|replies| - 1]) && Decisive(replies[|replies| - 1])
            && outcome == OutcomeOf(replies[|replies| - 1])
  }

  // Only the last reply can carry a decision, and if it does it is the outcome.
  lemma {:induction false} LastReplyDecides(outcome: Outcome, replies: seq<Reply>)
    requires Concludes(outcome, replies)
    ensures forall i :: 0 <= i < |replies| - 1 ==> !replies[i].Approved? && !replies[i].Denied?
    ensures outcome.GrantedAs? <==> replies != [] && replies[|replies| - 1].Approved?
    ensures outcome.RefusedFor? <==> replies != [] && replies[|replies| - 1].Denied?
    ensures outcome.GrantedAs? ==> outcome.scope == replies[|replies| - 1].scope
    ensures outcome.RefusedFor? ==>
              outcome.reason == if replies[|replies| - 1].reason == "" then "denied" else replies[|replies| - 1].reason
  {
    forall i | 0 <= i < |replies| - 1 ensures !Decisive(replies[i]) {
      assert replies[i] in replies && replies[i] in replies[..|replies| - 1];
    }
    if replies != [] {
      assert replies[|replies| - 1] in replies;
    }
  }

  function Min(x: real, y: real): real {
    if x < y then x else y
  }

  function Max(x: real, y: real): real {
    if x > y then x else y
  }

  function Interval(elapsed: real): real {
    if elapsed < POLL_FAST_DURATION_S then POLL_FAST_INTERVAL_S else POLL_SLOW_INTERVAL_S
  }

  // A read started at `elapsed` and the sleep after it use up one of the reads that were left.
  lemma {:induction false} OneReadLess(elapsed: real, asleep: real, next: real, span: real)
    requires 0.0 <= elapsed < span && elapsed <= asleep < span
    requires next >= span || next >= asleep + Interval(asleep)
    ensures 0 <= ReadsLeft(next, span) < ReadsLeft(elapsed, span)
  {
  }

  lemma {:induction false} AtMostAllReads(lag: real, timeout: int)
    requires lag >= 0.0 && timeout >= FLOOR_30S
    ensures 0 <= ReadsLeft(0.0, timeout as real - lag) <= 15 + Ceil((timeout as real - 30.0) / 5.0)
  {
  }

  lemma {:induction false} NoReplies()
    ensures NoneDecisive([]) && TrailingFails([]) == 0 && !EverDegraded([])
  {
  }

  lemma {:induction false} OneMoreReply(replies: seq<Reply>, r: Reply)
    ensures (replies + [r])[..|replies + [r]| - 1] == replies
    ensures NoneDecisive(replies + [r]) <==> NoneDecisive(replies) && !Decisive(r)
    ensures TrailingFails(replies + [r]) == if r == Failed then TrailingFails(replies) + 1 else 0
    ensures EverDegraded(replies + [r]) <==>
            EverDegraded(replies) || TrailingFails(replies + [r]) >= POLL_DEGRADED_FAILS
  {
    assert (replies + [r])[..|replies|] == replies;
  }

  // A sleep: when it is asked for, on the clock the deadline is on, and for how long.
  datatype Nap = Nap(at: real, length: real)

  // Two seconds in the first thirty of the poll and five after that, but never past the deadline.
  predicate RightNap(nap: Nap, lag: real, timeout: int) {
    var full := if nap.at - lag < 30.0 then 2.0 else 5.0;
    && nap.at < timeout as real
    && nap.length == if nap.at + full <= timeout as real then full else timeout as real - nap.at
  }

  // The clock moves only by the time each read takes and by the sleeps; a sleep may overrun but
  // not end early. `reply(k)` answers the k-th read, `lag` separates the two clock readings at the
  // start, `end` is when the poll returns.
  method PollForDecision(timeout: int, lag: real, reply: nat -> Reply, readTime: nat -> real, overrun: nat -> real)
    returns (outcome: Outcome, replies: seq<Reply>, degraded: nat, naps: seq<Nap>, end: real)
    requires timeout >= FLOOR_30S && lag >= 0.0
    requires forall k :: readTime(k) >= 0.0 && overrun(k) >= 0.0
    ensures |replies| <= 15 + Ceil((timeout as real - 30.0) / 5.0)
    ensures forall i :: 0 <= i < |replies| ==> replies[i] == reply(i)
    // Only the last reply can carry a decision, and if it does it is the outcome.
    ensures forall i :: 0 <= i < |replies| - 1 ==> !replies[i].Approved? && !replies[i].Denied?
    ensures outcome.GrantedAs? <==> replies != [] && replies[|replies| - 1].Approved?
    ensures outcome.RefusedFor? <==> replies != [] && replies[|replies| - 1].Denied?
    ensures outcome.GrantedAs? ==> outcome.scope == replies[|replies| - 1].scope
    ensures outcome.RefusedFor? ==>
              outcome.reason == if replies[|replies| - 1].reason == "" then "denied" else replies[|replies| - 1].reason
    ensures outcome.TimedOut? ==> end >= timeout as real
    // Ten failed reads in a row end the poll, three in a row are reported once.
    ensures outcome.PollFailed? <==> |replies| >= 10 && FailedRun(replies, |replies| - 10, 10)
    ensures degraded == if exists i: nat :: FailedRun(replies, i, 3) then 1 else 0
    ensures forall nap :: nap in naps ==> RightNap(nap, lag, timeout)
  {
    hide ReadsLeft, Ceil, FailedRun, TrailingFails, EverDegraded, NoneDecisive;
    var deadline, start := timeout as real, lag;
    var now := lag;
    var fails: nat := 0;
    replies, degraded, naps := [], 0, [];
    AtMostAllReads(lag, timeout);
    NoReplies();
    while true
      invariant start <= now
      invariant |replies| + ReadsLeft(now - start, deadline - start) <= ReadsLeft(0.0, deadline - start)
      invariant ReadsLeft(now - start, deadline - start) >= 0
      invariant NoneDecisive(replies) && forall i :: 0 <= i < |replies| ==> replies[i] == reply(i)
      invariant fails == TrailingFails(replies) < POLL_MAX_CONSECUTIVE_FAILS
      invariant degraded == if EverDegraded(replies) then 1 else 0
      invariant forall nap :: nap in naps ==> RightNap(nap, lag, timeout)
      decreases ReadsLeft(now - start, deadline - start)
    {
      if now >= deadline { outcome := TimedOut; break; }
      var r, asked := reply(|replies|), now;
      now := now + readTime(|replies|);
      OneMoreReply(replies, r);
      replies := replies + [r];
      OneReadLess(asked - start, asked - start, deadline - start, deadline - start);
      if r == Failed {
        fails := fails + 1;
        if fails >= POLL_DEGRADED_FAILS && degraded == 0 { degraded := 1; }
        if fails >= POLL_MAX_CONSECUTIVE_FAILS { outcome := PollFailed; break; }
      } else {
        fails := 0;
        if Decisive(r) { outcome := OutcomeOf(r); break; }
      }
      var sleepFor := Min(Interval(now - start), Max(0.0, deadline - now));
      if sleepFor <= 0.0 { outcome := TimedOut; break; }
      OneReadLess(asked - start, now - start, now + sleepFor + overrun(|replies| - 1) - start, deadline - start);
      naps := naps + [Nap(now, sleepFor)];
      now := now + sleepFor + overrun(|replies| - 1);
    }
    assert Concludes(outcome, replies);
    LastReplyDecides(outcome, replies);
    FailsInARow(replies);
    end := now;
  }
}
