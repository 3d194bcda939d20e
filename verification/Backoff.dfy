// Bounded retries with exponential backoff (agent/src/shell.py). The command itself is an oracle:
// `command(k)` is what its k-th run returns.
module Backoff {
  datatype CmdResult = CmdResult(returncode: int, stderr: string)

  // Which errors are worth a retry, and which name a host that cannot be resolved.
  datatype Signatures = Signatures(transient: string -> bool, unresolvable: string -> bool)

  function Power2(n: nat): (p: nat)
    ensures p > 0
  {
    if n == 0 then 1 else 2 * Power2(n - 1)
  }

  predicate Retryable(sigs: Signatures, r: CmdResult) {
    r.returncode != 0 && sigs.transient(r.stderr) && !sigs.unresolvable(r.stderr)
  }

  // The k-th run is the last one.
  predicate StopsAt(command: nat -> CmdResult, sigs: Signatures, maxAttempts: int, k: nat) {
    !Retryable(sigs, command(k)) || k >= maxAttempts
  }

  predicate FirstStop(command: nat -> CmdResult, sigs: Signatures, maxAttempts: int, n: nat) {
    n >= 1 && StopsAt(command, sigs, maxAttempts, n)
    && forall k :: 1 <= k < n ==> !StopsAt(command, sigs, maxAttempts, k)
  }

  function Delay(base: real, i: nat): real {
    base * Power2(i) as real
  }

  // The delay before each of the n retries.
  function Delays(base: real, n: nat): (s: seq<real>)
    ensures |s| == n
  {
    seq(n, i requires 0 <= i < n => Delay(base, i))
  }

  function Sum(s: seq<real>): real {
    if s == [] then 0.0 else Sum(s[..|s| - 1]) + s[|s| - 1]
  }

  lemma {:induction false} DelaysStep(base: real, n: nat)
    requires n > 0
    ensures Delays(base, n) == Delays(base, n - 1) + [Delay(base, n - 1)]
  {
  }

  lemma {:induction false} DelaysDouble(base: real, n: nat)
    ensures n > 0 ==> Delays(base, n)[0] == base
    ensures forall i :: 0 <= i < n - 1 ==> Delays(base, n)[i + 1] == 2.0 * Delays(base, n)[i]
  {
    forall i: nat ensures Delay(base, i + 1) == 2.0 * Delay(base, i) {
      Twice(base, Power2(i) as real);
    }
  }

  lemma {:induction false} Twice(base: real, p: real)
    ensures base * (2.0 * p) == 2.0 * (base * p)
  {
  }

  lemma {:induction false} FirstStopIs(command: nat -> CmdResult, sigs: Signatures, maxAttempts: int, n: nat)
    requires FirstStop(command, sigs, maxAttempts, n)
    ensures forall k: nat :: 1 <= k < n ==>
              && command(k).returncode != 0 && sigs.transient(command(k).stderr)
              && !sigs.unresolvable(command(k).stderr) && k < maxAttempts
    ensures command(n).returncode == 0 || !sigs.transient(command(n).stderr) || sigs.unresolvable(command(n).stderr)
            || n >= maxAttempts
  {
    forall k: nat | 1 <= k < n ensures Retryable(sigs, command(k)) && k < maxAttempts {
      assert !StopsAt(command, sigs, maxAttempts, k);
    }
  }

  method RunCmdWithBackoff(command: nat -> CmdResult, sigs: Signatures, maxAttempts: int, base: real)
    returns (result: CmdResult, runs: nat, sleeps: seq<real>)
    ensures FirstStop(command, sigs, maxAttempts, runs) && result == command(runs)
    ensures sleeps == Delays(base, runs - 1)
    // Every run but the last failed, transiently and not for an unresolvable host; the last one
    // succeeded, or is not worth repeating, or is the last allowed.
    ensures runs >= 1 && forall k: nat :: 1 <= k < runs ==>
              && command(k).returncode != 0 && sigs.transient(command(k).stderr)
              && !sigs.unresolvable(command(k).stderr) && k < maxAttempts
    ensures result.returncode == 0 || !sigs.transient(result.stderr) || sigs.unresolvable(result.stderr)
            || runs >= maxAttempts
    // The first delay is the base, and each is twice the one before.
    ensures |sleeps| == runs - 1 && (runs > 1 ==> sleeps[0] == base)
    ensures forall i :: 0 <= i < |sleeps| - 1 ==> sleeps[i + 1] == 2.0 * sleeps[i]
  {
    hide Delay, Power2, Delays;
    result, runs, sleeps := command(1), 1, [];
    var attempt := 1;
    while attempt <= if maxAttempts > 1 then maxAttempts else 1
      invariant 1 <= attempt && (attempt > 1 ==> attempt <= maxAttempts)
      invariant runs == if attempt == 1 then 1 else attempt - 1
      invariant attempt == 1 ==> result == command(1)
      invariant forall k :: 1 <= k < attempt ==> !StopsAt(command, sigs, maxAttempts, k)
      invariant sleeps == Delays(base, attempt - 1)
    {
      if attempt > 1 { result, runs := command(attempt), attempt; }
      if result.returncode == 0 { break; }
      var exhausted := attempt >= maxAttempts;
      if exhausted || !sigs.transient(result.stderr) || sigs.unresolvable(result.stderr) { break; }
      DelaysStep(base, attempt);
      sleeps := sleeps + [Delay(base, attempt - 1)];
      attempt := attempt + 1;
    }
    FirstStopIs(command, sigs, maxAttempts, runs);
    DelaysDouble(base, runs - 1);
  }

  // A command runs at least once and at most max(1, maxAttempts) times, and there is exactly one
  // run at which the retries can end.
  lemma {:induction false} RunsAreBounded(command: nat -> CmdResult, sigs: Signatures, maxAttempts: int, n: nat, m: nat)
    requires FirstStop(command, sigs, maxAttempts, n) && FirstStop(command, sigs, maxAttempts, m)
    ensures 1 <= n <= (if maxAttempts > 1 then maxAttempts else 1) && n == m
  {
    if n > 1 {
      assert !StopsAt(command, sigs, maxAttempts, n - 1);
    }
  }

  // The result is a success exactly when some run within the bound succeeds and every run before
  // it failed in a way worth a retry.
  lemma {:induction false} SucceedsExactlyWhen(command: nat -> CmdResult, sigs: Signatures, maxAttempts: int, n: nat)
    requires FirstStop(command, sigs, maxAttempts, n)
    ensures command(n).returncode == 0 <==>
            exists k :: 1 <= k <= (if maxAttempts > 1 then maxAttempts else 1) && command(k).returncode == 0
                        && forall j :: 1 <= j < k ==> Retryable(sigs, command(j))
  {
    RunsAreBounded(command, sigs, maxAttempts, n, n);
    forall j: nat | 1 <= j < n ensures Retryable(sigs, command(j)) {
      assert !StopsAt(command, sigs, maxAttempts, j);
    }
    if k :| 1 <= k <= (if maxAttempts > 1 then maxAttempts else 1) && command(k).returncode == 0
            && forall j :: 1 <= j < k ==> Retryable(sigs, command(j)) {
      assert FirstStop(command, sigs, maxAttempts, k);
      RunsAreBounded(command, sigs, maxAttempts, n, k);
    }
  }

  // The result is a failure exactly when some run fails in a way not worth a retry, after retryable
  // ones only, or all runs within the bound fail in a retryable way; the retries end with that run,
  // or at the bound.
  lemma {:induction false} FailsExactlyWhen(command: nat -> CmdResult, sigs: Signatures, maxAttempts: int, n: nat)
    requires FirstStop(command, sigs, maxAttempts, n)
    ensures var bound := if maxAttempts > 1 then maxAttempts else 1;
            && (command(n).returncode != 0 <==>
                || (exists k :: 1 <= k <= bound && GivesUpAt(command, sigs, k))
                || (forall k :: 1 <= k <= bound ==> Retryable(sigs, command(k))))
            && (forall k :: 1 <= k <= bound && GivesUpAt(command, sigs, k) ==> n == k)
            && ((forall k :: 1 <= k <= bound ==> Retryable(sigs, command(k))) ==> n == bound)
  {
    var bound := if maxAttempts > 1 then maxAttempts else 1;
    RunsAreBounded(command, sigs, maxAttempts, n, n);
    forall j: nat | 1 <= j < n ensures Retryable(sigs, command(j)) {
      assert !StopsAt(command, sigs, maxAttempts, j);
    }
    forall k: nat | 1 <= k <= bound && GivesUpAt(command, sigs, k) ensures n == k {
      assert FirstStop(command, sigs, maxAttempts, k);
      RunsAreBounded(command, sigs, maxAttempts, n, k);
    }
    if forall k :: 1 <= k <= bound ==> Retryable(sigs, command(k)) {
      assert FirstStop(command, sigs, maxAttempts, bound);
      RunsAreBounded(command, sigs, maxAttempts, n, bound);
    }
    if command(n).returncode != 0 && !Retryable(sigs, command(n)) {
      assert GivesUpAt(command, sigs, n);
    }
  }

  // The k-th run is the first that is not worth repeating, and it fails.
  ghost predicate GivesUpAt(command: nat -> CmdResult, sigs: Signatures, k: nat) {
    && command(k).returncode != 0 && !Retryable(sigs, command(k))
    && forall j :: 1 <= j < k ==> Retryable(sigs, command(j))
  }

  // n retries wait base * (2^n - 1) in all.
  lemma {:induction false} TotalDelay(base: real, n: nat)
    ensures Sum(Delays(base, n)) == base * (Power2(n) - 1) as real
  {
    hide Delays;
    if n == 0 {
    } else {
      TotalDelay(base, n - 1);
      DelaysStep(base, n);
      assert Delays(base, n)[..n - 1] == Delays(base, n - 1);
      Distribute(base, Power2(n - 1));
    }
  }

  lemma {:induction false} Distribute(base: real, p: nat)
    requires p > 0
    ensures base * (p - 1) as real + base * p as real == base * (2 * p - 1) as real
  {
    var x := p as real;
    assert (p - 1) as real == x - 1.0 && (2 * p - 1) as real == 2.0 * x - 1.0;
    assert base * (x - 1.0) + base * x == base * (2.0 * x - 1.0);
  }
}
