/** Running one task with its two retry limits. */
module Retry {
  import opened Numbers

  /** What one attempt of a task returned. */
  datatype Attempt = Succeeded | Deadlock | OtherError

  datatype RetryConfig = RetryConfig(maxRetries: int, retryDelay: nat, deadlockRetries: int, deadlockDelay: nat)

  /** After this attempt the loop makes no other. */
  predicate StopsAt(outcome: nat -> Attempt, c: RetryConfig, i: nat) {
    || outcome(i).Succeeded?
    || (outcome(i).Deadlock? && i >= c.deadlockRetries)
    || i >= c.maxRetries
  }

  /** The number of attempts from attempt i on. */
  function AttemptsFrom(outcome: nat -> Attempt, c: RetryConfig, i: nat): (n: nat)
    requires i <= c.maxRetries
    ensures i < n <= c.maxRetries + 1 && StopsAt(outcome, c, n - 1)
    ensures forall j :: i <= j < n - 1 ==> !StopsAt(outcome, c, j)
    decreases c.maxRetries - i
  {
    if StopsAt(outcome, c, i) then i + 1 else AttemptsFrom(outcome, c, i + 1)
  }

  function Attempts(outcome: nat -> Attempt, c: RetryConfig): nat {
    if c.maxRetries < 0 then 0 else AttemptsFrom(outcome, c, 0)
  }

  /** The pause after an attempt: after a deadlock below its own limit, even when no
      attempt follows, and after another error when one follows. */
  function Pause(a: Attempt, c: RetryConfig, i: nat): nat {
    match a
    case Succeeded => 0
    case Deadlock => if i < c.deadlockRetries then c.deadlockDelay else 0
    case OtherError => if i < c.maxRetries then c.retryDelay else 0
  }

  function Pauses(outcome: nat -> Attempt, c: RetryConfig, n: nat): nat {
    if n == 0 then 0 else Pauses(outcome, c, n - 1) + Pause(outcome(n - 1), c, n - 1)
  }

  /** The task succeeded before either limit was reached. */
  predicate Completes(outcome: nat -> Attempt, c: RetryConfig) {
    Attempts(outcome, c) > 0 && outcome(Attempts(outcome, c) - 1).Succeeded?
  }

  /** RunTaskWithRetry: it returns nil exactly when the attempt it stopped at succeeded. */
  method RunTaskWithRetry(outcome: nat -> Attempt, c: RetryConfig) returns (ok: bool, attempts: nat, slept: nat)
    ensures attempts == Attempts(outcome, c) && slept == Pauses(outcome, c, attempts)
    ensures ok <==> Completes(outcome, c)
  {
    attempts, slept := 0, 0;
    while attempts <= c.maxRetries
      invariant slept == Pauses(outcome, c, attempts)
      invariant if attempts <= c.maxRetries then Attempts(outcome, c) == AttemptsFrom(outcome, c, attempts)
                else attempts == Attempts(outcome, c) && (attempts > 0 ==> !outcome(attempts - 1).Succeeded?)
    {
      var attempt := attempts;
      attempts := attempts + 1;
      match outcome(attempt) {
        case Succeeded =>
          return true, attempts, slept;
        case Deadlock =>
          if attempt < c.deadlockRetries {
            slept := slept + c.deadlockDelay;
          } else {
            return false, attempts, slept;
          }
        case OtherError =>
          if attempt < c.maxRetries {
            slept := slept + c.retryDelay;
          }
      }
    }
    ok := false;
  }

  /** The loop stops at the first attempt that must be the last one, and there is one
      within the limit. */
  lemma StopsAtFirst(outcome: nat -> Attempt, c: RetryConfig, i: nat)
    requires i <= c.maxRetries && StopsAt(outcome, c, i) && forall j :: 0 <= j < i ==> !StopsAt(outcome, c, j)
    ensures Attempts(outcome, c) == i + 1
    ensures Completes(outcome, c) <==> outcome(i).Succeeded?
  {
    var n := AttemptsFrom(outcome, c, 0);
    assert n - 1 >= i && (n - 1 > i ==> !StopsAt(outcome, c, i));
  }

  /** Attempt i is within the limit and succeeds, and no earlier deadlock comes at or
      after the deadlock limit. */
  predicate SucceedsAt(outcome: nat -> Attempt, c: RetryConfig, i: nat) {
    && i <= c.maxRetries && outcome(i).Succeeded?
    && forall j: nat :: j < i && outcome(j).Deadlock? ==> j < c.deadlockRetries
  }

  /** The task completes exactly when some attempt can succeed that way. */
  lemma CompletesExactly(outcome: nat -> Attempt, c: RetryConfig)
    ensures Completes(outcome, c) <==> exists i: nat :: SucceedsAt(outcome, c, i)
  {
    if Completes(outcome, c) {
      var k: nat := Attempts(outcome, c) - 1;
      forall j: nat | j < k && outcome(j).Deadlock? ensures j < c.deadlockRetries {
        assert !StopsAt(outcome, c, j);
      }
      assert SucceedsAt(outcome, c, k);
    }
    if i: nat :| SucceedsAt(outcome, c, i) {
      var k: nat := Attempts(outcome, c) - 1;
      assert StopsAt(outcome, c, k) && StopsAt(outcome, c, i);
      assert k <= i;
    }
  }

  /** A permanent deadlock costs one attempt more than the smaller of both limits, so
      the deadlock limit alone is never exceeded and never extends the other. */
  lemma PermanentDeadlock(outcome: nat -> Attempt, c: RetryConfig)
    requires c.maxRetries >= 0 && c.deadlockRetries >= 0 && forall i: nat :: outcome(i).Deadlock?
    ensures Attempts(outcome, c) == Min(c.maxRetries, c.deadlockRetries) + 1
    ensures !Completes(outcome, c)
  {
    var i := Min(c.maxRetries, c.deadlockRetries);
    assert outcome(i).Deadlock?;
    StopsAtFirst(outcome, c, i);
  }

  /** A pause follows the last attempt, where nothing is left to wait for, if and only if
      that attempt deadlocked below the deadlock limit. */
  lemma PausesAfterTheLastExactly(outcome: nat -> Attempt, c: RetryConfig)
    requires c.maxRetries >= 0
    ensures var n := Attempts(outcome, c);
            Pauses(outcome, c, n) > Pauses(outcome, c, n - 1)
            <==> outcome(n - 1).Deadlock? && n - 1 < c.deadlockRetries && c.deadlockDelay > 0
  {
    var n := Attempts(outcome, c);
    assert StopsAt(outcome, c, n - 1);
    assert Pauses(outcome, c, n) == Pauses(outcome, c, n - 1) + Pause(outcome(n - 1), c, n - 1);
  }

  /** How many of the first n numbers are so. */
  function Count(holds: nat -> bool, n: nat): nat {
    if n == 0 then 0 else Count(holds, n - 1) + if holds(n - 1) then 1 else 0
  }

  /** A deadlock below its limit ended the attempt. */
  function DeadlockWaits(outcome: nat -> Attempt, c: RetryConfig): nat -> bool {
    (i: nat) => outcome(i).Deadlock? && i < c.deadlockRetries
  }

  /** Another error ended the attempt, and a retry is left. */
  function ErrorWaits(outcome: nat -> Attempt, c: RetryConfig): nat -> bool {
    (i: nat) => outcome(i).OtherError? && i < c.maxRetries
  }

  /** The whole pause: one deadlock delay for each deadlock below the deadlock limit, and
      one retry delay for each other error that leaves a retry. */
  lemma {:induction false} PausesExactly(outcome: nat -> Attempt, c: RetryConfig, n: nat)
    ensures Pauses(outcome, c, n)
            == Count(DeadlockWaits(outcome, c), n) * c.deadlockDelay + Count(ErrorWaits(outcome, c), n) * c.retryDelay
  {
    if n > 0 {
      PausesExactly(outcome, c, n - 1);
      OneMorePause(Count(DeadlockWaits(outcome, c), n - 1) + 1, c.deadlockDelay);
      OneMorePause(Count(ErrorWaits(outcome, c), n - 1) + 1, c.retryDelay);
    }
  }

  lemma {:induction false} DeadlockPauses(outcome: nat -> Attempt, c: RetryConfig, n: nat)
    requires c.deadlockRetries >= 0 && forall i: nat :: outcome(i).Deadlock?
    ensures Pauses(outcome, c, n) == Min(n, c.deadlockRetries) * c.deadlockDelay
  {
    if n > 0 {
      DeadlockPauses(outcome, c, n - 1);
      if n <= c.deadlockRetries {
        OneMorePause(n, c.deadlockDelay);
      }
    }
  }

  lemma OneMorePause(n: nat, delay: nat)
    requires n > 0
    ensures (n - 1) * delay + delay == n * delay
  {
  }

  /** A permanent deadlock sleeps once an attempt, up to the deadlock limit: with the
      smaller retry limit reached first, one time more than there are retries. */
  lemma PermanentDeadlockSleeps(outcome: nat -> Attempt, c: RetryConfig)
    requires c.maxRetries >= 0 && c.deadlockRetries >= 0 && forall i: nat :: outcome(i).Deadlock?
    ensures Pauses(outcome, c, Attempts(outcome, c)) == Min(c.maxRetries + 1, c.deadlockRetries) * c.deadlockDelay
  {
    PermanentDeadlock(outcome, c);
    DeadlockPauses(outcome, c, Attempts(outcome, c));
  }

  /** The pauses stay within the attempts; the last one adds its own only when it is a
      deadlock below the deadlock limit. */
  lemma {:induction false} PausesBound(outcome: nat -> Attempt, c: RetryConfig, n: nat, delay: nat)
    requires c.retryDelay <= delay && c.deadlockDelay <= delay
    ensures Pauses(outcome, c, n) <= n * delay
  {
    if n > 0 {
      PausesBound(outcome, c, n - 1, delay);
      assert n * delay == (n - 1) * delay + delay;
    }
  }

  lemma SleepIsBounded(outcome: nat -> Attempt, c: RetryConfig, delay: nat)
    requires c.maxRetries >= 0 && c.retryDelay <= delay && c.deadlockDelay <= delay
    ensures var n := Attempts(outcome, c);
            && (outcome(n - 1).Deadlock? && n - 1 < c.deadlockRetries
                ==> n == c.maxRetries + 1 && Pauses(outcome, c, n) <= (c.maxRetries + 1) * delay)
            && (!(outcome(n - 1).Deadlock? && n - 1 < c.deadlockRetries)
                ==> Pauses(outcome, c, n) <= c.maxRetries * delay)
  {
    var n := Attempts(outcome, c);
    PausesBound(outcome, c, n, delay);
    PausesBound(outcome, c, n - 1, delay);
    assert StopsAt(outcome, c, n - 1);
    MoreTimes(n - 1, c.maxRetries, delay);
  }

  lemma MoreTimes(a: nat, b: nat, delay: nat)
    requires a <= b
    ensures a * delay <= b * delay
  {
  }
}
