/** Keeping a service registered: `keepAlive` and `register` in `etcdutil/register.go`.

    Every run is a finite part of one that etcd and the caller's context drive: `ticks` tells what they do at
    each point where the goroutine waits for its timer.  What the goroutine does is recorded in a log. */
module Registrar {
  import opened Wrappers

  type Lease = int

  /** What a try to register meets: no lease, a lease whose put fails, or success. */
  datatype Attempt = NoLease | PutFails(lease: Lease) | Registered(lease: Lease)

  /** The context is done, or the timer fires and the registration is tried again. */
  datatype Tick = Done | Fires(attempt: Attempt)

  datatype Action =
    | KeepAlive(lease: Lease)
    | Wait(duration: int)
    | Grant(lease: Lease)
    | PutOk(lease: Lease)
    | PutFailed(lease: Lease)
    | Revoke(lease: Lease)
    | GrantFailed

  // ---------- 64-bit durations ----------

  const HALF := 0x4000_0000_0000_0000
  const MAX := 0x7FFF_FFFF_FFFF_FFFF

  predicate Int64(d: int) {
    -MAX - 1 <= d <= MAX
  }

  /** The value of a 64-bit word. */
  function Wrapped(d: int): int
    requires -2 * MAX - 2 <= d <= 2 * MAX + 1
  {
    if d > MAX then d - 2 * MAX - 2 else if d < -MAX - 1 then d + 2 * MAX + 2 else d
  }

  /** The backoff after one more failure. */
  function NextBackoff(backoff: int, maxBackoff: int): int
    requires Int64(backoff)
  {
    var doubled := Wrapped(2 * backoff);
    if doubled > maxBackoff then maxBackoff else doubled
  }

  /** The backoff after `failures` failures in a row. */
  function Backoff(retryInterval: int, maxBackoff: int, failures: nat): (d: int)
    requires Int64(retryInterval) && Int64(maxBackoff)
    ensures Int64(d)
  {
    if failures == 0 then retryInterval else NextBackoff(Backoff(retryInterval, maxBackoff, failures - 1), maxBackoff)
  }

  function Pow2(k: nat): (p: nat)
    ensures p >= 1
  {
    if k == 0 then 1 else 2 * Pow2(k - 1)
  }

  function Min(a: int, b: int): int {
    if a < b then a else b
  }

  /** The wait meant: the interval doubled at every failure and capped. */
  function Meant(retryInterval: int, maxBackoff: int, failures: nat): int {
    if failures == 0 then retryInterval else Min(retryInterval * Pow2(failures), maxBackoff)
  }

  lemma PowStep(retryInterval: int, k: nat)
    requires retryInterval > 0
    ensures retryInterval * Pow2(k + 1) == 2 * (retryInterval * Pow2(k))
    ensures retryInterval * Pow2(k) >= 1
  {
  }

  lemma {:induction false} BackoffIsMeant(retryInterval: int, maxBackoff: int, failures: nat)
    requires 0 < retryInterval < HALF && 0 < maxBackoff < HALF
    ensures Backoff(retryInterval, maxBackoff, failures) == Meant(retryInterval, maxBackoff, failures)
    ensures 0 < Meant(retryInterval, maxBackoff, failures) < HALF
    decreases failures
  {
    if failures > 0 {
      BackoffIsMeant(retryInterval, maxBackoff, failures - 1);
      PowStep(retryInterval, failures - 1);
      assert Pow2(0) == 1;
    }
  }

  ghost predicate AsMeant(retryInterval: int, maxBackoff: int, failures: nat)
    requires Int64(retryInterval) && Int64(maxBackoff)
  {
    Backoff(retryInterval, maxBackoff, failures) == Meant(retryInterval, maxBackoff, failures)
  }

  /** The waits are as meant, however many failures there are, exactly when both settings are below 2^62
      nanoseconds; from there on doubling overflows. */
  lemma WaitsAsMeantExactlyWhen(retryInterval: int, maxBackoff: int)
    requires 0 < retryInterval <= MAX && 0 < maxBackoff <= MAX
    ensures (forall failures: nat :: AsMeant(retryInterval, maxBackoff, failures))
            <==> retryInterval < HALF && maxBackoff < HALF
  {
    if retryInterval < HALF && maxBackoff < HALF {
      forall failures: nat ensures AsMeant(retryInterval, maxBackoff, failures) {
        BackoffIsMeant(retryInterval, maxBackoff, failures);
      }
    } else if retryInterval >= HALF {
      PowStep(retryInterval, 0);
      assert Pow2(0) == 1;
      assert Backoff(retryInterval, maxBackoff, 0) == retryInterval;
      assert !AsMeant(retryInterval, maxBackoff, 1);
    } else {
      assert Pow2(0) == 1;
      Overflows(retryInterval, maxBackoff, 0);
    }
  }

  /** As long as doubling has not reached 2^62 the wait is right, and at some later point it is not. */
  lemma {:induction false} Overflows(retryInterval: int, maxBackoff: int, k: nat)
    requires 0 < retryInterval < HALF <= maxBackoff <= MAX
    requires retryInterval * Pow2(k) < HALF && Backoff(retryInterval, maxBackoff, k) == retryInterval * Pow2(k)
    ensures exists failures: nat :: !AsMeant(retryInterval, maxBackoff, failures)
    decreases HALF - retryInterval * Pow2(k)
  {
    var now, next := retryInterval * Pow2(k), retryInterval * Pow2(k + 1);
    PowStep(retryInterval, k);
    if next < HALF {
      Overflows(retryInterval, maxBackoff, k + 1);
    } else {
      // The next wait is still right and at least 2^62, so that the one after it is negative.
      assert Backoff(retryInterval, maxBackoff, k + 1) == Min(next, maxBackoff);
      PowStep(retryInterval, k + 1);
      TooBig(retryInterval, maxBackoff, k + 1);
    }
  }

  lemma TooBig(retryInterval: int, maxBackoff: int, k: nat)
    requires 0 < retryInterval < HALF <= maxBackoff <= MAX
    requires HALF <= Backoff(retryInterval, maxBackoff, k) && retryInterval * Pow2(k + 1) >= 1
    ensures !AsMeant(retryInterval, maxBackoff, k + 1)
  {
    assert Backoff(retryInterval, maxBackoff, k + 1) == NextBackoff(Backoff(retryInterval, maxBackoff, k), maxBackoff);
    assert Backoff(retryInterval, maxBackoff, k + 1) < 0;
  }

  // ---------- The goroutine ----------

  /** The last lease whose put succeeded, and the one held before the log began if there is none. */
  function LatestLease(initial: Lease, log: seq<Action>): Lease {
    if log == [] then initial
    else
      var last := log[|log| - 1];
      if last.PutOk? then last.lease else LatestLease(initial, log[..|log| - 1])
  }

  /** Failed tries since the last success. */
  function Failures(log: seq<Action>): nat {
    if log == [] then 0
    else
      var before, last := log[..|log| - 1], log[|log| - 1];
      if last.PutOk? then 0
      else if last.PutFailed? || last.GrantFailed? then 1 + Failures(before)
      else Failures(before)
  }

  /** A lease is kept alive only if it is that of the latest successful put. */
  ghost predicate KeepsLatest(initial: Lease, log: seq<Action>) {
    forall i :: 0 <= i < |log| && log[i].KeepAlive? ==> log[i].lease == LatestLease(initial, log[..i])
  }

  /** Every wait is the backoff for the failures before it. */
  ghost predicate WaitsByFailures(retryInterval: int, maxBackoff: int, log: seq<Action>)
    requires Int64(retryInterval) && Int64(maxBackoff)
  {
    forall i :: 0 <= i < |log| && log[i].Wait? ==>
      log[i].duration == Backoff(retryInterval, maxBackoff, Failures(log[..i]))
  }

  /** A granted lease is put next, and a failed put's lease is revoked next. */
  ghost predicate NoLeaseLeft(log: seq<Action>) {
    && (forall i :: 0 <= i < |log| && log[i].Grant? ==>
          i + 1 < |log| && (log[i + 1] == PutOk(log[i].lease) || log[i + 1] == PutFailed(log[i].lease)))
    && (forall i :: 0 <= i < |log| && log[i].PutFailed? ==> i + 1 < |log| && log[i + 1] == Revoke(log[i].lease))
    && (forall i :: 0 <= i < |log| && log[i].Revoke? ==> i > 0 && log[i - 1] == PutFailed(log[i].lease))
    && (forall i :: 0 <= i < |log| && (log[i].PutOk? || log[i].PutFailed?) ==> i > 0 && log[i - 1] == Grant(log[i].lease))
  }

  ghost predicate Disciplined(initial: Lease, retryInterval: int, maxBackoff: int, log: seq<Action>)
    requires Int64(retryInterval) && Int64(maxBackoff)
  {
    KeepsLatest(initial, log) && WaitsByFailures(retryInterval, maxBackoff, log) && NoLeaseLeft(log)
  }

  function TryLog(attempt: Attempt): seq<Action> {
    match attempt
    case NoLease => [GrantFailed]
    case PutFails(lease) => [Grant(lease), PutFailed(lease), Revoke(lease)]
    case Registered(lease) => [Grant(lease), PutOk(lease)]
  }

  lemma NoLeaseLeftJoins(a: seq<Action>, b: seq<Action>)
    requires NoLeaseLeft(a) && NoLeaseLeft(b)
    ensures NoLeaseLeft(a + b)
  {
    var c := a + b;
    forall i | 0 <= i < |c| ensures c[i] == if i < |a| then a[i] else b[i - |a|] {
    }
  }

  /** Adding actions that are neither keep-alives nor waits, or one that is right, keeps the log disciplined. */
  lemma DisciplinedJoins(initial: Lease, retryInterval: int, maxBackoff: int, log: seq<Action>, more: seq<Action>)
    requires Int64(retryInterval) && Int64(maxBackoff) && Disciplined(initial, retryInterval, maxBackoff, log)
    requires NoLeaseLeft(more)
    requires forall i :: 0 <= i < |more| && (more[i].KeepAlive? || more[i].Wait?) ==> |more| == 1
    requires more != [] && more[0].KeepAlive? ==> more[0].lease == LatestLease(initial, log)
    requires more != [] && more[0].Wait? ==> more[0].duration == Backoff(retryInterval, maxBackoff, Failures(log))
    ensures Disciplined(initial, retryInterval, maxBackoff, log + more)
  {
    var all := log + more;
    NoLeaseLeftJoins(log, more);
    forall i | 0 <= i < |all| && all[i].KeepAlive? ensures all[i].lease == LatestLease(initial, all[..i]) {
      assert all[..i] == if i < |log| then log[..i] else log + more[..i - |log|];
      assert i >= |log| ==> more[i - |log|].KeepAlive? && log + more[..0] == log;
    }
    forall i | 0 <= i < |all| && all[i].Wait?
      ensures all[i].duration == Backoff(retryInterval, maxBackoff, Failures(all[..i])) {
      assert all[..i] == if i < |log| then log[..i] else log + more[..i - |log|];
      assert i >= |log| ==> more[i - |log|].Wait? && log + more[..0] == log;
    }
  }

  lemma AfterOne(initial: Lease, log: seq<Action>, action: Action)
    ensures LatestLease(initial, log + [action]) == if action.PutOk? then action.lease else LatestLease(initial, log)
    ensures Failures(log + [action]) == if action.PutOk? then 0
                                        else Failures(log) + if action.PutFailed? || action.GrantFailed? then 1 else 0
  {
    assert (log + [action])[..|log|] == log;
  }

  lemma AfterTry(initial: Lease, log: seq<Action>, attempt: Attempt)
    ensures LatestLease(initial, log + TryLog(attempt)) == if attempt.Registered? then attempt.lease
                                                           else LatestLease(initial, log)
    ensures Failures(log + TryLog(attempt)) == if attempt.Registered? then 0 else Failures(log) + 1
  {
    match attempt
    case NoLease =>
      AfterOne(initial, log, GrantFailed);
    case PutFails(lease) =>
      AfterOne(initial, log, Grant(lease));
      AfterOne(initial, log + [Grant(lease)], PutFailed(lease));
      AfterOne(initial, log + [Grant(lease)] + [PutFailed(lease)], Revoke(lease));
      assert log + TryLog(attempt) == log + [Grant(lease)] + [PutFailed(lease)] + [Revoke(lease)];
    case Registered(lease) =>
      AfterOne(initial, log, Grant(lease));
      AfterOne(initial, log + [Grant(lease)], PutOk(lease));
      assert log + TryLog(attempt) == log + [Grant(lease)] + [PutOk(lease)];
  }

  class Keeper {
    const retryInterval: int
    const maxBackoff: int
    var log: seq<Action>

    /** Whatever is configured, the waits of the keeper are as meant exactly when neither setting reaches 2^62. */
    constructor (retryInterval: int, maxBackoff: int)
      requires Int64(retryInterval) && Int64(maxBackoff)
      ensures Int64(this.retryInterval) && Int64(this.maxBackoff) && this.retryInterval > 0 && this.maxBackoff > 0
      ensures (forall failures: nat :: AsMeant(this.retryInterval, this.maxBackoff, failures))
              <==> retryInterval < HALF && maxBackoff < HALF
      ensures this.retryInterval == (if retryInterval <= 0 then 5_000_000_000 else retryInterval)
      ensures this.maxBackoff == (if maxBackoff <= 0 then 30_000_000_000 else maxBackoff)
      ensures log == []
    {
      this.retryInterval := if retryInterval <= 0 then 5_000_000_000 else retryInterval;
      this.maxBackoff := if maxBackoff <= 0 then 30_000_000_000 else maxBackoff;
      log := [];
      new;
      WaitsAsMeantExactlyWhen(this.retryInterval, this.maxBackoff);
    }

    method Register(attempt: Attempt) returns (lease: Option<Lease>)
      modifies this`log
      ensures log == old(log) + TryLog(attempt)
      ensures log == old(log) + match attempt
                                case NoLease => [GrantFailed]
                                case PutFails(id) => [Grant(id), PutFailed(id), Revoke(id)]
                                case Registered(id) => [Grant(id), PutOk(id)]
      ensures lease == if attempt.Registered? then Some(attempt.lease) else None
    {
      match attempt
      case NoLease =>
        log := log + [GrantFailed];
        return None;
      case PutFails(id) =>
        log := log + [Grant(id)];
        log := log + [PutFailed(id)];
        log := log + [Revoke(id)];
        return None;
      case Registered(id) =>
        log := log + [Grant(id)];
        log := log + [PutOk(id)];
        return Some(id);
    }

    /** `keepAlive`, for as many ticks as there are. */
    method KeepAliveLoop(initialLease: Lease, ticks: seq<Tick>)
      requires log == [] && Int64(retryInterval) && Int64(maxBackoff)
      modifies this`log
      ensures log == LogOf(retryInterval, maxBackoff, initialLease, ticks)
      ensures Disciplined(initialLease, retryInterval, maxBackoff, log)
      ensures Paced(log) && |log| >= 2 && log[0] == KeepAlive(initialLease) && log[1].Wait?
      ensures AttemptsIn(log) == Fired(ticks)
    {
      LogPaced(retryInterval, maxBackoff, initialLease, ticks);
      LogDisciplined(retryInterval, maxBackoff, initialLease, ticks);
      ghost var whole := LogOf(retryInterval, maxBackoff, initialLease, ticks);
      var leaseID, backoff := initialLease, retryInterval;
      var i := 0;
      assert ticks[0..] == ticks && [] + whole == whole;
      while true
        invariant 0 <= i <= |ticks| && backoff == retryInterval
        invariant log + LogOf(retryInterval, maxBackoff, leaseID, ticks[i..]) == whole
        decreases |ticks| - i
      {
        // The call fails, or its channel closes after some time.
        Grouping(log, [KeepAlive(leaseID), Wait(backoff)], RetryLog(retryInterval, maxBackoff, backoff, ticks[i..]));
        log := log + [KeepAlive(leaseID), Wait(backoff)];
        var lease;
        lease, i := RegisterLoop(ticks, i, whole);
        if lease.None? {
          return;
        }
        leaseID := lease.value;
        backoff := retryInterval;
      }
    }

    /** The inner loop, from its first wait until the registration succeeds.  It gives None when the context is done. */
    method RegisterLoop(ticks: seq<Tick>, from: nat, ghost whole: seq<Action>) returns (lease: Option<Lease>, i: nat)
      requires Int64(retryInterval) && Int64(maxBackoff) && from <= |ticks|
      requires log + RetryLog(retryInterval, maxBackoff, retryInterval, ticks[from..]) == whole
      modifies this`log
      ensures from <= i <= |ticks|
      ensures match lease
              case None => log == whole
              case Some(id) => from < i && log + LogOf(retryInterval, maxBackoff, id, ticks[i..]) == whole
    {
      var backoff := retryInterval;
      i := from;
      while true
        invariant from <= i <= |ticks| && Int64(backoff)
        invariant log + RetryLog(retryInterval, maxBackoff, backoff, ticks[i..]) == whole
        decreases |ticks| - i
      {
        if i == |ticks| || ticks[i].Done? {
          assert log + [] == log;
          return None, i;
        }
        RetryStep(retryInterval, maxBackoff, backoff, ticks, i, log);
        ghost var rest := ticks[i + 1..];
        lease := Register(ticks[i].attempt);
        i := i + 1;
        if lease.Some? {
          return;
        }
        Grouping(log, [Wait(NextBackoff(backoff, maxBackoff))],
                 RetryLog(retryInterval, maxBackoff, NextBackoff(backoff, maxBackoff), rest));
        backoff := Wrapped(2 * backoff);
        if backoff > maxBackoff {
          backoff := maxBackoff;
        }
        log := log + [Wait(backoff)];
      }
    }
  }

  // ---------- The log of a run ----------

  /** What the goroutine does from a keep-alive of this lease on. */
  function LogOf(retryInterval: int, maxBackoff: int, lease: Lease, ticks: seq<Tick>): seq<Action>
    requires Int64(retryInterval) && Int64(maxBackoff)
    decreases |ticks|, 1
  {
    [KeepAlive(lease), Wait(retryInterval)] + RetryLog(retryInterval, maxBackoff, retryInterval, ticks)
  }

  /** What it does after a wait of this length: nothing more once the context is done; otherwise it tries to register, and
      keeps the new lease alive or waits longer. */
  function RetryLog(retryInterval: int, maxBackoff: int, backoff: int, ticks: seq<Tick>): seq<Action>
    requires Int64(retryInterval) && Int64(maxBackoff) && Int64(backoff)
    decreases |ticks|, 0
  {
    if ticks == [] || ticks[0].Done? then []
    else TryLog(ticks[0].attempt) + AfterTryLog(retryInterval, maxBackoff, backoff, ticks[0].attempt, ticks[1..])
  }

  function AfterTryLog(retryInterval: int, maxBackoff: int, backoff: int, attempt: Attempt, ticks: seq<Tick>): seq<Action>
    requires Int64(retryInterval) && Int64(maxBackoff) && Int64(backoff)
    decreases |ticks|, 2
  {
    match attempt
    case Registered(id) => LogOf(retryInterval, maxBackoff, id, ticks)
    case _ =>
      var next := NextBackoff(backoff, maxBackoff);
      [Wait(next)] + RetryLog(retryInterval, maxBackoff, next, ticks)
  }

  lemma RetryStep(retryInterval: int, maxBackoff: int, backoff: int, ticks: seq<Tick>, i: nat, log: seq<Action>)
    requires Int64(retryInterval) && Int64(maxBackoff) && Int64(backoff) && i < |ticks| && ticks[i].Fires?
    ensures log + RetryLog(retryInterval, maxBackoff, backoff, ticks[i..])
            == log + TryLog(ticks[i].attempt) + AfterTryLog(retryInterval, maxBackoff, backoff, ticks[i].attempt, ticks[i + 1..])
  {
    assert ticks[i..][1..] == ticks[i + 1..];
    Grouping(log, TryLog(ticks[i].attempt), AfterTryLog(retryInterval, maxBackoff, backoff, ticks[i].attempt, ticks[i + 1..]));
  }

  /** Over every run a lease is kept alive only if it is that of the latest successful put, every wait is the backoff for
      the failures since, and every lease whose put fails is revoked. */
  lemma LogDisciplined(retryInterval: int, maxBackoff: int, lease: Lease, ticks: seq<Tick>)
    requires Int64(retryInterval) && Int64(maxBackoff)
    ensures Disciplined(lease, retryInterval, maxBackoff, LogOf(retryInterval, maxBackoff, lease, ticks))
  {
    KeptDisciplined(lease, retryInterval, maxBackoff, [], lease, ticks);
    assert [] + LogOf(retryInterval, maxBackoff, lease, ticks) == LogOf(retryInterval, maxBackoff, lease, ticks);
  }

  lemma {:induction false} KeptDisciplined(initial: Lease, retryInterval: int, maxBackoff: int, log: seq<Action>, lease: Lease,
                                           ticks: seq<Tick>)
    requires Int64(retryInterval) && Int64(maxBackoff) && Disciplined(initial, retryInterval, maxBackoff, log)
    requires lease == LatestLease(initial, log) && Failures(log) == 0
    ensures Disciplined(initial, retryInterval, maxBackoff, log + LogOf(retryInterval, maxBackoff, lease, ticks))
    decreases |ticks|, 1
  {
    var one := log + [KeepAlive(lease)];
    var two := one + [Wait(retryInterval)];
    DisciplinedJoins(initial, retryInterval, maxBackoff, log, [KeepAlive(lease)]);
    AfterOne(initial, log, KeepAlive(lease));
    WaitDisciplined(initial, retryInterval, maxBackoff, one, retryInterval);
    RetriedDisciplined(initial, retryInterval, maxBackoff, two, retryInterval, ticks);
    var rest := RetryLog(retryInterval, maxBackoff, retryInterval, ticks);
    assert two == log + [KeepAlive(lease), Wait(retryInterval)];
    Grouping(log, [KeepAlive(lease), Wait(retryInterval)], rest);
  }

  lemma TryDisciplined(initial: Lease, retryInterval: int, maxBackoff: int, log: seq<Action>, attempt: Attempt)
    requires Int64(retryInterval) && Int64(maxBackoff) && Disciplined(initial, retryInterval, maxBackoff, log)
    ensures var tried := log + TryLog(attempt);
            && Disciplined(initial, retryInterval, maxBackoff, tried)
            && (if attempt.Registered? then LatestLease(initial, tried) == attempt.lease && Failures(tried) == 0
                else Failures(tried) == Failures(log) + 1)
  {
    DisciplinedJoins(initial, retryInterval, maxBackoff, log, TryLog(attempt));
    AfterTry(initial, log, attempt);
  }

  lemma WaitDisciplined(initial: Lease, retryInterval: int, maxBackoff: int, log: seq<Action>, duration: int)
    requires Int64(retryInterval) && Int64(maxBackoff) && Disciplined(initial, retryInterval, maxBackoff, log)
    requires duration == Backoff(retryInterval, maxBackoff, Failures(log))
    ensures Disciplined(initial, retryInterval, maxBackoff, log + [Wait(duration)])
    ensures Failures(log + [Wait(duration)]) == Failures(log)
  {
    DisciplinedJoins(initial, retryInterval, maxBackoff, log, [Wait(duration)]);
    AfterOne(initial, log, Wait(duration));
  }

  lemma {:induction false} RetriedDisciplined(initial: Lease, retryInterval: int, maxBackoff: int, log: seq<Action>,
                                              backoff: int, ticks: seq<Tick>)
    requires Int64(retryInterval) && Int64(maxBackoff) && Disciplined(initial, retryInterval, maxBackoff, log)
    requires backoff == Backoff(retryInterval, maxBackoff, Failures(log))
    ensures Disciplined(initial, retryInterval, maxBackoff, log + RetryLog(retryInterval, maxBackoff, backoff, ticks))
    decreases |ticks|, 0, 1
  {
    if ticks == [] || ticks[0].Done? {
      assert log + [] == log;
    } else {
      var try', after := TryLog(ticks[0].attempt), AfterTryLog(retryInterval, maxBackoff, backoff, ticks[0].attempt, ticks[1..]);
      TriedDisciplined(initial, retryInterval, maxBackoff, log, backoff, ticks);
      Grouping(log, try', after);
      assert log + try' + after == log + RetryLog(retryInterval, maxBackoff, backoff, ticks);
    }
  }

  lemma {:induction false} TriedDisciplined(initial: Lease, retryInterval: int, maxBackoff: int, log: seq<Action>,
                                            backoff: int, ticks: seq<Tick>)
    requires Int64(retryInterval) && Int64(maxBackoff) && Disciplined(initial, retryInterval, maxBackoff, log)
    requires ticks != [] && ticks[0].Fires? && backoff == Backoff(retryInterval, maxBackoff, Failures(log))
    ensures Disciplined(initial, retryInterval, maxBackoff,
                        log + TryLog(ticks[0].attempt)
                        + AfterTryLog(retryInterval, maxBackoff, backoff, ticks[0].attempt, ticks[1..]))
    decreases |ticks|, 0, 0
  {
    var tried := log + TryLog(ticks[0].attempt);
    TryDisciplined(initial, retryInterval, maxBackoff, log, ticks[0].attempt);
    match ticks[0].attempt
    case Registered(id) =>
      KeptDisciplined(initial, retryInterval, maxBackoff, tried, id, ticks[1..]);
    case _ =>
      var next := NextBackoff(backoff, maxBackoff);
      WaitDisciplined(initial, retryInterval, maxBackoff, tried, next);
      RetriedDisciplined(initial, retryInterval, maxBackoff, tried + [Wait(next)], next, ticks[1..]);
      Grouping(tried, [Wait(next)], RetryLog(retryInterval, maxBackoff, next, ticks[1..]));
  }

  // ---------- Nothing is left out of the log ----------

  /** A try begins right after a wait; a failed one is followed by a wait, and a successful one by keeping its lease alive
      and a wait. */
  ghost predicate Paced(log: seq<Action>) {
    forall i :: 0 <= i < |log| ==> PacedAt(log, i)
  }

  predicate PacedAt(log: seq<Action>, i: nat)
    requires i < |log|
  {
    && (log[i].Grant? || log[i].GrantFailed? ==> i > 0 && log[i - 1].Wait?)
    && (log[i].GrantFailed? || log[i].Revoke? ==> i + 1 < |log| && log[i + 1].Wait?)
    && (log[i].PutOk? ==> i + 2 < |log| && log[i + 1] == KeepAlive(log[i].lease) && log[i + 2].Wait?)
  }

  /** The tries that a log tells of, with their outcomes. */
  function AttemptsIn(log: seq<Action>): seq<Attempt> {
    if log == [] then []
    else
      AttemptsIn(log[..|log| - 1])
      + match log[|log| - 1]
        case GrantFailed => [NoLease]
        case PutFailed(id) => [PutFails(id)]
        case PutOk(id) => [Registered(id)]
        case _ => []
  }

  /** The tries that come before the context is done. */
  function Fired(ticks: seq<Tick>): seq<Attempt> {
    if ticks == [] || ticks[0].Done? then [] else [ticks[0].attempt] + Fired(ticks[1..])
  }

  lemma {:induction false} AttemptsJoin(a: seq<Action>, b: seq<Action>)
    ensures AttemptsIn(a + b) == AttemptsIn(a) + AttemptsIn(b)
    decreases |b|
  {
    if b == [] {
      assert a + b == a;
    } else {
      assert (a + b)[..|a + b| - 1] == a + b[..|b| - 1];
      AttemptsJoin(a, b[..|b| - 1]);
    }
  }

  /** A try with what comes right after it. */
  function Block(attempt: Attempt, duration: int): seq<Action> {
    TryLog(attempt) + if attempt.Registered? then [KeepAlive(attempt.lease), Wait(duration)] else [Wait(duration)]
  }

  lemma AttemptsOfOne(action: Action)
    ensures AttemptsIn([action]) == match action
                                    case GrantFailed => [NoLease]
                                    case PutFailed(id) => [PutFails(id)]
                                    case PutOk(id) => [Registered(id)]
                                    case _ => []
  {
    assert [action][..0] == [];
  }

  lemma AttemptsOfTwo(one: Action, two: Action)
    ensures AttemptsIn([one, two]) == AttemptsIn([one]) + AttemptsIn([two])
  {
    AttemptsJoin([one], [two]);
    assert [one] + [two] == [one, two];
  }

  lemma BlockFacts(attempt: Attempt, duration: int)
    ensures AttemptsIn(Block(attempt, duration)) == [attempt]
    ensures var b := Block(attempt, duration); b != [] && b[|b| - 1].Wait?
  {
    var tail := if attempt.Registered? then [KeepAlive(attempt.lease), Wait(duration)] else [Wait(duration)];
    AttemptsJoin(TryLog(attempt), tail);
    AttemptsOfOne(Wait(duration));
    match attempt
    case NoLease => AttemptsOfOne(GrantFailed);
    case PutFails(id) =>
      AttemptsOfOne(Grant(id));
      AttemptsOfOne(PutFailed(id));
      AttemptsOfOne(Revoke(id));
      AttemptsOfTwo(PutFailed(id), Revoke(id));
      AttemptsJoin([Grant(id)], [PutFailed(id), Revoke(id)]);
      assert TryLog(attempt) == [Grant(id)] + [PutFailed(id), Revoke(id)];
    case Registered(id) =>
      AttemptsOfOne(Grant(id));
      AttemptsOfOne(PutOk(id));
      AttemptsOfTwo(Grant(id), PutOk(id));
      AttemptsOfOne(KeepAlive(id));
      AttemptsOfTwo(KeepAlive(id), Wait(duration));
  }

  lemma BlockPaced(log: seq<Action>, attempt: Attempt, duration: int)
    requires Paced(log) && log != [] && log[|log| - 1].Wait?
    ensures var all := log + Block(attempt, duration); Paced(all) && all[|all| - 1].Wait?
  {
    var n, block := |log|, Block(attempt, duration);
    var all := log + block;
    BlockIs(attempt, duration);
    forall i | 0 <= i < |all| ensures PacedAt(all, i) {
      if i < n {
        assert PacedAt(log, i);
      } else {
        assert all[i] == block[i - n] && all[i - 1] == if i == n then log[n - 1] else block[i - 1 - n];
        assert i + 1 < |all| ==> all[i + 1] == block[i + 1 - n];
        assert i + 2 < |all| ==> all[i + 2] == block[i + 2 - n];
      }
    }
  }

  lemma BlockIs(attempt: Attempt, duration: int)
    ensures Block(attempt, duration) == match attempt
                                        case NoLease => [GrantFailed, Wait(duration)]
                                        case PutFails(id) => [Grant(id), PutFailed(id), Revoke(id), Wait(duration)]
                                        case Registered(id) => [Grant(id), PutOk(id), KeepAlive(id), Wait(duration)]
  {
  }

  lemma {:induction false} RetriedPaced(retryInterval: int, maxBackoff: int, log: seq<Action>, backoff: int, ticks: seq<Tick>)
    requires Int64(retryInterval) && Int64(maxBackoff) && Int64(backoff)
    requires Paced(log) && log != [] && log[|log| - 1].Wait?
    ensures var all := log + RetryLog(retryInterval, maxBackoff, backoff, ticks);
            Paced(all) && AttemptsIn(all) == AttemptsIn(log) + Fired(ticks)
    decreases |ticks|
  {
    if ticks == [] || ticks[0].Done? {
      assert log + [] == log;
    } else {
      var attempt := ticks[0].attempt;
      var next := if attempt.Registered? then retryInterval else NextBackoff(backoff, maxBackoff);
      var block, rest := Block(attempt, next), RetryLog(retryInterval, maxBackoff, next, ticks[1..]);
      BlockPaced(log, attempt, next);
      BlockFacts(attempt, next);
      AttemptsJoin(log, block);
      RetriedPaced(retryInterval, maxBackoff, log + block, next, ticks[1..]);
      RetryIsBlocks(retryInterval, maxBackoff, backoff, ticks);
      Grouping(log, block, rest);
      Grouping(AttemptsIn(log), [attempt], Fired(ticks[1..]));
    }
  }

  lemma RetryIsBlocks(retryInterval: int, maxBackoff: int, backoff: int, ticks: seq<Tick>)
    requires Int64(retryInterval) && Int64(maxBackoff) && Int64(backoff) && ticks != [] && ticks[0].Fires?
    ensures var attempt := ticks[0].attempt;
            var next := if attempt.Registered? then retryInterval else NextBackoff(backoff, maxBackoff);
            RetryLog(retryInterval, maxBackoff, backoff, ticks)
            == Block(attempt, next) + RetryLog(retryInterval, maxBackoff, next, ticks[1..])
  {
    var attempt := ticks[0].attempt;
    var next := if attempt.Registered? then retryInterval else NextBackoff(backoff, maxBackoff);
    var tail := if attempt.Registered? then [KeepAlive(attempt.lease), Wait(next)] else [Wait(next)];
    var rest := RetryLog(retryInterval, maxBackoff, next, ticks[1..]);
    match attempt {
      case Registered(id) => assert LogOf(retryInterval, maxBackoff, id, ticks[1..]) == tail + rest;
      case _ =>
    }
    assert AfterTryLog(retryInterval, maxBackoff, backoff, attempt, ticks[1..]) == tail + rest;
    Grouping(TryLog(attempt), tail, rest);
  }

  /** Every run tries once for each tick before the context is done, and waits and keeps alive in between as it should. */
  lemma LogPaced(retryInterval: int, maxBackoff: int, lease: Lease, ticks: seq<Tick>)
    requires Int64(retryInterval) && Int64(maxBackoff)
    ensures var log := LogOf(retryInterval, maxBackoff, lease, ticks); Paced(log) && AttemptsIn(log) == Fired(ticks)
  {
    var start := [KeepAlive(lease), Wait(retryInterval)];
    AttemptsJoin([KeepAlive(lease)], [Wait(retryInterval)]);
    assert [KeepAlive(lease)] + [Wait(retryInterval)] == start;
    AttemptsOfOne(KeepAlive(lease));
    AttemptsOfOne(Wait(retryInterval));
    assert AttemptsIn(start) == [] && Paced(start);
    assert [] + Fired(ticks) == Fired(ticks);
    RetriedPaced(retryInterval, maxBackoff, start, retryInterval, ticks);
  }

  /** The failures that a wait counts are the tries since the last one that succeeded, and the lease kept alive is that
      one's. */
  lemma {:induction false} CountedFromTries(initial: Lease, log: seq<Action>, before: seq<Attempt>, failed: seq<Attempt>)
    requires AttemptsIn(log) == before + failed && forall i :: 0 <= i < |failed| ==> !failed[i].Registered?
    requires before != [] ==> before[|before| - 1].Registered?
    ensures Failures(log) == |failed|
    ensures LatestLease(initial, log) == if before == [] then initial else before[|before| - 1].lease
    decreases |log|
  {
    if log != [] {
      var front, last := log[..|log| - 1], log[|log| - 1];
      var all := AttemptsIn(log);
      if last.PutOk? {
        assert all[|all| - 1] == Registered(last.lease);
        assert failed == [] && before == all;
      } else if last.PutFailed? || last.GrantFailed? {
        assert failed != [] && all[..|all| - 1] == AttemptsIn(front) == before + failed[..|failed| - 1];
        CountedFromTries(initial, front, before, failed[..|failed| - 1]);
      } else {
        assert AttemptsIn(front) == all;
        CountedFromTries(initial, front, before, failed);
      }
    }
  }
}
