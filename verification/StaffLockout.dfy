/** The staff login lock: five wrong passwords, then at most one try per fifteen minutes. */
module StaffLockout {
  import opened Wrappers

  type Seconds = int

  const MAX_FAILURES := 5
  const LOCK: Seconds := 15 * 60

  datatype Account = Account(
    failedLoginCount: int, lockedUntil: Option<Seconds>, lastLoginAt: Option<Seconds>, lastLoginIp: Option<string>)

  datatype Reply = MfaToken | Locked | Unauthorized | ServerError

  /** What may go wrong: finding the row, parsing the stored hash, counting a failure, resetting the counter
      (which fails, too, on a client address that is not one). The reset may also take effect although its
      acknowledgement is lost; an increment that does is as good as any. */
  datatype Fault = NoFault | LookupFails | HashFails | IncrementFails | ResetFails | ResetUnacknowledged

  /** One login request: the lock is read at `checkedAt` (application clock), the counter is written
      at `writtenAt` (database clock). */
  datatype Attempt = Attempt(
    active: bool, passwordOk: bool, ip: Option<string>, checkedAt: Seconds, writtenAt: Seconds, fault: Fault)

  predicate IsLocked(a: Account, now: Seconds) {
    a.lockedUntil.Some? && a.lockedUntil.value > now
  }

  function Failed(a: Account, now: Seconds): Account {
    a.(failedLoginCount := a.failedLoginCount + 1,
       lockedUntil := if a.failedLoginCount + 1 >= MAX_FAILURES then Some(now + LOCK) else a.lockedUntil)
  }

  /** The password is evaluated only for an active account that is not locked. */
  predicate Evaluates(a: Account, t: Attempt): (yes: bool)
    ensures yes <==>
      && t.fault !in {LookupFails, HashFails} && t.active
      && (a.lockedUntil == None || a.lockedUntil.value <= t.checkedAt)
  {
    !t.fault.LookupFails? && t.active && !IsLocked(a, t.checkedAt) && !t.fault.HashFails?
  }

  function ReplyTo(a: Account, t: Attempt): Reply {
    if t.fault.LookupFails? then ServerError
    else if !t.active then Unauthorized
    else if IsLocked(a, t.checkedAt) then Locked
    else if t.fault.HashFails? then ServerError
    else if !t.passwordOk then Unauthorized
    else if t.fault.ResetFails? || t.fault.ResetUnacknowledged? then ServerError
    else MfaToken
  }

  function After(a: Account, t: Attempt): Account {
    if !Evaluates(a, t) then a
    else if Resets(t) then Reset(a, t.writtenAt, t.ip)
    else if Counts(t) then Failed(a, t.writtenAt)
    else a
  }

  /** A success clears the counter; an expired lock stays in the row. */
  function Reset(a: Account, now: Seconds, ip: Option<string>): Account {
    a.(failedLoginCount := 0, lastLoginAt := Some(now), lastLoginIp := ip)
  }

  predicate Counts(t: Attempt) { !t.passwordOk && !t.fault.IncrementFails? }

  predicate Resets(t: Attempt) { t.passwordOk && !t.fault.ResetFails? }

  /** What an attempt is answered and does to the row, in columns. */
  ghost predicate AnsweredAs(before: Account, t: Attempt, reply: Reply, after: Account) {
    var found := t.fault != LookupFails;
    var locked := before.lockedUntil.Some? && before.lockedUntil.value > t.checkedAt;
    var evaluated := found && t.active && !locked && t.fault != HashFails;
    && (reply == Locked <==> found && t.active && locked)
    && (reply == Unauthorized <==> found && (!t.active || (evaluated && !t.passwordOk)))
    && (reply == MfaToken <==> evaluated && t.passwordOk && t.fault !in {ResetFails, ResetUnacknowledged})
    && after ==
         if evaluated && t.passwordOk && t.fault != ResetFails then
           Account(0, before.lockedUntil, Some(t.writtenAt), t.ip)
         else if evaluated && !t.passwordOk && t.fault != IncrementFails then
           Account(before.failedLoginCount + 1,
                   if before.failedLoginCount + 1 >= 5 then Some(t.writtenAt + 900) else before.lockedUntil,
                   before.lastLoginAt, before.lastLoginIp)
         else before
  }

  class StaffRow {
    var failedLoginCount: int
    var lockedUntil: Option<Seconds>
    var lastLoginAt: Option<Seconds>
    var lastLoginIp: Option<string>

    constructor ()
      ensures Row() == Account(0, None, None, None)
    {
      failedLoginCount, lockedUntil, lastLoginAt, lastLoginIp := 0, None, None, None;
    }

    function Row(): Account
      reads this
    {
      Account(failedLoginCount, lockedUntil, lastLoginAt, lastLoginIp)
    }

    method IncrementFailedLogin(now: Seconds) returns (locked: Option<Seconds>)
      modifies this
      ensures Row() == Failed(old(Row()), now) && locked == lockedUntil
      ensures failedLoginCount == old(failedLoginCount) + 1
      ensures lockedUntil == if failedLoginCount >= 5 then Some(now + 900) else old(lockedUntil)
      ensures lastLoginAt == old(lastLoginAt) && lastLoginIp == old(lastLoginIp)
    {
      if failedLoginCount + 1 >= MAX_FAILURES {
        lockedUntil := Some(now + LOCK);
      }
      failedLoginCount := failedLoginCount + 1;
      return lockedUntil;
    }

    method UpdateLastLogin(now: Seconds, ip: Option<string>)
      modifies this
      ensures Row() == Reset(old(Row()), now, ip)
      ensures failedLoginCount == 0 && lastLoginAt == Some(now) && lastLoginIp == ip
      ensures lockedUntil == old(lockedUntil)
    {
      lastLoginAt, lastLoginIp, failedLoginCount := Some(now), ip, 0;
    }

    method Login(t: Attempt) returns (reply: Reply)
      modifies this
      ensures reply == ReplyTo(old(Row()), t) && Row() == After(old(Row()), t)
      ensures AnsweredAs(old(Row()), t, reply, Row())
    {
      if t.fault.LookupFails? {
        return ServerError;
      }
      if !t.active {
        return Unauthorized;
      }
      if lockedUntil.Some? && lockedUntil.value > t.checkedAt {
        return Locked;
      }
      if t.fault.HashFails? {
        return ServerError;
      }
      if !t.passwordOk {
        if !t.fault.IncrementFails? { // a lost increment goes unnoticed
          var _ := IncrementFailedLogin(t.writtenAt);
        }
        return Unauthorized;
      }
      if t.fault.ResetFails? {
        return ServerError;
      }
      UpdateLastLogin(t.writtenAt, t.ip);
      if t.fault.ResetUnacknowledged? {
        return ServerError;
      }
      return MfaToken;
    }
  }

  // ----- whole runs -----

  /** The account before the i-th attempt. */
  function At(a: Account, ts: seq<Attempt>, i: nat): Account
    requires i <= |ts|
  {
    if i == 0 then a else After(At(a, ts, i - 1), ts[i - 1])
  }

  /** The answer to the i-th attempt. */
  function AnswerTo(a: Account, ts: seq<Attempt>, i: nat): Reply
    requires i < |ts|
  {
    ReplyTo(At(a, ts, i), ts[i])
  }

  /** Over any run each attempt is answered and counted as its columns say. So a token is issued exactly for an
      evaluated right password whose reset is acknowledged, and leaves the counter at zero; and an evaluated wrong
      password is refused whether or not its increment is lost. */
  lemma {:induction false} RunAnswers(a: Account, ts: seq<Attempt>, i: nat)
    requires i < |ts|
    ensures At(a, ts, 0) == a
    ensures AnsweredAs(At(a, ts, i), ts[i], AnswerTo(a, ts, i), At(a, ts, i + 1))
    ensures AnswerTo(a, ts, i) == MfaToken ==> At(a, ts, i + 1).failedLoginCount == 0
    ensures Evaluates(At(a, ts, i), ts[i]) && !ts[i].passwordOk ==> AnswerTo(a, ts, i) == Unauthorized
  {
  }

  predicate Fails(a: Account, ts: seq<Attempt>, i: nat)
    requires i < |ts|
  {
    Evaluates(At(a, ts, i), ts[i]) && Counts(ts[i])
  }

  predicate Succeeds(a: Account, ts: seq<Attempt>, i: nat): (yes: bool)
    requires i < |ts|
    ensures yes <==> Evaluates(At(a, ts, i), ts[i]) && ts[i].passwordOk && ts[i].fault != ResetFails
  {
    Evaluates(At(a, ts, i), ts[i]) && Resets(ts[i])
  }

  /** Requests come one after another on one non-decreasing clock. */
  ghost predicate InOrder(ts: seq<Attempt>) {
    && (forall i :: 0 <= i < |ts| ==> ts[i].checkedAt <= ts[i].writtenAt)
    && (forall i, j :: 0 <= i < j < |ts| ==> ts[i].writtenAt <= ts[j].checkedAt)
  }

  /** The counted failures among attempts lo..hi, in order. */
  function Failures(a: Account, ts: seq<Attempt>, lo: nat, hi: nat): (fs: seq<nat>)
    requires lo <= hi <= |ts|
    ensures forall k :: 0 <= k < |fs| ==> lo <= fs[k] < hi
  {
    if lo == hi then []
    else Failures(a, ts, lo, hi - 1) + (if Fails(a, ts, hi - 1) then [hi - 1] else [])
  }

  lemma {:induction false} FailuresAreAll(a: Account, ts: seq<Attempt>, lo: nat, hi: nat)
    requires lo <= hi <= |ts|
    ensures
      var fs := Failures(a, ts, lo, hi);
      && (forall k, l :: 0 <= k < l < |fs| ==> fs[k] < fs[l])
      && (forall i :: lo <= i < hi ==> (i in fs <==> Fails(a, ts, i)))
    decreases hi - lo
  {
    if lo < hi {
      FailuresAreAll(a, ts, lo, hi - 1);
    }
  }

  /** Between successes the counter counts, and from the fifth failure on the lock stands at fifteen
      minutes after the latest one. */
  lemma {:induction false} CounterCounts(a: Account, ts: seq<Attempt>, lo: nat, hi: nat)
    requires lo <= hi <= |ts| && At(a, ts, lo).failedLoginCount >= 0
    requires forall i :: lo <= i < hi ==> !Succeeds(a, ts, i)
    ensures
      var fs := Failures(a, ts, lo, hi);
      && At(a, ts, hi).failedLoginCount == At(a, ts, lo).failedLoginCount + |fs|
      && (|fs| >= 1 && At(a, ts, hi).failedLoginCount >= 5 ==>
            At(a, ts, hi).lockedUntil == Some(ts[fs[|fs| - 1]].writtenAt + 900))
    decreases hi - lo
  {
    if lo < hi {
      CounterCounts(a, ts, lo, hi - 1);
      assert !Succeeds(a, ts, hi - 1);
      assert At(a, ts, hi) == After(At(a, ts, hi - 1), ts[hi - 1]);
    }
  }

  lemma {:induction false} CounterNotNegative(a: Account, ts: seq<Attempt>, i: nat)
    requires i <= |ts| && a.failedLoginCount >= 0
    ensures At(a, ts, i).failedLoginCount >= 0
  {
    if i > 0 {
      CounterNotNegative(a, ts, i - 1);
    }
  }

  /** From the fifth counted failure in `fs` to the last one. */
  ghost predicate Spread(ts: seq<Attempt>, fs: seq<nat>)
    requires forall k :: 0 <= k < |fs| ==> fs[k] < |ts|
  {
    var n := |fs|;
    n >= MAX_FAILURES ==> ts[fs[n - 1]].writtenAt - ts[fs[MAX_FAILURES - 1]].writtenAt >= (n - MAX_FAILURES) * LOCK
  }

  lemma {:induction false} SpreadGrows(ts: seq<Attempt>, fs: seq<nat>, f: nat)
    requires (forall k :: 0 <= k < |fs| ==> fs[k] < |ts|) && f < |ts| && Spread(ts, fs)
    requires |fs| >= MAX_FAILURES ==> ts[f].writtenAt >= ts[fs[|fs| - 1]].writtenAt + LOCK
    ensures Spread(ts, fs + [f])
  {
    assert (|fs| + 1 - MAX_FAILURES) * LOCK == (|fs| - MAX_FAILURES) * LOCK + LOCK;
  }

  /** n counted failures without a success between them span at least (n - 5) * 15 minutes from the fifth to
      the n-th, also when locks expire on the way; and `Failures` lists all of them, in order. */
  lemma {:induction false} FailuresAreSpread(a: Account, ts: seq<Attempt>, lo: nat, hi: nat)
    requires a.failedLoginCount >= 0 && InOrder(ts) && lo <= hi <= |ts|
    requires forall i :: lo <= i < hi ==> !Succeeds(a, ts, i)
    ensures
      var fs := Failures(a, ts, lo, hi);
      && (|fs| >= 5 ==> ts[fs[|fs| - 1]].writtenAt - ts[fs[4]].writtenAt >= (|fs| - 5) * 900)
      && (forall k, l :: 0 <= k < l < |fs| ==> fs[k] < fs[l])
      && (forall i :: lo <= i < hi ==>
            (i in fs <==> Evaluates(At(a, ts, i), ts[i]) && !ts[i].passwordOk && ts[i].fault != IncrementFails))
  {
    FailuresAreAll(a, ts, lo, hi);
    SpreadHolds(a, ts, lo, hi);
  }

  lemma {:induction false} SpreadHolds(a: Account, ts: seq<Attempt>, lo: nat, hi: nat)
    requires a.failedLoginCount >= 0 && InOrder(ts) && lo <= hi <= |ts|
    requires forall i :: lo <= i < hi ==> !Succeeds(a, ts, i)
    ensures Spread(ts, Failures(a, ts, lo, hi))
    decreases hi - lo
  {
    if lo < hi {
      var fs := Failures(a, ts, lo, hi - 1);
      SpreadHolds(a, ts, lo, hi - 1);
      if Fails(a, ts, hi - 1) {
        if |fs| >= MAX_FAILURES {
          NextFailureWaits(a, ts, lo, hi - 1);
        }
        assert Failures(a, ts, lo, hi) == fs + [hi - 1];
        hide Spread, Failures, Fails, Succeeds;
        SpreadGrows(ts, fs, hi - 1);
      } else {
        assert Failures(a, ts, lo, hi) == fs;
      }
    }
  }

  lemma {:induction false} NextFailureWaits(a: Account, ts: seq<Attempt>, lo: nat, i: nat)
    requires a.failedLoginCount >= 0 && InOrder(ts) && lo <= i < |ts|
    requires forall j :: lo <= j < i ==> !Succeeds(a, ts, j)
    requires Fails(a, ts, i) && |Failures(a, ts, lo, i)| >= MAX_FAILURES
    ensures
      var fs := Failures(a, ts, lo, i);
      ts[i].writtenAt >= ts[fs[|fs| - 1]].writtenAt + LOCK
  {
    CounterNotNegative(a, ts, lo);
    CounterCounts(a, ts, lo, i);
  }

  /** While the lock stands, nothing about the row changes: no password is evaluated. */
  lemma {:induction false} LockedRowIsFrozen(a: Account, ts: seq<Attempt>, i: nat, j: nat)
    requires i <= j <= |ts|
    requires forall k :: i <= k < j ==> IsLocked(At(a, ts, i), ts[k].checkedAt)
    ensures At(a, ts, j) == At(a, ts, i)
    decreases j
  {
    if i < j {
      LockedRowIsFrozen(a, ts, i, j - 1);
    }
  }

  /** Nor does any number of wrong passwords whose increments are lost, and all of them are evaluated. */
  lemma {:induction false} LostIncrementsCountNothing(a: Account, ts: seq<Attempt>, i: nat, j: nat)
    requires i <= j <= |ts|
    requires forall k :: i <= k < j ==>
               ts[k].active && !ts[k].passwordOk && ts[k].fault.IncrementFails?
               && !IsLocked(At(a, ts, i), ts[k].checkedAt)
    ensures At(a, ts, j) == At(a, ts, i)
    ensures forall k :: i <= k < j ==> Evaluates(At(a, ts, k), ts[k])
    decreases j
  {
    if i < j {
      LostIncrementsCountNothing(a, ts, i, j - 1);
    }
  }

  /** The wrong passwords that are evaluated among attempts lo..hi, in order. */
  function WrongGuesses(a: Account, ts: seq<Attempt>, lo: nat, hi: nat): (gs: seq<nat>)
    requires lo <= hi <= |ts|
    ensures forall k :: 0 <= k < |gs| ==> lo <= gs[k] < hi
  {
    if lo == hi then []
    else
      var wrong := Evaluates(At(a, ts, hi - 1), ts[hi - 1]) && !ts[hi - 1].passwordOk;
      WrongGuesses(a, ts, lo, hi - 1) + (if wrong then [hi - 1] else [])
  }

  ghost predicate LosesNoIncrement(ts: seq<Attempt>, gs: seq<nat>)
    requires forall k :: 0 <= k < |gs| ==> gs[k] < |ts|
  {
    forall k :: 0 <= k < |gs| ==> !ts[gs[k]].fault.IncrementFails?
  }

  lemma {:induction false} LosesNoIncrementAppend(ts: seq<Attempt>, gs: seq<nat>, g: nat)
    requires (forall k :: 0 <= k < |gs| ==> gs[k] < |ts|) && g < |ts|
    ensures LosesNoIncrement(ts, gs + [g]) <==> LosesNoIncrement(ts, gs) && !ts[g].fault.IncrementFails?
  {
    assert (gs + [g])[|gs|] == g;
    assert forall k :: 0 <= k < |gs| ==> (gs + [g])[k] == gs[k];
  }

  lemma {:induction false} FewerFailures(a: Account, ts: seq<Attempt>, lo: nat, hi: nat)
    requires lo <= hi <= |ts|
    ensures |Failures(a, ts, lo, hi)| <= |WrongGuesses(a, ts, lo, hi)|
    decreases hi - lo
  {
    if lo < hi {
      FewerFailures(a, ts, lo, hi - 1);
    }
  }

  /** The recorded failures are all the wrong passwords evaluated exactly when no increment is lost. */
  lemma {:induction false} AllGuessesCountedExactly(a: Account, ts: seq<Attempt>, lo: nat, hi: nat)
    requires lo <= hi <= |ts|
    ensures Failures(a, ts, lo, hi) == WrongGuesses(a, ts, lo, hi)
      <==> LosesNoIncrement(ts, WrongGuesses(a, ts, lo, hi))
    decreases hi - lo
  {
    if lo < hi {
      var fs, gs := Failures(a, ts, lo, hi - 1), WrongGuesses(a, ts, lo, hi - 1);
      AllGuessesCountedExactly(a, ts, lo, hi - 1);
      FewerFailures(a, ts, lo, hi - 1);
      hide At, Evaluates, LosesNoIncrement;
      LosesNoIncrementAppend(ts, gs, hi - 1);
      if Evaluates(At(a, ts, hi - 1), ts[hi - 1]) && !ts[hi - 1].passwordOk {
        assert WrongGuesses(a, ts, lo, hi) == gs + [hi - 1];
        if ts[hi - 1].fault.IncrementFails? {
          assert Failures(a, ts, lo, hi) == fs;
        } else {
          assert Failures(a, ts, lo, hi) == fs + [hi - 1];
          SameInit(fs, gs, hi - 1);
        }
      } else {
        assert WrongGuesses(a, ts, lo, hi) == gs && Failures(a, ts, lo, hi) == fs;
      }
    }
  }

  lemma {:induction false} SameInit(fs: seq<nat>, gs: seq<nat>, x: nat)
    ensures fs + [x] == gs + [x] <==> fs == gs
  {
    if fs + [x] == gs + [x] {
      assert fs == (fs + [x])[..|fs|] && gs == (gs + [x])[..|gs|];
    }
  }

  /** So without lost increments n wrong passwords without a success between them are spread as far. */
  lemma {:induction false} GuessesAreSpread(a: Account, ts: seq<Attempt>, lo: nat, hi: nat)
    requires a.failedLoginCount >= 0 && InOrder(ts) && lo <= hi <= |ts|
    requires forall i :: lo <= i < hi ==> !Succeeds(a, ts, i)
    requires LosesNoIncrement(ts, WrongGuesses(a, ts, lo, hi))
    ensures
      var gs := WrongGuesses(a, ts, lo, hi);
      |gs| >= 5 ==> ts[gs[|gs| - 1]].writtenAt - ts[gs[4]].writtenAt >= (|gs| - 5) * 900
  {
    AllGuessesCountedExactly(a, ts, lo, hi);
    FailuresAreSpread(a, ts, lo, hi);
  }
}
