/** The failed-attempt counter and the timed lock of one account. Logins of an account are serial: the
    handler holds its row lock. */
module Login {
  import opened Options

  const MAX_FAILED_LOGIN_ATTEMPTS := 5
  const LOCK_SECONDS := 15 * 60

  /** A failed login never says why to the caller; the reasons are told apart here. */
  datatype Outcome = Disabled | Locked | WrongPassword | NoOrganization | LoggedIn

  datatype Account = Account(failedAttempts: nat, lockedUntil: Option<nat>)

  /** One request: when it checks the lock, when it would set one, and what the lookups answer. */
  datatype Attempt = Attempt(at: nat, lockAt: nat, active: bool, passwordValid: bool, hasOrganization: bool)

  function Attempted(account: Account, a: Attempt): (Account, Outcome) {
    if !a.active then (account, Disabled)
    else if account.lockedUntil.Some? && a.at < account.lockedUntil.value then (account, Locked)
    else if a.passwordValid then
      (Account(0, None), if a.hasOrganization then LoggedIn else NoOrganization)
    else
      var failed := (if account.lockedUntil.Some? then 0 else account.failedAttempts) + 1;
      (Account(failed, if failed >= MAX_FAILED_LOGIN_ATTEMPTS then Some(a.lockAt + LOCK_SECONDS) else None),
        WrongPassword)
  }

  class User {
    var failedLoginAttempts: nat
    var lockedUntil: Option<nat>

    constructor ()
      ensures State() == Account(0, None)
    {
      failedLoginAttempts, lockedUntil := 0, None;
    }

    ghost function State(): Account
      reads this
    {
      Account(failedLoginAttempts, lockedUntil)
    }

    /** `login`. */
    method Login(a: Attempt) returns (outcome: Outcome)
      modifies this
      ensures (State(), outcome) == Attempted(old(State()), a)
    {
      if !a.active {
        return Disabled;
      }
      if lockedUntil.Some? && !(lockedUntil.value <= a.at) {
        return Locked;
      }
      if lockedUntil.Some? {
        lockedUntil := None;
        failedLoginAttempts := 0;
      }
      if !a.passwordValid {
        failedLoginAttempts := failedLoginAttempts + 1;
        if failedLoginAttempts >= MAX_FAILED_LOGIN_ATTEMPTS {
          lockedUntil := Some(a.lockAt + LOCK_SECONDS);
        }
        return WrongPassword;
      }
      failedLoginAttempts := 0;
      lockedUntil := None;
      return if a.hasOrganization then LoggedIn else NoOrganization;
    }
  }

  // ---- Runs ----

  /** The account and the outcome after each attempt of a run. */
  function History(account: Account, attempts: seq<Attempt>): (r: seq<(Account, Outcome)>)
    ensures |r| == |attempts|
    decreases |attempts|
  {
    if attempts == [] then []
    else
      var step := Attempted(account, attempts[0]);
      [step] + History(step.0, attempts[1..])
  }

  /** Clock readings of serial requests never go back. */
  predicate Timed(attempts: seq<Attempt>) {
    && (forall k | 0 <= k < |attempts| :: attempts[k].at <= attempts[k].lockAt)
    && (forall j, k | 0 <= j < k < |attempts| :: attempts[j].lockAt <= attempts[k].at)
  }

  /** The counter stays within its bound and is full exactly while a lock is recorded. */
  predicate Consistent(account: Account) {
    && account.failedAttempts <= MAX_FAILED_LOGIN_ATTEMPTS
    && (account.failedAttempts == MAX_FAILED_LOGIN_ATTEMPTS <==> account.lockedUntil.Some?)
  }

  lemma {:induction false} AlwaysConsistent(account: Account, attempts: seq<Attempt>)
    requires Consistent(account)
    ensures forall k | 0 <= k < |attempts| :: Consistent(History(account, attempts)[k].0)
    decreases |attempts|
  {
    if attempts == [] {
    } else {
      AlwaysConsistent(Attempted(account, attempts[0]).0, attempts[1..]);
    }
  }

  function WrongPasswords(account: Account, attempts: seq<Attempt>): nat
    decreases |attempts|
  {
    if attempts == [] then 0
    else
      var step := Attempted(account, attempts[0]);
      (if step.1.WrongPassword? then 1 else 0) + WrongPasswords(step.0, attempts[1..])
  }

  predicate NoneAccepted(account: Account, attempts: seq<Attempt>) {
    forall k | 0 <= k < |attempts| ::
      !History(account, attempts)[k].1.LoggedIn? && !History(account, attempts)[k].1.NoOrganization?
  }

  predicate InWindow(attempts: seq<Attempt>, start: nat) {
    forall k | 0 <= k < |attempts| :: start <= attempts[k].at < start + LOCK_SECONDS
  }

  /** How many wrong passwords the account will still process before the window ends. */
  function Budget(account: Account, start: nat): nat
    requires Consistent(account)
  {
    match account.lockedUntil
    case Some(until) => if until >= start + LOCK_SECONDS then 0 else MAX_FAILED_LOGIN_ATTEMPTS
    case None => MAX_FAILED_LOGIN_ATTEMPTS - account.failedAttempts
  }

  lemma StepSpends(account: Account, a: Attempt, start: nat)
    requires Consistent(account) && start <= a.at < start + LOCK_SECONDS && a.at <= a.lockAt
    requires var outcome := Attempted(account, a).1; !outcome.LoggedIn? && !outcome.NoOrganization?
    ensures var step := Attempted(account, a);
      && Consistent(step.0)
      && Budget(step.0, start) + (if step.1.WrongPassword? then 1 else 0) <= Budget(account, start)
  {
  }

  lemma {:induction false} WindowSpends(account: Account, attempts: seq<Attempt>, start: nat)
    requires Consistent(account) && Timed(attempts)
    requires InWindow(attempts, start) && NoneAccepted(account, attempts)
    ensures WrongPasswords(account, attempts) <= Budget(account, start)
    decreases |attempts|
  {
    if attempts == [] {
    } else {
      var step := Attempted(account, attempts[0]);
      assert History(account, attempts)[0] == step;
      StepSpends(account, attempts[0], start);
      forall k | 0 <= k < |attempts| - 1
        ensures History(step.0, attempts[1..])[k] == History(account, attempts)[k + 1]
      {
      }
      WindowSpends(step.0, attempts[1..], start);
    }
  }

  function After(account: Account, attempts: seq<Attempt>): Account {
    if attempts == [] then account else History(account, attempts)[|attempts| - 1].0
  }

  /** In any 15-minute window in which no password is accepted, at most five wrong ones are processed,
      whatever happened before. */
  lemma FiveGuessesPerWindow(account: Account, before: seq<Attempt>, window: seq<Attempt>, start: nat)
    requires Consistent(account) && Timed(before + window)
    requires InWindow(window, start) && NoneAccepted(After(account, before), window)
    ensures WrongPasswords(After(account, before), window) <= MAX_FAILED_LOGIN_ATTEMPTS
  {
    AlwaysConsistent(account, before);
    assert Timed(window) by {
      forall k | 0 <= k < |window| ensures window[k].at <= window[k].lockAt {
        assert (before + window)[|before| + k] == window[k];
      }
      forall j, k | 0 <= j < k < |window| ensures window[j].lockAt <= window[k].at {
        assert (before + window)[|before| + j] == window[j] && (before + window)[|before| + k] == window[k];
      }
    }
    WindowSpends(After(account, before), window, start);
  }

  /** A recorded lock refuses even the right password, unchanged, exactly until it expires. */
  lemma LockHoldsUntilExpiry(account: Account, a: Attempt)
    requires a.active && a.passwordValid && a.hasOrganization
    ensures Attempted(account, a) == (account, Locked)
      <==> account.lockedUntil.Some? && a.at < account.lockedUntil.value
    ensures Attempted(account, a) != (account, Locked) ==> Attempted(account, a) == (Account(0, None), LoggedIn)
  {
  }

  // ---- The account as a function of the outcomes ----

  const FRESH := Account(0, None)

  function Outcomes(attempts: seq<Attempt>): (r: seq<Outcome>)
    ensures |r| == |attempts|
  {
    seq(|attempts|, k requires 0 <= k < |attempts| => History(FRESH, attempts)[k].1)
  }

  /** How many wrong passwords were processed since a password was last accepted. */
  function Streak(outcomes: seq<Outcome>): nat {
    if outcomes == [] then 0
    else
      var last, before := outcomes[|outcomes| - 1], outcomes[..|outcomes| - 1];
      if last.LoggedIn? || last.NoOrganization? then 0
      else if last.WrongPassword? then Streak(before) + 1
      else Streak(before)
  }

  /** When the last wrong password was processed; 0 without one. */
  function LastWrongAt(attempts: seq<Attempt>, outcomes: seq<Outcome>): nat
    requires |outcomes| == |attempts|
  {
    if outcomes == [] then 0
    else
      var n := |outcomes| - 1;
      if outcomes[n].WrongPassword? then attempts[n].lockAt else LastWrongAt(attempts[..n], outcomes[..n])
  }

  /** A lock is on record after every fifth wrong password of a streak. */
  predicate LockRecorded(outcomes: seq<Outcome>) {
    Streak(outcomes) > 0 && Streak(outcomes) % 5 == 0
  }

  lemma {:induction false} HistoryAppend(account: Account, attempts: seq<Attempt>, a: Attempt)
    ensures History(account, attempts + [a]) == History(account, attempts) + [Attempted(After(account, attempts), a)]
    decreases |attempts|
  {
    if attempts == [] {
      assert [] + [a] == [a] && [a][1..] == [];
    } else {
      var step, rest := Attempted(account, attempts[0]), attempts[1..];
      hide Attempted;
      HistoryAppend(step.0, rest, a);
      assert (attempts + [a])[1..] == rest + [a];
      assert After(account, attempts) == After(step.0, rest);
    }
  }

  lemma OutcomesAppend(attempts: seq<Attempt>, a: Attempt)
    ensures Outcomes(attempts + [a]) == Outcomes(attempts) + [Attempted(After(FRESH, attempts), a).1]
    ensures After(FRESH, attempts + [a]) == Attempted(After(FRESH, attempts), a).0
  {
    hide Attempted;
    HistoryAppend(FRESH, attempts, a);
  }

  lemma StreakAppend(attempts: seq<Attempt>, outcomes: seq<Outcome>, a: Attempt, o: Outcome)
    requires |outcomes| == |attempts|
    ensures Streak(outcomes + [o]) == if o.LoggedIn? || o.NoOrganization? then 0
      else Streak(outcomes) + (if o.WrongPassword? then 1 else 0)
    ensures LastWrongAt(attempts + [a], outcomes + [o])
      == if o.WrongPassword? then a.lockAt else LastWrongAt(attempts, outcomes)
  {
    var n := |outcomes|;
    assert (outcomes + [o])[..n] == outcomes && (attempts + [a])[..n] == attempts;
  }

  /** The account that a streak of wrong passwords, the last at `lastWrong`, leaves. */
  function AccountFor(streak: nat, lastWrong: nat): Account {
    Account(if streak == 0 then 0 else (streak - 1) % 5 + 1,
            if streak > 0 && streak % 5 == 0 then Some(lastWrong + 900) else None)
  }

  lemma AccountStep(a: Attempt, streak: nat, lastWrong: nat)
    ensures
      var step := Attempted(AccountFor(streak, lastWrong), a);
      step.0 == AccountFor(
        if step.1.LoggedIn? || step.1.NoOrganization? then 0 else streak + (if step.1.WrongPassword? then 1 else 0),
        if step.1.WrongPassword? then a.lockAt else lastWrong)
  {
  }

  /** The account after a run is determined by the outcomes alone: its counter runs from 1 to 5 over a streak
      of wrong passwords and starts again, and its lock lasts 900 seconds from the last fifth one. */
  lemma {:induction false} AccountExactly(attempts: seq<Attempt>)
    ensures After(FRESH, attempts) == AccountFor(Streak(Outcomes(attempts)), LastWrongAt(attempts, Outcomes(attempts)))
    decreases |attempts|
  {
    if attempts == [] {
    } else {
      hide *;
      var n := |attempts| - 1;
      var before, a := attempts[..n], attempts[n];
      assert attempts == before + [a];
      AccountExactly(before);
      OutcomesAppend(before, a);
      StreakAppend(before, Outcomes(before), a, Attempted(After(FRESH, before), a).1);
      AccountStep(a, Streak(Outcomes(before)), LastWrongAt(before, Outcomes(before)));
    }
  }

  /** Every outcome of a run on a new account, from the outcomes before it: a disabled account is refused, one
      with an unexpired lock too, and otherwise the password alone decides. */
  lemma OutcomeExactly(attempts: seq<Attempt>, k: nat)
    requires k < |attempts|
    ensures
      var a, before := attempts[k], Outcomes(attempts[..k]);
      History(FRESH, attempts)[k].1
      == if !a.active then Disabled
         else if LockRecorded(before) && a.at < LastWrongAt(attempts[..k], before) + 900 then Locked
         else if !a.passwordValid then WrongPassword
         else if a.hasOrganization then LoggedIn else NoOrganization
  {
    AccountExactly(attempts[..k]);
    HistoryAt(attempts, k);
    hide Outcomes, After, History, Streak, LastWrongAt;
  }

  lemma {:induction false} HistoryAt(attempts: seq<Attempt>, k: nat)
    requires k < |attempts|
    ensures History(FRESH, attempts)[k] == Attempted(After(FRESH, attempts[..k]), attempts[k])
    decreases |attempts|
  {
    var n := |attempts| - 1;
    assert attempts == attempts[..n] + [attempts[n]];
    hide Attempted;
    HistoryAppend(FRESH, attempts[..n], attempts[n]);
    if k < n {
      HistoryAt(attempts[..n], k);
      assert attempts[..n][..k] == attempts[..k];
    }
  }

  lemma EarlyOutcome(attempts: seq<Attempt>, a: Attempt)
    requires a.active && Streak(Outcomes(attempts)) <= 4
    ensures History(FRESH, attempts + [a])[|attempts|].1
      == if !a.passwordValid then WrongPassword else if a.hasOrganization then LoggedIn else NoOrganization
  {
    hide Outcomes, History, Streak, LastWrongAt;
    assert (attempts + [a])[..|attempts|] == attempts;
    OutcomeExactly(attempts + [a], |attempts|);
  }

  lemma StreakAfterWrong(attempts: seq<Attempt>, a: Attempt)
    requires Attempted(After(FRESH, attempts), a).1.WrongPassword?
    ensures Streak(Outcomes(attempts + [a])) == Streak(Outcomes(attempts)) + 1
    ensures LastWrongAt(attempts + [a], Outcomes(attempts + [a])) == a.lockAt
  {
    hide Outcomes, History, After, Streak, LastWrongAt, Attempted;
    OutcomesAppend(attempts, a);
    StreakAppend(attempts, Outcomes(attempts), a, Attempted(After(FRESH, attempts), a).1);
  }

  /** Up to four wrong passwords never lock: after them a right password is accepted at any time. The fifth
      records a lock of 900 seconds from its own time. */
  lemma FifthWrongLocks(attempts: seq<Attempt>, a: Attempt)
    requires a.active && Streak(Outcomes(attempts)) <= 4
    ensures a.passwordValid ==>
      History(FRESH, attempts + [a])[|attempts|].1 == (if a.hasOrganization then LoggedIn else NoOrganization)
    ensures !a.passwordValid ==>
      After(FRESH, attempts + [a]).lockedUntil
        == if Streak(Outcomes(attempts)) == 4 then Some(a.lockAt + 900) else None
  {
    hide Outcomes, History, After, Streak, LastWrongAt, Attempted;
    EarlyOutcome(attempts, a);
    if !a.passwordValid {
      HistoryAppend(FRESH, attempts, a);
      StreakAfterWrong(attempts, a);
      AccountExactly(attempts + [a]);
    }
  }
}
