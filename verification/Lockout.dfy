/** Password login: the failure counter, the lock it sets, and how many guesses that leaves. */
module Lockout {
  import opened Wrappers

  /** Times are milliseconds: a lock lasts fifteen minutes. */
  const LOCK_MILLIS := 900000
  const MAX_FAILURES := 5

  datatype Credential = Credential(userId: string, password: string, failedAttempts: nat, lockedUntil: Option<int>)

  datatype LoginResult =
    | LoggedIn(userId: string) | InvalidCredentials | Locked(minutesLeft: int) | AccountInactive | StoreFailed

  /** What `Login` does to the counter and the lock when the password was compared and was wrong. */
  function AfterFailure(c: Credential, now: int): Credential {
    var failures := c.failedAttempts + 1;
    c.(failedAttempts := failures,
       lockedUntil := if failures >= MAX_FAILURES then Some(now + LOCK_MILLIS) else c.lockedUntil)
  }

  predicate IsLocked(c: Credential, now: int) {
    c.lockedUntil.Some? && c.lockedUntil.value > now
  }

  class Service {
    var credentials: map<string, Credential>
    /** The status of each user, by user id. */
    var statuses: map<string, string>

    constructor (credentials: map<string, Credential>, statuses: map<string, string>)
      ensures this.credentials == credentials && this.statuses == statuses
    {
      this.credentials, this.statuses := credentials, statuses;
    }

    /**
     `username` is already normalized, `saved` is the outcome of saving the credential. A failure to save a failed
     attempt is ignored; a failure to save the reset ends the login.
     */
    method Login(username: string, password: string, now: int, saved: bool) returns (r: LoginResult)
      modifies this`credentials
      ensures username !in old(credentials) ==> r == InvalidCredentials && credentials == old(credentials)
      ensures username in old(credentials) ==>
        var c := old(credentials)[username];
        if c.lockedUntil.Some? && now < c.lockedUntil.value then
          r == Locked((c.lockedUntil.value - now) / 60000) && credentials == old(credentials)
        else if password != c.password then
          && r == InvalidCredentials
          && credentials == if !saved then old(credentials) else old(credentials)[username := c.(
               failedAttempts := c.failedAttempts + 1,
               lockedUntil := if c.failedAttempts >= 4 then Some(now + 15 * 60 * 1000) else c.lockedUntil)]
        else if !saved then
          r == StoreFailed && credentials == old(credentials)
        else
          && credentials == old(credentials)[username := c.(failedAttempts := 0, lockedUntil := None)]
          && r == if c.userId !in statuses then InvalidCredentials
                  else if statuses[c.userId] in {"DISABLED", "PENDING", "MERGED"} then AccountInactive
                  else LoggedIn(c.userId)
    {
      if username !in credentials { return InvalidCredentials; }
      var cred := credentials[username];
      if cred.lockedUntil.Some? && cred.lockedUntil.value > now {
        return Locked((cred.lockedUntil.value - now) / 60000);
      }
      if password != cred.password {
        cred := cred.(failedAttempts := cred.failedAttempts + 1);
        if cred.failedAttempts >= MAX_FAILURES {
          cred := cred.(lockedUntil := Some(now + LOCK_MILLIS));
        }
        if saved {
          credentials := credentials[username := cred];
        }
        return InvalidCredentials;
      }
      cred := cred.(failedAttempts := 0, lockedUntil := None);
      if !saved { return StoreFailed; }
      credentials := credentials[username := cred];
      if cred.userId !in statuses { return InvalidCredentials; }
      if statuses[cred.userId] in {"DISABLED", "PENDING", "MERGED"} { return AccountInactive; }
      return LoggedIn(cred.userId);
    }
  }

  // ----- Guessing -----

  /** A wrong password tried at a time, and whether saving the failed attempt would succeed. */
  datatype Guess = Guess(at: int, saved: bool)

  /** The credential after the first `n` of the guesses. */
  ghost function AfterGuesses(c: Credential, guesses: seq<Guess>, n: nat): Credential
    requires n <= |guesses|
  {
    if n == 0 then c
    else
      var was, g := AfterGuesses(c, guesses, n - 1), guesses[n - 1];
      if IsLocked(was, g.at) || !g.saved then was else AfterFailure(was, g.at)
  }

  /** The guesses among the first `n` whose passwords were actually compared. */
  ghost function Compared(c: Credential, guesses: seq<Guess>, n: nat): nat
    requires n <= |guesses|
  {
    if n == 0 then 0
    else Compared(c, guesses, n - 1) + if IsLocked(AfterGuesses(c, guesses, n - 1), guesses[n - 1].at) then 0 else 1
  }

  /** The compared guesses among the first `n` whose failed attempt was not saved. */
  ghost function Lost(c: Credential, guesses: seq<Guess>, n: nat): nat
    requires n <= |guesses|
  {
    if n == 0 then 0
    else
      Lost(c, guesses, n - 1) +
      if IsLocked(AfterGuesses(c, guesses, n - 1), guesses[n - 1].at) || guesses[n - 1].saved then 0 else 1
  }

  ghost predicate InOrder(guesses: seq<Guess>) {
    forall i, j :: 0 <= i < j < |guesses| ==> guesses[i].at <= guesses[j].at
  }

  ghost predicate Clean(c: Credential) {
    c.failedAttempts == 0 && c.lockedUntil == None
  }

  /** The guess that is the fifth to be compared and saved, and so the first to set the lock. */
  ghost predicate FifthGuess(c: Credential, guesses: seq<Guess>, fifth: nat)
    requires fifth < |guesses|
  {
    && Compared(c, guesses, fifth) - Lost(c, guesses, fifth) == 4
    && Compared(c, guesses, fifth + 1) - Lost(c, guesses, fifth + 1) == 5
  }

  /**
   The counter is the number of compared guesses but for the lost ones, and the lock stands a lock period after
   the last of them.
   */
  lemma {:induction false} CounterCountsGuesses(c: Credential, guesses: seq<Guess>, n: nat)
    requires Clean(c) && InOrder(guesses) && n <= |guesses|
    ensures AfterGuesses(c, guesses, n).failedAttempts == Compared(c, guesses, n) - Lost(c, guesses, n)
    ensures AfterGuesses(c, guesses, n).failedAttempts < MAX_FAILURES ==>
      AfterGuesses(c, guesses, n).lockedUntil == None
    ensures AfterGuesses(c, guesses, n).failedAttempts >= MAX_FAILURES ==>
      AfterGuesses(c, guesses, n).lockedUntil.Some? && n > 0
      && AfterGuesses(c, guesses, n).lockedUntil.value <= guesses[n - 1].at + LOCK_MILLIS
  {
    if n > 0 {
      CounterCountsGuesses(c, guesses, n - 1);
    }
  }

  /** From the fifth saved guess on, each further one waits out a whole lock period. */
  lemma {:induction false} GuessesWaitForLocks(c: Credential, guesses: seq<Guess>, fifth: nat, n: nat)
    requires Clean(c) && InOrder(guesses) && fifth < n <= |guesses| && FifthGuess(c, guesses, fifth)
    ensures var counted := Compared(c, guesses, n) - Lost(c, guesses, n);
      && counted >= MAX_FAILURES
      && AfterGuesses(c, guesses, n).lockedUntil.Some?
      && AfterGuesses(c, guesses, n).lockedUntil.value >= guesses[fifth].at + (counted - 4) * LOCK_MILLIS
      && guesses[n - 1].at >= guesses[fifth].at + (counted - 5) * LOCK_MILLIS
  {
    if n == fifth + 1 {
      CounterCountsGuesses(c, guesses, fifth);
    } else {
      GuessesWaitForLocks(c, guesses, fifth, n - 1);
      CounterCountsGuesses(c, guesses, n - 1);
      assert guesses[n - 2].at <= guesses[n - 1].at;
    }
  }

  /**
   Starting from a clean counter and without a successful login, the wrong passwords compared up to a time
   `until` number at most 5, plus the whole quarters of an hour since the fifth saved one, plus those whose failed
   attempt was lost.
   */
  lemma GuessBound(c: Credential, guesses: seq<Guess>, fifth: nat, n: nat, until: int)
    requires Clean(c) && InOrder(guesses) && fifth < n <= |guesses| && FifthGuess(c, guesses, fifth)
    requires guesses[n - 1].at <= until
    ensures Compared(c, guesses, n) <= 5 + (until - guesses[fifth].at) / 900000 + Lost(c, guesses, n)
  {
    GuessesWaitForLocks(c, guesses, fifth, n);
    var extra := Compared(c, guesses, n) - Lost(c, guesses, n) - 5;
    assert until - guesses[fifth].at >= extra * LOCK_MILLIS;
  }

  /** As soon as five guesses have been compared and saved, one of them was the fifth. */
  lemma {:induction false} FifthGuessExists(c: Credential, guesses: seq<Guess>, n: nat) returns (fifth: nat)
    requires n <= |guesses| && Compared(c, guesses, n) - Lost(c, guesses, n) >= 5
    ensures fifth < n && FifthGuess(c, guesses, fifth)
  {
    if Compared(c, guesses, n - 1) - Lost(c, guesses, n - 1) >= 5 {
      fifth := FifthGuessExists(c, guesses, n - 1);
    } else {
      fifth := n - 1;
    }
  }

  /** While no failed attempt can be saved nothing bounds the guesses: all are compared, however fast they come. */
  lemma {:induction false} LostGuessesAreFree(c: Credential, guesses: seq<Guess>, n: nat)
    requires Clean(c) && n <= |guesses| && forall i :: 0 <= i < n ==> !guesses[i].saved
    ensures Compared(c, guesses, n) == Lost(c, guesses, n) == n
    ensures AfterGuesses(c, guesses, n) == c
  {
    if n > 0 {
      LostGuessesAreFree(c, guesses, n - 1);
    }
  }

  /** Five guesses at once and then one at the end of every lock: the patient guesser. */
  ghost function Patient(start: int, n: nat): seq<Guess> {
    seq(n, i requires 0 <= i < n => Guess(if i < 5 then start else start + (i - 4) * LOCK_MILLIS, true))
  }

  lemma PatientInOrder(start: int, n: nat)
    ensures InOrder(Patient(start, n))
  {
  }

  /** The bound is met: every guess of the patient guesser is compared. */
  lemma {:induction false} PatientGuesserAttainsBound(c: Credential, start: int, total: nat, n: nat)
    requires Clean(c) && n <= total
    ensures InOrder(Patient(start, total))
    ensures Compared(c, Patient(start, total), n) == n && Lost(c, Patient(start, total), n) == 0
    ensures n >= 5 ==>
      AfterGuesses(c, Patient(start, total), n).lockedUntil == Some(start + (n - 4) * 900000)
  {
    PatientInOrder(start, total);
    hide InOrder;
    if n > 0 {
      PatientGuesserAttainsBound(c, start, total, n - 1);
      CounterCountsGuesses(c, Patient(start, total), n - 1);
      assert Patient(start, total)[n - 1] == Guess(if n <= 5 then start else start + (n - 5) * LOCK_MILLIS, true);
      hide Patient, Clean;
    }
  }

  // ----- What the service answers -----

  /** Wrong passwords, one login after the other: the guesses compared are those answered as invalid credentials. */
  method TryAll(service: Service, username: string, passwords: seq<string>, guesses: seq<Guess>)
    returns (answers: seq<LoginResult>)
    requires username in service.credentials && |passwords| == |guesses|
    requires forall i :: 0 <= i < |passwords| ==> passwords[i] != service.credentials[username].password
    modifies service`credentials
    ensures service.credentials ==
      old(service.credentials)[username := AfterGuesses(old(service.credentials)[username], guesses, |guesses|)]
    ensures |answers| == |guesses| && forall i :: 0 <= i < |answers| ==>
      answers[i] == InvalidCredentials || answers[i].Locked?
    ensures Compared(old(service.credentials)[username], guesses, |guesses|)
      == multiset(answers)[InvalidCredentials]
  {
    ghost var was := service.credentials;
    assert was[username := was[username]] == was;
    answers := [];
    for i := 0 to |guesses|
      invariant service.credentials == was[username := AfterGuesses(was[username], guesses, i)]
      invariant AfterGuesses(was[username], guesses, i).password == was[username].password
      invariant |answers| == i && forall k :: 0 <= k < i ==> answers[k] == InvalidCredentials || answers[k].Locked?
      invariant Compared(was[username], guesses, i) == multiset(answers)[InvalidCredentials]
    {
      var r := service.Login(username, passwords[i], guesses[i].at, guesses[i].saved);
      answers := answers + [r];
    }
  }

  datatype Attempt = Attempt(password: string, at: int)

  /**
   After the fifth saved failure every login is refused as locked for a quarter of an hour, whatever the password and
   however often it is tried; from that instant on the right password of an active user logs in.
   */
  method FiveFailuresThen(
    service: Service, username: string, wrong: seq<Attempt>, during: seq<Attempt>, last: Attempt, saved: bool)
    returns (locked: seq<LoginResult>, answer: LoginResult)
    requires username in service.credentials && Clean(service.credentials[username]) && |wrong| == 5
    requires forall i :: 0 <= i < 5 ==> wrong[i].password != service.credentials[username].password
    requires forall i :: 0 <= i < |during| ==> during[i].at < wrong[4].at + 15 * 60 * 1000
    requires last.at >= wrong[4].at + 15 * 60 * 1000
    modifies service`credentials
    ensures |locked| == |during| && forall i :: 0 <= i < |locked| ==> locked[i].Locked?
    ensures var c := old(service.credentials)[username];
      if last.password != c.password then answer == InvalidCredentials
      else saved && c.userId in service.statuses && service.statuses[c.userId] == "ACTIVE" ==>
        answer == LoggedIn(c.userId)
  {
    ghost var c := service.credentials[username];
    for i := 0 to 5
      invariant username in service.credentials
      invariant service.credentials[username] ==
        c.(failedAttempts := i, lockedUntil := if i < 5 then None else Some(wrong[4].at + 900000))
    {
      var r := service.Login(username, wrong[i].password, wrong[i].at, true);
    }
    locked := [];
    for i := 0 to |during|
      invariant username in service.credentials
      invariant service.credentials[username] == c.(failedAttempts := 5, lockedUntil := Some(wrong[4].at + 900000))
      invariant |locked| == i && forall k :: 0 <= k < i ==> locked[k].Locked?
    {
      var r := service.Login(username, during[i].password, during[i].at, saved);
      locked := locked + [r];
    }
    answer := service.Login(username, last.password, last.at, saved);
  }
}
