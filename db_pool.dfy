/** lib/db.ts: the module-level MySQL pool, created on first use and dropped
    when the connection is lost, and `executeQuery`, which tries a statement
    up to three times whatever the error. The driver is a function from the
    number of the attempt to what that attempt does. */
module DbPool {
  import opened Base
  import opened Rows
  import opened Store

  /** What one attempt at a statement does: it goes through, or the driver
      throws an error with a code. */
  datatype Attempt = Succeeds | Fails(code: string)

  /** How executeQuery ends: the statement ran, the last error is rethrown, or
      the loop runs out (the "Query failed after 3 retries" throw). */
  datatype Run = Ran | Threw(code: string) | GaveUp

  const MaxAttempts: nat := 3

  /** The error codes after which the pool is ended and dropped. */
  predicate ConnectionLost(code: string)
  {
    code in {"ER_CON_COUNT_ERROR", "ECONNRESET", "ETIMEDOUT", "ENOTFOUND"}
  }

  /** The policy as a reference: attempt k, and on any error try the next
      attempt while attempts are left; the last error is the one reported. */
  function RetryEvery(driver: nat -> Attempt, k: nat, left: nat): Run
    requires left >= 1
    decreases left
  {
    if driver(k).Succeeds? then Ran
    else if left == 1 then Threw(driver(k).code)
    else RetryEvery(driver, k + 1, left - 1)
  }

  /** The number of attempts the policy makes. */
  function AttemptsEvery(driver: nat -> Attempt, k: nat, left: nat): nat
    requires left >= 1
    decreases left
  {
    if driver(k).Succeeds? || left == 1 then 1 else 1 + AttemptsEvery(driver, k + 1, left - 1)
  }

  /** The module's state: the pool (identified by the number of pools made
      before it), whether the tables have been initialised, and whether the
      CREATE TABLE statements have all run at some point. */
  class Connection {
    var pool: Option<nat>
    var isInitialized: bool
    var created: nat
    var schemaReady: bool

    ghost predicate Valid()
      reads this
    {
      (isInitialized ==> pool.Some? && schemaReady) && (pool.Some? ==> pool.value < created)
    }

    constructor ()
      ensures Valid() && pool == None && !isInitialized && created == 0 && !schemaReady
    {
      pool, isInitialized, created, schemaReady := None, false, 0, false;
    }

    /** getDb(): makes a pool only when there is none, and otherwise hands back
        the one there is. */
    method GetDb() returns (p: nat)
      requires Valid()
      modifies this
      ensures Valid()
      ensures old(pool).Some? ==> p == old(pool).value && pool == old(pool) && created == old(created)
      ensures old(pool).None? ==> p == old(created) && pool == Some(p) && created == old(created) + 1
      ensures isInitialized == old(isInitialized) && schemaReady == old(schemaReady)
    {
      if pool.None? {
        pool := Some(created);
        created := created + 1;
      }
      p := pool.value;
    }

    /** initDb(): nothing once initialised; otherwise take the pool and run the
        connection test and the CREATE TABLE statements, and only when none of
        them throws (`failing` says one does) mark the module initialised. */
    method InitDb(failing: bool) returns (ok: bool)
      requires Valid()
      modifies this
      ensures Valid()
      ensures old(isInitialized) ==> ok && pool == old(pool) && isInitialized && created == old(created)
      ensures !old(isInitialized) ==>
                pool.Some? && ok == !failing && isInitialized == !failing &&
                schemaReady == (old(schemaReady) || !failing)
    {
      if isInitialized {
        return true;
      }
      var p := GetDb();
      if failing {
        return false;
      }
      schemaReady := true;
      isInitialized := true;
      ok := true;
    }

    /** closeDb(): ends and forgets the pool, if there is one. */
    method CloseDb()
      requires Valid()
      modifies this
      ensures Valid()
      ensures pool == None && !isInitialized && created == old(created) && schemaReady == old(schemaReady)
    {
      if pool.Some? {
        pool := None;
        isInitialized := false;
      }
    }

    /** executeQuery(query, params): `attempts` is how many times the
        statement reached the driver. The loop never runs out: the third
        failure is always rethrown first. A lost connection drops the pool
        and clears `isInitialized`; the next attempt makes a new pool. */
    method ExecuteQuery(driver: nat -> Attempt) returns (run: Run, attempts: nat)
      requires Valid()
      modifies this
      ensures Valid()
      ensures run == RetryEvery(driver, 0, MaxAttempts) && attempts == AttemptsEvery(driver, 0, MaxAttempts)
      ensures pool.None? <==> run.Threw? && ConnectionLost(run.code)
      ensures isInitialized <==>
                old(isInitialized) && forall k | 0 <= k < attempts :: !(driver(k).Fails? && ConnectionLost(driver(k).code))
      ensures schemaReady == old(schemaReady)
    {
      var retries := 3;
      attempts := 0;
      while retries > 0
        invariant Valid()
        invariant 1 <= retries <= 3 && attempts == 3 - retries
        invariant forall k | 0 <= k < attempts :: driver(k).Fails?
        invariant RetryEvery(driver, 0, MaxAttempts) == RetryEvery(driver, attempts, retries)
        invariant AttemptsEvery(driver, 0, MaxAttempts) == attempts + AttemptsEvery(driver, attempts, retries)
        invariant isInitialized <==>
                    old(isInitialized) && forall k | 0 <= k < attempts :: !(driver(k).Fails? && ConnectionLost(driver(k).code))
        invariant schemaReady == old(schemaReady)
        decreases retries
      {
        var p := GetDb();
        var outcome := driver(attempts);
        attempts := attempts + 1;
        if outcome.Succeeds? {
          return Ran, attempts;
        }
        retries := retries - 1;
        if ConnectionLost(outcome.code) {
          if pool.Some? {
            pool := None;
            isInitialized := false;
          }
          if retries > 0 {
            continue;
          }
        }
        if retries == 0 {
          return Threw(outcome.code), attempts;
        }
      }
      run := GaveUp;
    }
  }

  /** The policy retries every error: a statement that goes through on one of
      the first three attempts returns, and otherwise the third error is
      thrown; at most three attempts are made and every attempt but the last
      failed. */
  lemma {:induction false} RetryEveryOutcome(driver: nat -> Attempt, k: nat, left: nat)
    requires left >= 1
    ensures var run, n := RetryEvery(driver, k, left), AttemptsEvery(driver, k, left);
            1 <= n <= left && !run.GaveUp? &&
            (forall i | k <= i < k + n - 1 :: driver(i).Fails?) &&
            (run.Ran? <==> exists i | k <= i < k + left :: driver(i).Succeeds?) &&
            (run.Ran? ==> driver(k + n - 1).Succeeds?) &&
            (run.Threw? ==> n == left && run.code == driver(k + left - 1).code)
    decreases left
  {
    if !driver(k).Succeeds? && left > 1 {
      RetryEveryOutcome(driver, k + 1, left - 1);
    }
  }

  // ---------------------------------------------------------------------
  // Password helpers

  /** What a helper returns, or the error it throws. */
  datatype Answer = Value(b: bool) | Error(message: string)

  /** What updateUserPassword returns once executeQuery has ended with
      `run`: whether the UPDATE affected a row, or the error it throws. */
  function UpdateAnswer(users: seq<User>, userId: string, run: Run): Answer
  {
    if run.Ran? then Value(Count(users, WithId(userId)) > 0) else Error("Failed to update password")
  }

  /** What verifyUserPassword returns: false for an unknown user, the bcrypt
      comparison for a known one, or the error it throws. */
  function VerifyAnswer(users: seq<User>, userId: string, plain: string, run: Run): Answer
  {
    if !run.Ran? then Error("Failed to verify password")
    else match First(users, WithId(userId))
      case None => Value(false)
      case Some(u) => Value(Matches(plain, u.password))
  }

  /** updateUserPassword(userId, digest): through executeQuery. */
  method UpdateUserPassword(conn: Connection, db: Database, userId: string, digest: string, now: int,
                            driver: nat -> Attempt)
    returns (answer: Answer)
    requires conn.Valid()
    modifies conn, db
    ensures conn.Valid()
    ensures answer == UpdateAnswer(old(db.users), userId, RetryEvery(driver, 0, MaxAttempts))
    ensures RetryEvery(driver, 0, MaxAttempts).Ran? ==> db.users == SetPassword(old(db.users), WithId(userId), digest, now, true)
    ensures !RetryEvery(driver, 0, MaxAttempts).Ran? ==> db.users == old(db.users)
    ensures db.complaints == old(db.complaints) && db.notifications == old(db.notifications)
    ensures db.resetTokens == old(db.resetTokens)
  {
    var run, attempts := conn.ExecuteQuery(driver);
    if !run.Ran? {
      return Error("Failed to update password");
    }
    var affected := Count(db.users, WithId(userId));
    db.users := SetPassword(db.users, WithId(userId), digest, now, true);
    answer := Value(affected > 0);
  }

  /** verifyUserPassword(userId, plain): through executeQuery. */
  method VerifyUserPassword(conn: Connection, db: Database, userId: string, plain: string, driver: nat -> Attempt)
    returns (answer: Answer)
    requires conn.Valid()
    modifies conn
    ensures conn.Valid()
    ensures answer == VerifyAnswer(db.users, userId, plain, RetryEvery(driver, 0, MaxAttempts))
  {
    var run, attempts := conn.ExecuteQuery(driver);
    if !run.Ran? {
      return Error("Failed to verify password");
    }
    var row := First(db.users, WithId(userId));
    if row.None? {
      return Value(false);
    }
    answer := Value(Matches(plain, row.value.password));
  }

  /** After a password update that reports true, verifying the new password
      reports true; the update reports false exactly when no row has the id,
      and then the table is unchanged. */
  lemma UpdateThenVerify(users: seq<User>, userId: string, plain: string, now: int)
    ensures var after := SetPassword(users, WithId(userId), Hash(plain), now, true);
            (UpdateAnswer(users, userId, Ran) == Value(true) <==> exists u | u in users :: u.id == userId) &&
            (UpdateAnswer(users, userId, Ran) == Value(true) ==> VerifyAnswer(after, userId, plain, Ran) == Value(true)) &&
            (Count(users, WithId(userId)) > 0 <==> exists u | u in users :: u.id == userId) &&
            (Count(users, WithId(userId)) == 0 ==> after == users) &&
            (Count(users, WithId(userId)) > 0 ==>
               First(after, WithId(userId)).Some? && Matches(plain, First(after, WithId(userId)).value.password))
  {
    var p := WithId(userId);
    var f := (u: User) => u.(password := Hash(plain), updatedAt := now, passwordUpdatedAt := now);
    assert SetPassword(users, p, Hash(plain), now, true) == Update(users, p, f);
    if First(users, p).None? {
      NoMatchUnchanged(users, p, f);
    } else {
      assert First(users, p).value in Select(users, p);
      FirstAfterUpdate(users, p, f);
      MatchesExactly(plain, plain);
    }
  }
}
