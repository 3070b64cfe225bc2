/** lib/db-new.ts: the second pool module. Its getDb marks the module
    initialised on first use without creating any table, its executeQuery
    retries only the two connection errors, and its password helpers go to the
    pool directly, with a single attempt. */
module DbNewPool {
  import opened Base
  import opened Rows
  import opened Store
  import DbPool

  /** How executeQuery ends: the statement ran, an error is rethrown, or the
      loop runs out and the function returns undefined. */
  datatype Run = Ran | Threw(code: string) | FellThrough

  const MaxAttempts: nat := 3

  /** The only error codes this module retries. */
  predicate Transient(code: string)
  {
    code in {"ER_CON_COUNT_ERROR", "ECONNRESET"}
  }

  /** The policy as a reference: attempt k; a transient error moves on to the
      next attempt while attempts are left, and any other error is thrown at
      once. */
  function RetryTransient(driver: nat -> DbPool.Attempt, k: nat, left: nat): Run
    requires left >= 1
    decreases left
  {
    if driver(k).Succeeds? then Ran
    else if !Transient(driver(k).code) || left == 1 then Threw(driver(k).code)
    else RetryTransient(driver, k + 1, left - 1)
  }

  /** The number of attempts the policy makes. */
  function AttemptsTransient(driver: nat -> DbPool.Attempt, k: nat, left: nat): nat
    requires left >= 1
    decreases left
  {
    if driver(k).Succeeds? || !Transient(driver(k).code) || left == 1 then 1
    else 1 + AttemptsTransient(driver, k + 1, left - 1)
  }

  /** The module's state, as in lib/db.ts; `schemaReady` records whether the
      CREATE TABLE statements have run, which nothing here ever does. */
  class Connection {
    var pool: Option<nat>
    var isInitialized: bool
    var created: nat
    var schemaReady: bool

    ghost predicate Valid()
      reads this
    {
      (isInitialized ==> pool.Some?) && (pool.Some? ==> pool.value < created)
    }

    constructor ()
      ensures Valid() && pool == None && !isInitialized && created == 0 && !schemaReady
    {
      pool, isInitialized, created, schemaReady := None, false, 0, false;
    }

    /** initDb(pool): returns before its first statement. */
    method InitDb(p: nat)
    {
    }

    /** getDb(): makes a pool only when there is none, and marks the module
        initialised the first time, although initDb created nothing. */
    method GetDb() returns (p: nat)
      requires Valid()
      modifies this
      ensures Valid()
      ensures old(pool).Some? ==> p == old(pool).value && pool == old(pool) && created == old(created)
      ensures old(pool).None? ==> p == old(created) && pool == Some(p) && created == old(created) + 1
      ensures isInitialized && schemaReady == old(schemaReady)
    {
      if pool.None? {
        pool := Some(created);
        created := created + 1;
      }
      p := pool.value;
      if !isInitialized {
        InitDb(p);
        isInitialized := true;
      }
    }

    /** closeDb(): ends and forgets the pool, if there is one. */
    method CloseDb()
      requires Valid()
      modifies this
      ensures Valid()
      ensures pool == None && !isInitialized && created == old(created) && schemaReady == old(schemaReady)
    {
      if pool.Some? {
        pool := None;
        isInitialized := false;
      }
    }

    /** executeQuery(query, params): `attempts` is how many times the
        statement reached the driver. The loop never runs out. Afterwards the
        module is initialised exactly when it holds a pool, which it does
        unless a transient error ended the query. */
    method ExecuteQuery(driver: nat -> DbPool.Attempt) returns (run: Run, attempts: nat)
      requires Valid()
      modifies this
      ensures Valid()
      ensures run == RetryTransient(driver, 0, MaxAttempts) && attempts == AttemptsTransient(driver, 0, MaxAttempts)
      ensures pool.None? <==> run.Threw? && Transient(run.code)
      ensures isInitialized == pool.Some?
      ensures schemaReady == old(schemaReady)
    {
      var retries := 3;
      attempts := 0;
      while retries > 0
        invariant Valid()
        invariant 1 <= retries <= 3 && attempts == 3 - retries
        invariant RetryTransient(driver, 0, MaxAttempts) == RetryTransient(driver, attempts, retries)
        invariant AttemptsTransient(driver, 0, MaxAttempts) == attempts + AttemptsTransient(driver, attempts, retries)
        invariant schemaReady == old(schemaReady)
        decreases retries
      {
        var p := GetDb();
        var outcome := driver(attempts);
        attempts := attempts + 1;
        if outcome.Succeeds? {
          return Ran, attempts;
        }
        retries := retries - 1;
        if Transient(outcome.code) {
          if pool.Some? {
            pool := None;
            isInitialized := false;
          }
          if retries > 0 {
            continue;
          }
        }
        return Threw(outcome.code), attempts;
      }
      run := FellThrough;
    }
  }

  /** The policy retries only transient errors: every attempt before the last
      failed transiently, at most three are made, an error other than the two
      transient ones ends the query at its first occurrence, and a statement
      runs exactly when the last attempt went through. */
  lemma {:induction false} RetryTransientOutcome(driver: nat -> DbPool.Attempt, k: nat, left: nat)
    requires left >= 1
    ensures var run, n := RetryTransient(driver, k, left), AttemptsTransient(driver, k, left);
            1 <= n <= left && !run.FellThrough? &&
            (forall i | k <= i < k + n - 1 :: driver(i).Fails? && Transient(driver(i).code)) &&
            (run.Ran? <==> driver(k + n - 1).Succeeds?) &&
            (run.Threw? ==> run.code == driver(k + n - 1).code && (n < left ==> !Transient(run.code)))
    decreases left
  {
    if !driver(k).Succeeds? && Transient(driver(k).code) && left > 1 {
      RetryTransientOutcome(driver, k + 1, left - 1);
    }
  }

  /** While every failure is one of the two transient errors, the two modules'
      policies agree: same outcome, same error, same number of attempts. */
  lemma {:induction false} PoliciesAgreeOnTransient(driver: nat -> DbPool.Attempt, k: nat, left: nat)
    requires left >= 1
    requires forall i | k <= i < k + left :: driver(i).Succeeds? || Transient(driver(i).code)
    ensures var here, there := RetryTransient(driver, k, left), DbPool.RetryEvery(driver, k, left);
            (here.Ran? <==> there.Ran?) && (here.Threw? <==> there.Threw?) &&
            (here.Threw? ==> here.code == there.code) &&
            AttemptsTransient(driver, k, left) == DbPool.AttemptsEvery(driver, k, left)
    decreases left
  {
    if !driver(k).Succeeds? && left > 1 {
      PoliciesAgreeOnTransient(driver, k + 1, left - 1);
    }
  }

  /** They part on any other error: a timeout on the first attempt followed by
      a working connection runs the statement in lib/db.ts, on the second
      attempt, and is thrown by this module after one attempt. */
  lemma PoliciesDifferOnTimeout()
    ensures var driver := (i: nat) => if i == 0 then DbPool.Fails("ETIMEDOUT") else DbPool.Succeeds;
            DbPool.RetryEvery(driver, 0, 3) == DbPool.Ran && DbPool.AttemptsEvery(driver, 0, 3) == 2 &&
            RetryTransient(driver, 0, 3) == Threw("ETIMEDOUT") && AttemptsTransient(driver, 0, 3) == 1
  {
    var driver := (i: nat) => if i == 0 then DbPool.Fails("ETIMEDOUT") else DbPool.Succeeds;
    assert !Transient("ETIMEDOUT");
  }

  // ---------------------------------------------------------------------
  // Password helpers: one attempt each, straight through getDb

  /** What this module's updateUserPassword returns: true whenever the
      UPDATE goes through, whether or not a row had the id. */
  function UpdateAnswer(fails: bool): DbPool.Answer
  {
    if fails then DbPool.Error("Failed to update password") else DbPool.Value(true)
  }

  /** What this module's verifyUserPassword returns: an unknown user is an
      error, reported under the same message as a failing store. */
  function VerifyAnswer(users: seq<User>, userId: string, plain: string, fails: bool): DbPool.Answer
  {
    if fails then DbPool.Error("Failed to verify password")
    else match First(users, WithId(userId))
      case None => DbPool.Error("Failed to verify password")
      case Some(u) => DbPool.Value(Matches(plain, u.password))
  }

  /** updateUserPassword(userId, digest): one attempt straight on the pool;
      `fails` says it throws. */
  method UpdateUserPassword(conn: Connection, db: Database, userId: string, digest: string, now: int, fails: bool)
    returns (answer: DbPool.Answer)
    requires conn.Valid()
    modifies conn, db
    ensures conn.Valid() && conn.isInitialized
    ensures answer == UpdateAnswer(fails)
    ensures !fails ==> db.users == SetPassword(old(db.users), WithId(userId), digest, now, true)
    ensures fails ==> db.users == old(db.users)
    ensures db.complaints == old(db.complaints) && db.notifications == old(db.notifications)
    ensures db.resetTokens == old(db.resetTokens)
  {
    var p := conn.GetDb();
    if fails {
      return DbPool.Error("Failed to update password");
    }
    db.users := SetPassword(db.users, WithId(userId), digest, now, true);
    answer := DbPool.Value(true);
  }

  /** verifyUserPassword(userId, plain): one attempt straight on the pool. */
  method VerifyUserPassword(conn: Connection, db: Database, userId: string, plain: string, fails: bool)
    returns (answer: DbPool.Answer)
    requires conn.Valid()
    modifies conn
    ensures conn.Valid() && conn.isInitialized
    ensures answer == VerifyAnswer(db.users, userId, plain, fails)
  {
    var p := conn.GetDb();
    if fails {
      return DbPool.Error("Failed to verify password");
    }
    var row := First(db.users, WithId(userId));
    if row.None? {
      return DbPool.Error("Failed to verify password");
    }
    answer := DbPool.Value(Matches(plain, row.value.password));
  }

  /** For a user id no row has, the two modules' helpers answer differently
      while leaving the table as it was: lib/db.ts reports false for the
      update and for the check, this module reports the update as done and
      the check as an error. Where the id exists and nothing fails, both
      check the same way. */
  lemma HelpersDifferOnUnknownUser(users: seq<User>, userId: string, plain: string, now: int)
    ensures (forall u | u in users :: u.id != userId) ==>
              SetPassword(users, WithId(userId), Hash(plain), now, true) == users &&
              DbPool.UpdateAnswer(users, userId, DbPool.Ran) == DbPool.Value(false) &&
              DbPool.VerifyAnswer(users, userId, plain, DbPool.Ran) == DbPool.Value(false) &&
              UpdateAnswer(false) == DbPool.Value(true) &&
              VerifyAnswer(users, userId, plain, false) == DbPool.Error("Failed to verify password")
    ensures (exists u | u in users :: u.id == userId) ==>
              DbPool.UpdateAnswer(users, userId, DbPool.Ran) == UpdateAnswer(false) &&
              DbPool.VerifyAnswer(users, userId, plain, DbPool.Ran) == VerifyAnswer(users, userId, plain, false)
  {
    var p := WithId(userId);
    var f := (u: User) => u.(password := Hash(plain), updatedAt := now, passwordUpdatedAt := now);
    assert SetPassword(users, p, Hash(plain), now, true) == Update(users, p, f);
    if First(users, p).None? {
      NoMatchUnchanged(users, p, f);
    } else {
      assert First(users, p).value in Select(users, p);
    }
  }
}
