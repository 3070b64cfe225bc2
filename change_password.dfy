/** The three routes that change a signed-in user's password:
    pages/api/auth/update-password.ts (any session), pages/api/auth/change-password.ts
    (admins) and pages/api/student/change-password.ts (students). Each runs the
    same ordered ladder of checks (method, identity, both fields present, new
    password long enough, account found, current password right) and then one
    UPDATE of the caller's row; they differ in the minimum length, in whether
    the account must be an admin, and in their wording. */
module PasswordChange {
  import opened Base
  import opened Rows
  import opened Store

  /** The messages a route answers its failures with. */
  datatype Wording = Wording(unauthenticated: string, missing: string, tooShort: string, notFound: string, failed: string)

  /** What sets one route apart from the others. */
  datatype Policy = Policy(minLength: nat, adminOnly: bool, wording: Wording)

  const UpdatePolicy := Policy(8, false, Wording("Not authenticated", "Missing required fields",
    "Password must be at least 8 characters long", "User not found", "Internal server error"))
  const AdminPolicy := Policy(6, true, Wording("Unauthorized", "Current password and new password are required",
    "New password must be at least 6 characters long", "Admin not found", "Failed to change password"))
  const StudentPolicy := Policy(6, false, Wording("Unauthorized", "Current password and new password are required",
    "New password must be at least 6 characters long", "User not found", "Internal server error"))

  /** The rows the route's SELECT and UPDATE address: `WHERE id = ?`, and for
      admins `WHERE id = ? AND role = 'admin'`. */
  function Scope(p: Policy, caller: string): User -> bool
  {
    if p.adminOnly then WithIdAndRole(caller, "admin") else WithId(caller)
  }

  /** The route's reply. `caller` is the authenticated user id, "" when there
      is none; `current` and `next` are the body's fields, "" when absent;
      `fails` says the store throws. */
  function ChangeReply(users: seq<User>, p: Policy, verb: Verb, caller: string, current: string, next: string,
                       fails: bool): Reply
  {
    if verb != POST then Reply(405, "Method not allowed")
    else if caller == "" then Reply(401, p.wording.unauthenticated)
    else if current == "" || next == "" then Reply(400, p.wording.missing)
    else if |next| < p.minLength then Reply(400, p.wording.tooShort)
    else if fails then Reply(500, p.wording.failed)
    else
      var account := First(users, Scope(p, caller));
      if account.None? then Reply(404, p.wording.notFound)
      else if !Matches(current, account.value.password) then Reply(400, "Current password is incorrect")
      else Reply(200, "Password updated successfully")
  }

  /** The users table after the request: the addressed rows get a digest of the
      new password when the route succeeds, and nothing changes otherwise. */
  function UsersAfterChange(users: seq<User>, p: Policy, verb: Verb, caller: string, current: string, next: string,
                            fails: bool, now: int): seq<User>
  {
    if ChangeReply(users, p, verb, caller, current, next, fails).status == 200
    then SetPassword(users, Scope(p, caller), Hash(next), now, false)
    else users
  }

  /** The ladder and the update shared by the three routes. */
  method ChangePassword(db: Database, p: Policy, verb: Verb, caller: string, current: string, next: string,
                        now: int, fails: bool)
    returns (reply: Reply)
    modifies db
    ensures reply == ChangeReply(old(db.users), p, verb, caller, current, next, fails)
    ensures db.users == UsersAfterChange(old(db.users), p, verb, caller, current, next, fails, now)
    ensures db.complaints == old(db.complaints) && db.notifications == old(db.notifications)
    ensures db.resetTokens == old(db.resetTokens)
  {
    if verb != POST {
      return Reply(405, "Method not allowed");
    }
    if caller == "" {
      return Reply(401, p.wording.unauthenticated);
    }
    if current == "" || next == "" {
      return Reply(400, p.wording.missing);
    }
    if |next| < p.minLength {
      return Reply(400, p.wording.tooShort);
    }
    if fails {
      return Reply(500, p.wording.failed);
    }
    var account := First(db.users, Scope(p, caller));
    if account.None? {
      return Reply(404, p.wording.notFound);
    }
    if !Matches(current, account.value.password) {
      return Reply(400, "Current password is incorrect");
    }
    db.users := SetPassword(db.users, Scope(p, caller), Hash(next), now, false);
    reply := Reply(200, "Password updated successfully");
  }

  /** pages/api/auth/update-password.ts: the session must carry a user id and
      a role; only the id addresses the row. */
  method UpdatePassword(db: Database, verb: Verb, session: Option<Session>, current: string, next: string,
                        now: int, fails: bool)
    returns (reply: Reply)
    modifies db
    ensures var caller := if session.Some? && session.value.role != "" then session.value.userId else "";
            reply == ChangeReply(old(db.users), UpdatePolicy, verb, caller, current, next, fails) &&
            db.users == UsersAfterChange(old(db.users), UpdatePolicy, verb, caller, current, next, fails, now)
    ensures db.complaints == old(db.complaints) && db.notifications == old(db.notifications)
    ensures db.resetTokens == old(db.resetTokens)
  {
    var caller := if session.Some? && session.value.role != "" then session.value.userId else "";
    reply := ChangePassword(db, UpdatePolicy, verb, caller, current, next, now, fails);
  }

  /** pages/api/auth/change-password.ts: `adminId` is what the admin check
      returns ("" for a request without an admin identity). */
  method AdminChangePassword(db: Database, verb: Verb, adminId: string, current: string, next: string,
                             now: int, fails: bool)
    returns (reply: Reply)
    modifies db
    ensures reply == ChangeReply(old(db.users), AdminPolicy, verb, adminId, current, next, fails)
    ensures db.users == UsersAfterChange(old(db.users), AdminPolicy, verb, adminId, current, next, fails, now)
    ensures db.complaints == old(db.complaints) && db.notifications == old(db.notifications)
    ensures db.resetTokens == old(db.resetTokens)
  {
    reply := ChangePassword(db, AdminPolicy, verb, adminId, current, next, now, fails);
  }

  /** pages/api/student/change-password.ts: `studentId` is what the student
      check returns ("" for a request without a student identity). */
  method StudentChangePassword(db: Database, verb: Verb, studentId: string, current: string, next: string,
                               now: int, fails: bool)
    returns (reply: Reply)
    modifies db
    ensures reply == ChangeReply(old(db.users), StudentPolicy, verb, studentId, current, next, fails)
    ensures db.users == UsersAfterChange(old(db.users), StudentPolicy, verb, studentId, current, next, fails, now)
    ensures db.complaints == old(db.complaints) && db.notifications == old(db.notifications)
    ensures db.resetTokens == old(db.resetTokens)
  {
    reply := ChangePassword(db, StudentPolicy, verb, studentId, current, next, now, fails);
  }

  // ---------------------------------------------------------------------
  // Properties of the ladder

  /** A change goes through exactly when every check passes: a POST with an
      identity, both fields, a new password of the minimum length, a store
      that answers, an addressed account, and the right current password for
      the first such account. A request that fails any check changes nothing. */
  lemma ChangeSucceedsExactly(users: seq<User>, p: Policy, verb: Verb, caller: string, current: string,
                              next: string, fails: bool, now: int)
    ensures ChangeReply(users, p, verb, caller, current, next, fails).status == 200 <==>
              verb == POST && caller != "" && current != "" && next != "" && |next| >= p.minLength && !fails &&
              First(users, Scope(p, caller)).Some? && Matches(current, First(users, Scope(p, caller)).value.password)
    ensures ChangeReply(users, p, verb, caller, current, next, fails).status != 200 ==>
              UsersAfterChange(users, p, verb, caller, current, next, fails, now) == users
  {
  }

  /** The checks run in order: a wrong method is refused before the identity
      is looked at, a missing identity before the fields, missing fields before
      the length, and all of these before the store is asked. */
  lemma LadderOrder(users: seq<User>, p: Policy, verb: Verb, caller: string, current: string, next: string,
                    fails: bool, other: seq<User>, otherFails: bool)
    ensures var r := ChangeReply(users, p, verb, caller, current, next, fails);
            var s := ChangeReply(other, p, verb, caller, current, next, otherFails);
            (verb != POST ==> r.status == 405) &&
            (verb == POST && caller == "" ==> r.status == 401) &&
            (r.status in {405, 401} || (r.status == 400 && r.message != "Current password is incorrect") ==> r == s)
  {
  }

  /** After a change the caller's row accepts the new password and, unless it
      was the same, no longer the old one; every row the route does not address
      is exactly as it was. */
  lemma ChangeReplacesPassword(users: seq<User>, p: Policy, verb: Verb, caller: string, current: string,
                               next: string, fails: bool, now: int)
    requires ChangeReply(users, p, verb, caller, current, next, fails).status == 200
    ensures var after := UsersAfterChange(users, p, verb, caller, current, next, fails, now);
            |after| == |users| &&
            (forall i | 0 <= i < |users| && !Scope(p, caller)(users[i]) :: after[i] == users[i]) &&
            (forall i | 0 <= i < |users| && Scope(p, caller)(users[i]) ::
               after[i].id == caller && Matches(next, after[i].password) &&
               (Matches(current, after[i].password) <==> current == next))
  {
    MatchesExactly(next, current);
  }

  /** The admin route can never change a row whose role is not 'admin': such a
      caller is answered 404 when that is the only row with its id, and every
      non-admin row is left as it was. */
  lemma AdminRouteSparesOthers(users: seq<User>, verb: Verb, caller: string, current: string, next: string,
                               fails: bool, now: int)
    ensures var after := UsersAfterChange(users, AdminPolicy, verb, caller, current, next, fails, now);
            |after| == |users| &&
            forall i | 0 <= i < |users| && users[i].role != "admin" :: after[i] == users[i]
    ensures verb == POST && caller != "" && current != "" && |next| >= 6 && !fails &&
            (forall u | u in users && u.id == caller :: u.role != "admin") ==>
              ChangeReply(users, AdminPolicy, verb, caller, current, next, fails) == Reply(404, "Admin not found")
  {
  }

  /** The minimum differs between the routes: a new password of six or seven
      characters passes the length check of the admin and student routes and
      is refused by update-password. */
  lemma MinimumsDiffer(users: seq<User>, caller: string, current: string, next: string, fails: bool)
    requires caller != "" && current != "" && 6 <= |next| < 8
    ensures ChangeReply(users, UpdatePolicy, POST, caller, current, next, fails)
            == Reply(400, "Password must be at least 8 characters long")
    ensures ChangeReply(users, AdminPolicy, POST, caller, current, next, fails).status != 400 ||
            ChangeReply(users, AdminPolicy, POST, caller, current, next, fails).message == "Current password is incorrect"
    ensures ChangeReply(users, StudentPolicy, POST, caller, current, next, fails).status != 400 ||
            ChangeReply(users, StudentPolicy, POST, caller, current, next, fails).message == "Current password is incorrect"
  {
  }
}
