/** pages/api/admin/profile.ts: an admin reads (GET) or edits (PUT) their own
    profile. Only a session whose role is 'admin' gets in, and both the read
    and the UPDATE address the row with the session's id AND role 'admin'. */
module AdminProfile {
  import opened Base
  import opened Rows
  import opened Store

  /** The PUT body: the three required fields ("" when absent) and the
      optional ones (None when absent, stored as NULL). */
  datatype ProfileForm = ProfileForm(
    firstName: string, lastName: string, email: string, phone: Option<string>, department: Option<string>,
    position: Option<string>, faculty: Option<string>, profilePicUrl: Option<string>)

  /** The JSON the route returns for a profile: the selected columns plus a
      `bio` that is always null and an `adminLevel` that is always "Standard". */
  datatype AdminView = AdminView(
    id: string, email: string, firstName: string, lastName: string, role: string, phone: Option<string>,
    department: Option<string>, position: Option<string>, faculty: Option<string>,
    profilePicUrl: Option<string>, createdAt: int, updatedAt: int, bio: Option<string>, adminLevel: string)

  datatype Body = View(view: AdminView) | Message(text: string)

  datatype Response = Response(status: nat, body: Body)

  function ViewOf(u: User): AdminView
  {
    AdminView(u.id, u.email, u.firstName, u.lastName, u.role, u.phone, u.department, u.position, u.faculty,
              u.profilePicUrl, u.createdAt, u.updatedAt, None, "Standard")
  }

  /** `WHERE id = ? AND role = 'admin'` */
  function OwnRow(id: string): User -> bool
  {
    WithIdAndRole(id, "admin")
  }

  /** The caller when the session is an admin's, "" otherwise. */
  function Caller(session: Option<Session>): string
  {
    if session.Some? && session.value.role == "admin" then session.value.userId else ""
  }

  /** The row after the UPDATE's SET list. */
  function Edited(u: User, form: ProfileForm, now: int): User
  {
    u.(firstName := form.firstName, lastName := form.lastName, email := form.email, phone := form.phone,
       department := form.department, position := form.position, faculty := form.faculty,
       profilePicUrl := form.profilePicUrl, updatedAt := now)
  }

  predicate Complete(form: ProfileForm)
  {
    form.firstName != "" && form.lastName != "" && form.email != ""
  }

  /** Where the store throws, if it does: `getDb` (before the method is even
      looked at), the first statement of the branch (the GET's SELECT or the
      PUT's UPDATE), or the PUT's read-back SELECT, which runs after the
      UPDATE has changed the row. The catch answers 500 in every case. */
  datatype Fault = NoFault | PoolFails | StatementFails | ReadBackFails

  /** The PUT's UPDATE runs and takes effect. */
  predicate Writes(verb: Verb, session: Option<Session>, form: ProfileForm, fault: Fault)
  {
    Caller(session) != "" && fault != PoolFails && verb == PUT && Complete(form) && fault != StatementFails
  }

  /** The users table after the request: edited only by an admin's complete
      PUT whose UPDATE went through, even when the read-back then throws. */
  function UsersAfterProfile(users: seq<User>, verb: Verb, session: Option<Session>, form: ProfileForm, now: int,
                             fault: Fault): seq<User>
  {
    if Writes(verb, session, form, fault) then Update(users, OwnRow(Caller(session)), (u: User) => Edited(u, form, now))
    else users
  }

  /** The GET branch's reply for the caller's id. */
  function GetResponse(users: seq<User>, caller: string, fault: Fault): Response
  {
    if fault == StatementFails then Response(500, Message("Internal server error"))
    else
      var row := First(users, OwnRow(caller));
      if row.None? then Response(404, Message("Admin not found")) else Response(200, View(ViewOf(row.value)))
  }

  /** The PUT branch's reply: the row as read back from the table `after`
      the UPDATE left. */
  function PutResponse(after: seq<User>, caller: string, form: ProfileForm, fault: Fault): Response
  {
    if !Complete(form) then Response(400, Message("First name, last name, and email are required"))
    else if fault != NoFault then Response(500, Message("Internal server error"))
    else
      var row := First(after, OwnRow(caller));
      if row.None? then Response(404, Message("Admin not found after update"))
      else Response(200, View(ViewOf(row.value)))
  }

  function ProfileResponse(users: seq<User>, verb: Verb, session: Option<Session>, form: ProfileForm, now: int,
                           fault: Fault): Response
  {
    var caller := Caller(session);
    if caller == "" then Response(401, Message("Admin access required"))
    else if fault == PoolFails then Response(500, Message("Internal server error"))
    else if verb == GET then GetResponse(users, caller, fault)
    else if verb == PUT then PutResponse(UsersAfterProfile(users, verb, session, form, now, fault), caller, form, fault)
    else Response(405, Message("Method not allowed"))
  }

  method Handle(db: Database, verb: Verb, session: Option<Session>, form: ProfileForm, now: int, fault: Fault)
    returns (response: Response)
    modifies db
    ensures response == ProfileResponse(old(db.users), verb, session, form, now, fault)
    ensures db.users == UsersAfterProfile(old(db.users), verb, session, form, now, fault)
    ensures db.complaints == old(db.complaints) && db.notifications == old(db.notifications)
    ensures db.resetTokens == old(db.resetTokens)
  {
    if session.None? || session.value.userId == "" || session.value.role != "admin" {
      response := Response(401, Message("Admin access required"));
    } else if fault == PoolFails {
      response := Response(500, Message("Internal server error"));
    } else if verb == GET {
      response := GetResponse(db.users, session.value.userId, fault);
    } else if verb == PUT {
      response := Put(db, session.value.userId, form, now, fault);
    } else {
      response := Response(405, Message("Method not allowed"));
    }
  }

  /** The PUT branch, reached once `getDb` has returned: validate, UPDATE the
      caller's admin row, read it back. */
  method Put(db: Database, caller: string, form: ProfileForm, now: int, fault: Fault) returns (response: Response)
    requires fault != PoolFails
    modifies db
    ensures db.users == if Complete(form) && fault != StatementFails
                        then Update(old(db.users), OwnRow(caller), (u: User) => Edited(u, form, now))
                        else old(db.users)
    ensures response == PutResponse(db.users, caller, form, fault)
    ensures db.complaints == old(db.complaints) && db.notifications == old(db.notifications)
    ensures db.resetTokens == old(db.resetTokens)
  {
    if form.firstName == "" || form.lastName == "" || form.email == "" {
      return Response(400, Message("First name, last name, and email are required"));
    }
    if fault == StatementFails {
      return Response(500, Message("Internal server error"));
    }
    db.users := Update(db.users, OwnRow(caller), (u: User) => Edited(u, form, now));
    if fault == ReadBackFails {
      return Response(500, Message("Internal server error"));
    }
    var row := First(db.users, OwnRow(caller));
    if row.None? {
      return Response(404, Message("Admin not found after update"));
    }
    response := Response(200, View(ViewOf(row.value)));
  }

  /** A session that is not an admin's is refused before anything else, for
      every method; an admin's method other than GET or PUT gets 405; a PUT
      without a first name, last name or email gets 400. None of these
      changes the table, and neither does a 500 from a throw before the
      UPDATE. A throw in the read-back after the UPDATE also answers 500, but
      with the caller's row already edited. */
  lemma ProfileGuards(users: seq<User>, verb: Verb, session: Option<Session>, form: ProfileForm, now: int, fault: Fault)
    ensures Caller(session) == "" ==>
              ProfileResponse(users, verb, session, form, now, fault) == Response(401, Message("Admin access required"))
    ensures Caller(session) != "" && fault != PoolFails && verb !in {GET, PUT} ==>
              ProfileResponse(users, verb, session, form, now, fault).status == 405
    ensures Caller(session) != "" && fault != PoolFails && verb == PUT && !Complete(form) ==>
              ProfileResponse(users, verb, session, form, now, fault).status == 400
    ensures ProfileResponse(users, verb, session, form, now, fault).status in {401, 405, 400} ==>
              UsersAfterProfile(users, verb, session, form, now, fault) == users
    ensures ProfileResponse(users, verb, session, form, now, fault).status == 500 && fault != ReadBackFails ==>
              UsersAfterProfile(users, verb, session, form, now, fault) == users
    ensures Caller(session) != "" && verb == PUT && Complete(form) && fault == ReadBackFails ==>
              ProfileResponse(users, verb, session, form, now, fault) == Response(500, Message("Internal server error")) &&
              UsersAfterProfile(users, verb, session, form, now, fault) ==
                UsersAfterProfile(users, verb, session, form, now, NoFault)
  {
  }

  /** A PUT rewrites only the caller's own admin row: every other row, admins
      with another id and non-admins with the caller's id included, is left as
      it was, and the edited row keeps its id, role, password and creation
      time. */
  lemma ProfileUpdateScoped(users: seq<User>, verb: Verb, session: Option<Session>, form: ProfileForm, now: int,
                            fault: Fault)
    ensures var after := UsersAfterProfile(users, verb, session, form, now, fault);
            |after| == |users| &&
            (forall i | 0 <= i < |users| && !(users[i].id == Caller(session) && users[i].role == "admin") ::
               after[i] == users[i]) &&
            (forall i | 0 <= i < |users| ::
               after[i].id == users[i].id && after[i].role == users[i].role &&
               after[i].password == users[i].password && after[i].createdAt == users[i].createdAt)
  {
  }

  /** A successful PUT answers with the submitted values, as a GET issued
      right after would; and a PUT finds the row after its UPDATE exactly when
      a GET before it would have found it. */
  lemma PutShowsEdit(users: seq<User>, session: Option<Session>, form: ProfileForm, now: int)
    requires Caller(session) != "" && Complete(form)
    ensures var r := ProfileResponse(users, PUT, session, form, now, NoFault);
            var after := UsersAfterProfile(users, PUT, session, form, now, NoFault);
            (r.status == 200 <==> ProfileResponse(users, GET, session, form, now, NoFault).status == 200) &&
            (r.status == 200 ==>
               r == ProfileResponse(after, GET, session, form, now, NoFault) &&
               r.body.view.firstName == form.firstName && r.body.view.lastName == form.lastName &&
               r.body.view.email == form.email && r.body.view.phone == form.phone &&
               r.body.view.bio == None && r.body.view.adminLevel == "Standard") &&
            (r.status != 200 ==> r == Response(404, Message("Admin not found after update")) && after == users)
  {
    var caller := Caller(session);
    var f := (u: User) => Edited(u, form, now);
    assert forall u | OwnRow(caller)(u) :: OwnRow(caller)(f(u));
    FirstAfterUpdate(users, OwnRow(caller), f);
    if First(users, OwnRow(caller)).None? {
      NoMatchUnchanged(users, OwnRow(caller), f);
    }
  }
}
