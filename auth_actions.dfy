/** app/actions/auth.ts: registering admins and students, signing in (with
    and without a session cookie) and reading back the signed-in user. */
module AuthActions {
  import opened Base
  import opened Rows
  import opened Store

  /** Which statement of a registration throws, if any. */
  datatype RegisterFault = RegisterRuns | CheckThrows | InsertThrows

  // ---------------------------------------------------------------------
  // registerAdmin

  /** The admin form; an optional field left empty is "". */
  datatype AdminData = AdminData(
    firstName: string, lastName: string, email: string, staffId: string, password: string,
    position: string, department: string, faculty: string, courses: string)

  const AdminExists := "An admin with this email already exists."
  const AdminRegistered := "Admin registered successfully"
  const AdminFailed := "Failed to register admin. Please try again later."

  /** `WHERE email = ? AND role = 'admin'` */
  function AdminWithEmail(email: string): User -> bool
  {
    WithEmailAndRole(email, "admin")
  }

  /** The row registerAdmin inserts; `position || null` and the like. */
  function NewAdmin(data: AdminData, id: string, now: int): User
  {
    User(id, data.email, Hash(data.password), data.firstName, data.lastName, None, Some(data.staffId), "admin",
         None, OrNull(data.position), None, OrNull(data.department), OrNull(data.faculty), OrNull(data.courses),
         None, now, now, now)
  }

  function RegisterAdminOutcome(users: seq<User>, data: AdminData, fault: RegisterFault): ActionResult
  {
    if fault == CheckThrows then ActionResult(false, AdminFailed)
    else if First(users, AdminWithEmail(data.email)).Some? then ActionResult(false, AdminExists)
    else if fault == InsertThrows then ActionResult(false, AdminFailed)
    else ActionResult(true, AdminRegistered)
  }

  function UsersAfterRegisterAdmin(users: seq<User>, data: AdminData, id: string, now: int, fault: RegisterFault): seq<User>
  {
    if RegisterAdminOutcome(users, data, fault).success then users + [NewAdmin(data, id, now)] else users
  }

  /** `id` is the generated id of the new row. */
  method RegisterAdmin(db: Database, data: AdminData, id: string, now: int, fault: RegisterFault)
    returns (result: ActionResult)
    modifies db
    ensures result == RegisterAdminOutcome(old(db.users), data, fault)
    ensures db.users == UsersAfterRegisterAdmin(old(db.users), data, id, now, fault)
    ensures db.complaints == old(db.complaints) && db.notifications == old(db.notifications)
    ensures db.resetTokens == old(db.resetTokens)
  {
    if fault == CheckThrows {
      return ActionResult(false, AdminFailed);
    }
    var rows := Select(db.users, AdminWithEmail(data.email));
    if |rows| > 0 {
      return ActionResult(false, AdminExists);
    }
    if fault == InsertThrows {
      return ActionResult(false, AdminFailed);
    }
    db.users := db.users + [NewAdmin(data, id, now)];
    result := ActionResult(true, AdminRegistered);
  }

  /** No two admins share an email. */
  ghost predicate DistinctAdminEmails(users: seq<User>)
  {
    forall i, j | 0 <= i < j < |users| && users[i].role == "admin" && users[j].role == "admin" ::
      users[i].email != users[j].email
  }

  /** registerAdmin refuses an email some admin already has and otherwise adds
      one admin row with NULL for every empty optional field; so admins keep
      distinct emails. */
  lemma RegisterAdminKeepsEmailsDistinct(users: seq<User>, data: AdminData, id: string, now: int, fault: RegisterFault)
    requires DistinctAdminEmails(users)
    ensures var after := UsersAfterRegisterAdmin(users, data, id, now, fault);
            DistinctAdminEmails(after) &&
            ((exists u | u in users :: u.email == data.email && u.role == "admin") ==> after == users) &&
            (RegisterAdminOutcome(users, data, fault).success ==>
               |after| == |users| + 1 && after[|users|].role == "admin" &&
               NullOrFilled(after[|users|].position) && NullOrFilled(after[|users|].department) &&
               NullOrFilled(after[|users|].faculty) && NullOrFilled(after[|users|].courses))
  {
    var after := UsersAfterRegisterAdmin(users, data, id, now, fault);
    if RegisterAdminOutcome(users, data, fault).success {
      assert forall u | u in users :: !(u.email == data.email && u.role == "admin");
      assert forall i | 0 <= i < |users| :: after[i] == users[i];
    }
  }

  // ---------------------------------------------------------------------
  // registerStudent

  /** The student form. */
  datatype StudentData = StudentData(
    firstName: string, lastName: string, email: string, password: string, studentId: string,
    department: string, faculty: string, level: string)

  const StudentTaken := "Email or Student ID already registered"
  const StudentRegistered := "Registration successful"
  const StudentFailed := "Registration failed"

  /** `WHERE email = ? OR studentId = ?`; a NULL studentId matches nothing. */
  function EmailOrStudentId(email: string, studentId: string): User -> bool
  {
    (u: User) => u.email == email || u.studentId == Some(studentId)
  }

  /** The row registerStudent inserts: the role is always 'student', whatever
      the form says. */
  function NewStudent(data: StudentData, id: string, now: int): User
  {
    User(id, data.email, Hash(data.password), data.firstName, data.lastName, Some(data.studentId), None, "student",
         Some(data.level), None, None, Some(data.department), Some(data.faculty), None, None, now, now, now)
  }

  function RegisterStudentOutcome(users: seq<User>, data: StudentData, fault: RegisterFault): ActionResult
  {
    if fault == CheckThrows then ActionResult(false, StudentFailed)
    else if First(users, EmailOrStudentId(data.email, data.studentId)).Some? then ActionResult(false, StudentTaken)
    else if fault == InsertThrows then ActionResult(false, StudentFailed)
    else ActionResult(true, StudentRegistered)
  }

  function UsersAfterRegisterStudent(users: seq<User>, data: StudentData, id: string, now: int, fault: RegisterFault): seq<User>
  {
    if RegisterStudentOutcome(users, data, fault).success then users + [NewStudent(data, id, now)] else users
  }

  method RegisterStudent(db: Database, data: StudentData, id: string, now: int, fault: RegisterFault)
    returns (result: ActionResult)
    modifies db
    ensures result == RegisterStudentOutcome(old(db.users), data, fault)
    ensures db.users == UsersAfterRegisterStudent(old(db.users), data, id, now, fault)
    ensures db.complaints == old(db.complaints) && db.notifications == old(db.notifications)
    ensures db.resetTokens == old(db.resetTokens)
  {
    if fault == CheckThrows {
      return ActionResult(false, StudentFailed);
    }
    var rows := Select(db.users, EmailOrStudentId(data.email, data.studentId));
    if |rows| > 0 {
      return ActionResult(false, StudentTaken);
    }
    if fault == InsertThrows {
      return ActionResult(false, StudentFailed);
    }
    db.users := db.users + [NewStudent(data, id, now)];
    result := ActionResult(true, StudentRegistered);
  }

  /** No two users share an email, and no two share a student id. */
  ghost predicate DistinctAccounts(users: seq<User>)
  {
    forall i, j | 0 <= i < j < |users| ::
      users[i].email != users[j].email && (users[i].studentId.None? || users[i].studentId != users[j].studentId)
  }

  /** registerStudent refuses a form whose email OR student id any user
      already has, whatever that user's role, and otherwise adds one 'student'
      row; so emails and student ids stay distinct across the table. */
  lemma RegisterStudentKeepsAccountsDistinct(users: seq<User>, data: StudentData, id: string, now: int, fault: RegisterFault)
    requires DistinctAccounts(users)
    ensures var after := UsersAfterRegisterStudent(users, data, id, now, fault);
            DistinctAccounts(after) &&
            ((exists u | u in users :: u.email == data.email || u.studentId == Some(data.studentId)) ==> after == users) &&
            (RegisterStudentOutcome(users, data, fault).success <==> fault == RegisterRuns && |after| == |users| + 1) &&
            (|after| == |users| + 1 ==> after[|users|].role == "student" && after[|users|].email == data.email)
  {
    var after := UsersAfterRegisterStudent(users, data, id, now, fault);
    if RegisterStudentOutcome(users, data, fault).success {
      var n := NewStudent(data, id, now);
      assert after == users + [n];
      forall i, j | 0 <= i < j < |after|
        ensures after[i].email != after[j].email && (after[i].studentId.None? || after[i].studentId != after[j].studentId)
      {
        assert after[i] == users[i];
        if j == |users| {
          assert after[j] == n;
          assert users[i] in users;
          assert !EmailOrStudentId(data.email, data.studentId)(users[i]);
        } else {
          assert after[j] == users[j];
        }
      }
    }
  }

  // ---------------------------------------------------------------------
  // loginUser and login

  const BadCredentials := "Invalid email or password."
  const LoginFailed := "Login failed"

  /** The role whose accounts a sign-in searches: 'admin' for an admin sign-in,
      'student' for every other requested role. */
  function SearchedRole(role: string): string
  {
    if role == "admin" then "admin" else "student"
  }

  /** The account a sign-in checks: the first with the email and the searched role. */
  function SignInAccount(users: seq<User>, email: string, role: string): Option<User>
  {
    First(users, WithEmailAndRole(email, SearchedRole(role)))
  }

  /** The user fields loginUser hands back: never the password. */
  datatype PublicUser = PublicUser(id: string, email: string, firstName: string, lastName: string, role: string)

  datatype LoginResult = Denied(message: string) | Welcomed(user: PublicUser)

  /** loginUser(email, password, role); `fails` says the store throws. */
  function LoginUser(users: seq<User>, email: string, password: string, role: string, fails: bool): LoginResult
  {
    var account := SignInAccount(users, email, role);
    if fails then Denied(LoginFailed)
    else if account.None? then Denied(BadCredentials)
    else if !Matches(password, account.value.password) then Denied(BadCredentials)
    else
      var u := account.value;
      Welcomed(PublicUser(u.id, u.email, u.firstName, u.lastName, u.role))
  }

  /** A sign-in only ever admits an account of the searched role whose stored
      digest accepts the password; an unknown email and a wrong password get
      the same answer, so the answer does not tell which it was. */
  lemma LoginUserAdmits(users: seq<User>, email: string, password: string, role: string)
    ensures var r := LoginUser(users, email, password, role, false);
            (r.Welcomed? <==> SignInAccount(users, email, role).Some? &&
                              Matches(password, SignInAccount(users, email, role).value.password)) &&
            (r.Welcomed? ==> exists u | u in users :: u.id == r.user.id && u.email == email &&
                               u.role == SearchedRole(role) && r.user.role == u.role && Matches(password, u.password)) &&
            (r.Denied? ==> r == Denied(BadCredentials)) &&
            ((forall u | u in users :: u.email != email) ==> r == Denied(BadCredentials))
  {
  }

  /** Accounts of the other role are invisible to a sign-in: an admin sign-in
      never sees a student account and every other sign-in never sees an
      admin account. */
  lemma LoginIgnoresOtherRoles(users: seq<User>, others: seq<User>, email: string, password: string, role: string)
    requires forall u | u in others :: u.role != SearchedRole(role)
    ensures LoginUser(users + others, email, password, role, false) == LoginUser(users, email, password, role, false)
    ensures LoginUser(others + users, email, password, role, false) == LoginUser(users, email, password, role, false)
  {
    SignInAccountIgnores(users, others, email, SearchedRole(role));
  }

  lemma SignInAccountIgnores(users: seq<User>, others: seq<User>, email: string, searched: string)
    requires forall u | u in others :: u.role != searched
    ensures First(users + others, WithEmailAndRole(email, searched)) == First(users, WithEmailAndRole(email, searched))
    ensures First(others + users, WithEmailAndRole(email, searched)) == First(users, WithEmailAndRole(email, searched))
  {
    var p := WithEmailAndRole(email, searched);
    SelectAppend(users, others, p);
    SelectAppend(others, users, p);
    NoMatchUnchanged(others, p, (u: User) => u);
    assert Select(users + others, p) == Select(users, p) + [];
  }

  /** `x || null` for a nullable column: an empty text is NULL as well. */
  function NullIfEmpty(v: Option<string>): Option<string>
  {
    if v.Some? && v.value != "" then v else None
  }

  /** What login returns: the session record written to the cookie together
      with the reply, or a refusal. */
  datatype SignIn = Refused(message: string) | SignedIn(session: Session, role: string, position: Option<string>)

  /** The session record for an account: the requested role (not the
      account's), and the account's position, department, faculty and courses
      with empty values as NULL. */
  function SessionFor(sessionId: string, u: User, role: string): Session
  {
    Session(sessionId, u.id, role, NullIfEmpty(u.position), NullIfEmpty(u.department), NullIfEmpty(u.faculty),
            NullIfEmpty(u.courses))
  }

  /** login(data, res); `sessionId` is the generated id of the session. */
  function Login(users: seq<User>, email: string, password: string, role: string, sessionId: string, fails: bool): SignIn
  {
    var account := SignInAccount(users, email, role);
    if fails then Refused(LoginFailed)
    else if account.None? || !Matches(password, account.value.password) then Refused(BadCredentials)
    else SignedIn(SessionFor(sessionId, account.value, role), role, NullIfEmpty(account.value.position))
  }

  /** login admits exactly whom loginUser admits; its session names the
      admitted account and the requested role, and holds no empty text. */
  lemma LoginSession(users: seq<User>, email: string, password: string, role: string, sessionId: string)
    ensures var s := Login(users, email, password, role, sessionId, false);
            var r := LoginUser(users, email, password, role, false);
            (s.SignedIn? <==> r.Welcomed?) &&
            (s.Refused? ==> s.message == BadCredentials) &&
            (s.SignedIn? ==>
               s.session.id == sessionId && s.session.userId == r.user.id && s.session.role == role &&
               s.role == role && s.position == s.session.position &&
               NullOrFilled(s.session.position) && NullOrFilled(s.session.department) &&
               NullOrFilled(s.session.faculty) && NullOrFilled(s.session.courses))
  {
  }

  // ---------------------------------------------------------------------
  // getCurrentUser

  /** The columns getCurrentUser selects: everything but the password and the
      timestamps. */
  datatype CurrentUser = CurrentUser(
    id: string, email: string, firstName: string, lastName: string, studentId: Option<string>,
    staffId: Option<string>, phone: Option<string>, position: Option<string>, department: Option<string>,
    faculty: Option<string>, courses: Option<string>, profilePicUrl: Option<string>, role: string)

  function Profile(u: User, role: string): CurrentUser
  {
    CurrentUser(u.id, u.email, u.firstName, u.lastName, u.studentId, u.staffId, u.phone, u.position,
                u.department, u.faculty, u.courses, u.profilePicUrl, role)
  }

  /** getCurrentUser(): null without a cookie, for a cookie that does not
      parse, when the store throws, and when no row has the session's id AND
      role; otherwise that row without its password, under the session's role. */
  function GetCurrentUser(users: seq<User>, cookie: Cookie, fails: bool): Option<CurrentUser>
  {
    if !cookie.Decoded? || fails then None
    else
      var row := First(users, WithIdAndRole(cookie.session.userId, cookie.session.role));
      if row.None? then None else Some(Profile(row.value, cookie.session.role))
  }

  /** The signed-in user is the row the session names, with the session's
      role; a session whose id and role match no row signs nobody in. */
  lemma CurrentUserIsSessionUser(users: seq<User>, cookie: Cookie, fails: bool)
    ensures var r := GetCurrentUser(users, cookie, fails);
            (r.Some? <==> cookie.Decoded? && !fails &&
                          exists u | u in users :: u.id == cookie.session.userId && u.role == cookie.session.role) &&
            (r.Some? ==> r.value.id == cookie.session.userId && r.value.role == cookie.session.role &&
                         exists u | u in users && u.id == r.value.id && u.role == r.value.role ::
                           r.value == Profile(u, u.role))
  {
    if cookie.Decoded? && !fails {
      var row := First(users, WithIdAndRole(cookie.session.userId, cookie.session.role));
      if row.None? {
        assert forall u | u in users :: !WithIdAndRole(cookie.session.userId, cookie.session.role)(u);
      }
    }
  }

  /** Signing in and then reading the current user finds the account that
      signed in, when the requested role is the one searched: a row with its
      id and role, and that very row when ids are unique, as the primary key
      makes them. */
  lemma SignInThenCurrentUser(users: seq<User>, email: string, password: string, role: string, sessionId: string)
    requires role == "admin" || role == "student"
    requires Login(users, email, password, role, sessionId, false).SignedIn?
    ensures var s := Login(users, email, password, role, sessionId, false);
            var u := SignInAccount(users, email, role).value;
            var r := GetCurrentUser(users, Decoded(s.session), false);
            r.Some? && r.value.id == u.id && r.value.role == role &&
            ((forall i, j | 0 <= i < j < |users| :: users[i].id != users[j].id) ==> r == Some(Profile(u, role)))
  {
    var s := Login(users, email, password, role, sessionId, false);
    var u := SignInAccount(users, email, role).value;
    assert s.session.userId == u.id && s.session.role == role;
    assert u in users && u.role == role;
    assert WithIdAndRole(u.id, role)(u);
    if forall i, j | 0 <= i < j < |users| :: users[i].id != users[j].id {
      FirstOfUnique(users, u);
    }
  }

  /** With unique ids, the row found by its id and role is the row itself. */
  lemma FirstOfUnique(users: seq<User>, u: User)
    requires u in users
    requires forall i, j | 0 <= i < j < |users| :: users[i].id != users[j].id
    ensures First(users, WithIdAndRole(u.id, u.role)) == Some(u)
  {
    var row := First(users, WithIdAndRole(u.id, u.role));
    var i :| 0 <= i < |users| && users[i] == u;
    var k :| 0 <= k < |users| && users[k] == row.value;
    assert users[i].id == users[k].id;
  }

}
