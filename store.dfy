/** The MySQL store the portal talks to, as four in-memory tables, and the
    session cookie every authenticated request carries. Timestamps are
    milliseconds on one integer clock; nullable columns are `Option`s. */
module Store {
  import opened Base
  import opened Rows

  /** A row of `users`. */
  datatype User = User(
    id: string,
    email: string,
    password: string,            // a bcrypt digest (see Base.Hash)
    firstName: string,
    lastName: string,
    studentId: Option<string>,
    staffId: Option<string>,
    role: string,                // "student" or "admin"
    level: Option<string>,
    position: Option<string>,
    phone: Option<string>,
    department: Option<string>,
    faculty: Option<string>,
    courses: Option<string>,
    profilePicUrl: Option<string>,
    createdAt: int,
    updatedAt: int,
    passwordUpdatedAt: int)

  /** A row of `complaints`. */
  datatype Complaint = Complaint(
    id: string,
    referenceNumber: string,
    userId: string,              // the owner
    fullName: string,
    studentId: string,
    email: string,
    phone: Option<string>,
    examName: string,
    examDate: string,
    complaintType: string,
    description: string,
    desiredResolution: string,
    evidenceFile: Option<string>,
    status: string,
    course: Option<string>,
    department: Option<string>,
    faculty: Option<string>,
    createdAt: int)

  /** A row of `notifications`. */
  datatype Notification = Notification(
    id: string,
    title: string,
    message: string,
    kind: string,                // the `type` column
    userId: string,              // the recipient
    relatedId: Option<string>,
    isRead: bool,
    readAt: Option<int>,
    createdAt: int,
    updatedAt: int)

  /** A row of `password_reset_tokens`. */
  datatype ResetToken = ResetToken(
    id: string,
    userId: string,
    role: string,
    token: string,
    expiresAt: int)

  /** The decoded session cookie; an absent attribute is "" or None. */
  datatype Session = Session(
    id: string,
    userId: string,
    role: string,
    position: Option<string>,
    department: Option<string>,
    faculty: Option<string>,
    courses: Option<string>)

  /** The session cookie of a request: absent, present but undecodable, or
      decoded. */
  datatype Cookie = NoCookie | Malformed | Decoded(session: Session)

  /** The parsers the code calls and the model does not open up: zod's email
      check, whether `Date.parse` / `new Date` accept a text, and the SQL
      DATETIME text a date is stored as. `sqlDate` stands for two
      conversions at once: the complaints route formats the date with
      `toISOString` (in UTC), while the complaint actions bind a JS `Date`
      that the driver writes in the server's local time. The two give the
      same text only on a server whose time zone is UTC, which is what the
      model takes. */
  datatype Parsers = Parsers(isEmail: string -> bool, isDate: string -> bool, sqlDate: string -> string)

  /** The database: every table the modelled code reads or writes. */
  class Database {
    var users: seq<User>
    var complaints: seq<Complaint>
    var notifications: seq<Notification>
    var resetTokens: seq<ResetToken>

    constructor ()
      ensures users == [] && complaints == [] && notifications == [] && resetTokens == []
    {
      users, complaints, notifications, resetTokens := [], [], [], [];
    }
  }

  // ---------------------------------------------------------------------
  // WHERE clauses on `users`

  /** `WHERE id = ?` */
  function WithId(id: string): User -> bool
  {
    (u: User) => u.id == id
  }

  /** `WHERE id = ? AND role = ?` */
  function WithIdAndRole(id: string, role: string): User -> bool
  {
    (u: User) => u.id == id && u.role == role
  }

  /** `WHERE email = ? AND role = ?` */
  function WithEmailAndRole(email: string, role: string): User -> bool
  {
    (u: User) => u.email == email && u.role == role
  }

  /** `WHERE email = ?` */
  function WithEmail(email: string): User -> bool
  {
    (u: User) => u.email == email
  }

  /** `UPDATE users SET password = ?, updatedAt = NOW()[, passwordUpdatedAt = NOW()]
      WHERE ...`: the rows the WHERE selects get the new digest and the
      update time, every other row is left exactly as it was, and no row is
      added or removed. `updatedAt` moves on every change of a row (its column
      is declared ON UPDATE CURRENT_TIMESTAMP); `passwordUpdatedAt` only where
      the statement sets it (`stamp`). */
  function SetPassword(users: seq<User>, where: User -> bool, digest: string, now: int, stamp: bool): (r: seq<User>)
    ensures |r| == |users|
    ensures forall i | 0 <= i < |users| && !where(users[i]) :: r[i] == users[i]
    ensures forall i | 0 <= i < |users| && where(users[i]) ::
              r[i] == users[i].(password := digest, updatedAt := now,
                                passwordUpdatedAt := if stamp then now else users[i].passwordUpdatedAt)
  {
    Update(users, where, (u: User) => u.(password := digest, updatedAt := now,
                                          passwordUpdatedAt := if stamp then now else u.passwordUpdatedAt))
  }

  // ---------------------------------------------------------------------
  // Complaints

  /** The schema minimum of a description and of a desired resolution. */
  const MinDescription: nat := 10
  const MinResolution: nat := 5

  /** A nullable text column as the intake paths store it: NULL or non-empty. */
  predicate NullOrFilled(v: Option<string>)
  {
    v.None? || v.value != ""
  }

  /** What every complaint stored by an intake path satisfies: the schema's
      required fields are filled, the free texts are long enough, the email
      passed the email check, the optional columns are NULL rather than
      empty, and the complaint starts out pending. */
  predicate Admissible(c: Complaint, isEmail: string -> bool)
  {
    c.fullName != "" && c.studentId != "" && isEmail(c.email) && c.examName != "" &&
    c.complaintType != "" && |c.description| >= MinDescription &&
    |c.desiredResolution| >= MinResolution &&
    NullOrFilled(c.phone) && NullOrFilled(c.evidenceFile) && NullOrFilled(c.course) &&
    NullOrFilled(c.department) && NullOrFilled(c.faculty) && c.status == "pending"
  }

  function ComplaintCreatedAt(c: Complaint): int { c.createdAt }

  /** `WHERE userId = ?` on complaints. */
  function FiledBy(userId: string): Complaint -> bool
  {
    (c: Complaint) => c.userId == userId
  }
}
