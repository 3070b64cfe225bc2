/** app/actions/complaint-actions.ts: the public complaint form. The form is
    validated; the submitter is found by email or a temporary student account
    is created for them; then the exam date is checked and the complaint is
    stored. */
module ComplaintActions {
  import opened Base
  import opened Rows
  import opened Store
  import opened Text
  import opened ComplaintsApi

  /** The submitted FormData; `get` of an absent key is null. */
  type FormData = map<string, string>

  /** `formData.get(key)` */
  function Get(form: FormData, key: string): Option<string>
  {
    if key in form then Some(form[key]) else None
  }

  /** `validationData`: what `formData.get` returned for each schema field
      (null when the key is absent), and the evidence file. */
  datatype ValidationData = ValidationData(
    fullName: Option<string>, studentId: Option<string>, email: Option<string>, phone: Option<string>,
    examName: Option<string>, examDate: Option<string>, complaintType: Option<string>,
    description: Option<string>, desiredResolution: Option<string>, course: Option<string>,
    department: Option<string>, faculty: Option<string>, evidenceFile: string)

  /** The desired resolution is read from the "resolution" key; the evidence
      file is the "evidenceUrl" entry when that is non-empty, "" otherwise. */
  function ReadForm(form: FormData): ValidationData
  {
    var url := Get(form, "evidenceUrl");
    ValidationData(
      Get(form, "fullName"), Get(form, "studentId"), Get(form, "email"), Get(form, "phone"),
      Get(form, "examName"), Get(form, "examDate"), Get(form, "complaintType"),
      Get(form, "description"), Get(form, "resolution"), Get(form, "course"),
      Get(form, "department"), Get(form, "faculty"),
      if url.Some? && url.value != "" then url.value else "")
  }

  /** `validationData[n]` */
  function Input(d: ValidationData, n: FieldName): Option<string>
  {
    match n
    case FullName => d.fullName
    case StudentId => d.studentId
    case Email => d.email
    case Phone => d.phone
    case ExamName => d.examName
    case ExamDate => d.examDate
    case ComplaintType => d.complaintType
    case Description => d.description
    case DesiredResolution => d.desiredResolution
    case Course => d.course
    case Department => d.department
    case Faculty => d.faculty
    case EvidenceUrl => Some(d.evidenceFile)
  }

  /** A field's text once validation has passed (null never passes). */
  function Str(v: Option<string>): string
  {
    if v.Some? then v.value else ""
  }

  /** The action's ComplaintSchema on one field. A null value fails every
      field, the `.optional()` ones included (they admit only undefined). */
  predicate Fails(d: ValidationData, n: FieldName, p: Parsers)
  {
    var v := Input(d, n);
    match n
    case Email => v.None? || !p.isEmail(v.value)
    case Description => v.None? || |v.value| < MinDescription
    case DesiredResolution => v.None? || |v.value| < MinResolution
    case Phone => v.None?
    case Course => v.None?
    case Department => v.None?
    case Faculty => v.None?
    case EvidenceUrl => false
    case _ => v.None? || v.value == ""
  }

  /** `validatedFields.error.flatten().fieldErrors`: the fields that fail. */
  function Errors(d: ValidationData, p: Parsers): (errs: set<FieldName>)
    ensures forall n | n in errs :: Fails(d, n, p)
    ensures forall n | Fails(d, n, p) :: n in errs
    ensures EvidenceUrl !in errs
  {
    set n | n in AllFields && Fails(d, n, p)
  }

  lemma Passes(d: ValidationData, p: Parsers, n: FieldName)
    requires Errors(d, p) == {}
    ensures !Fails(d, n, p)
  {
  }

  /** What a form that passes validation guarantees about its values. */
  lemma PassedFields(d: ValidationData, p: Parsers)
    requires Errors(d, p) == {}
    ensures Str(d.fullName) != "" && Str(d.studentId) != "" && p.isEmail(Str(d.email))
    ensures Str(d.examName) != "" && Str(d.examDate) != "" && Str(d.complaintType) != ""
    ensures |Str(d.description)| >= MinDescription && |Str(d.desiredResolution)| >= MinResolution
    ensures d.phone.Some? && d.course.Some? && d.department.Some? && d.faculty.Some?
  {
    Passes(d, p, FullName);
    Passes(d, p, StudentId);
    Passes(d, p, Email);
    Passes(d, p, ExamName);
    Passes(d, p, ExamDate);
    Passes(d, p, ComplaintType);
    Passes(d, p, Description);
    Passes(d, p, DesiredResolution);
    Passes(d, p, Phone);
    Passes(d, p, Course);
    Passes(d, p, Department);
    Passes(d, p, Faculty);
  }

  /** The desired resolution comes only from the "resolution" key: a form
      without it fails validation, whatever else it sends; and so does a form
      that leaves out any optional key, since null is not `undefined`. */
  lemma AbsentKeysFail(form: FormData, p: Parsers)
    ensures "resolution" !in form ==> DesiredResolution in Errors(ReadForm(form), p)
    ensures "phone" !in form ==> Phone in Errors(ReadForm(form), p)
    ensures "course" !in form ==> Course in Errors(ReadForm(form), p)
  {
    var d := ReadForm(form);
    assert "resolution" !in form ==> Fails(d, DesiredResolution, p);
    assert "phone" !in form ==> Fails(d, Phone, p);
    assert "course" !in form ==> Fails(d, Course, p);
  }

  // ---------------------------------------------------------------------
  // The temporary account

  const TemporaryPassword := "temporary-password"
  const DefaultUnit := "General"

  /** `fullName.split(" ")[0] || ""`: the text before the first space. */
  function FirstToken(fullName: string): string
  {
    Split(fullName, ' ')[0]
  }

  /** `fullName.split(" ")[1] || ""`: the text between the first and the
      second space, "" when there is no space. */
  function SecondToken(fullName: string): string
  {
    var parts := Split(fullName, ' ');
    if |parts| == 1 then "" else parts[1]
  }

  /** The two name tokens hold no space; the first is the whole name when it
      has no space, and otherwise the name opens with the first token, a
      space and the second. */
  lemma NameTokens(fullName: string)
    ensures var first, second := FirstToken(fullName), SecondToken(fullName);
            ' ' !in first && ' ' !in second &&
            |first| <= |fullName| && first == fullName[..|first|] &&
            (' ' !in fullName ==> first == fullName && second == "") &&
            (' ' in fullName ==>
               |first| + 1 + |second| <= |fullName| &&
               fullName[..|first| + 1 + |second|] == first + " " + second)
  {
    var parts := Split(fullName, ' ');
    SplitJoin(fullName, ' ');
    if |parts| == 1 {
      assert JoinWith(parts, ' ') == parts[0];
    } else {
      var rest := JoinWith(parts[1..], ' ');
      assert fullName == parts[0] + [' '] + rest;
      assert rest[..|parts[1]|] == parts[1] by {
        if |parts[1..]| > 1 {
          assert rest == parts[1] + [' '] + JoinWith(parts[2..], ' ');
        }
      }
      assert fullName[..|parts[0]| + 1 + |parts[1]|] == parts[0] + [' '] + parts[1];
    }
  }

  /** The user row INSERTed for a submitter the store does not know. */
  function TemporaryUser(d: ValidationData, userId: string, now: int): User
  {
    var full := Str(d.fullName);
    User(userId, Str(d.email), Hash(TemporaryPassword), FirstToken(full), SecondToken(full),
         Some(Str(d.studentId)), None, "student", None, None, None, None, None, None, None,
         now, now, now)
  }

  /** The temporary account is a student account for the submitted email,
      named after the first two words of the full name, whose password is
      the fixed temporary one. */
  lemma TemporaryUserShape(d: ValidationData, userId: string, now: int)
    ensures var u := TemporaryUser(d, userId, now);
            u.role == "student" && u.id == userId && u.email == Str(d.email) &&
            Matches(TemporaryPassword, u.password) &&
            u.firstName == FirstToken(Str(d.fullName)) &&
            u.lastName == SecondToken(Str(d.fullName)) &&
            u.studentId == Some(Str(d.studentId))
  {
    MatchesExactly(TemporaryPassword, TemporaryPassword);
  }

  /** An account created for a new email is the one the next submission
      with that email finds. */
  lemma TemporaryUserIsReused(users: seq<User>, u: User)
    requires First(users, WithEmail(u.email)).None?
    ensures First(users + [u], WithEmail(u.email)) == Some(u)
  {
    SelectAppend(users, [u], WithEmail(u.email));
    NoMatchUnchanged(users, WithEmail(u.email), (x: User) => x);
  }

  // ---------------------------------------------------------------------
  // The complaint

  /** The complaint row INSERTed: course defaults to the exam name,
      department and faculty to "General". */
  function ActionComplaint(d: ValidationData, userId: string, complaintId: string, referenceNumber: string,
                           now: int, p: Parsers): Complaint
  {
    Complaint(
      complaintId, referenceNumber, userId, Str(d.fullName), Str(d.studentId), Str(d.email),
      OrNull(Str(d.phone)), Str(d.examName), p.sqlDate(Str(d.examDate)), Str(d.complaintType),
      Str(d.description), Str(d.desiredResolution), OrNull(d.evidenceFile), "pending",
      Some(OrElse(Str(d.course), Str(d.examName))),
      Some(OrElse(Str(d.department), DefaultUnit)),
      Some(OrElse(Str(d.faculty), DefaultUnit)), now)
  }

  /** The row belongs to the given owner, course falls back to the exam name
      and department and faculty to "General", and a row built from a form
      that passed validation is admissible. */
  lemma ActionComplaintShape(d: ValidationData, userId: string, complaintId: string, referenceNumber: string,
                             now: int, p: Parsers)
    ensures var c := ActionComplaint(d, userId, complaintId, referenceNumber, now, p);
            c.userId == userId && c.id == complaintId && c.referenceNumber == referenceNumber &&
            (Str(d.course) == "" ==> c.course == Some(Str(d.examName))) &&
            (Str(d.department) == "" ==> c.department == Some(DefaultUnit)) &&
            (Str(d.faculty) == "" ==> c.faculty == Some(DefaultUnit)) &&
            (Errors(d, p) == {} ==> Admissible(c, p.isEmail))
  {
    if Errors(d, p) == {} {
      PassedFields(d, p);
    }
  }

  /** Which store statement throws, if it is reached. */
  datatype Fault = NoFault | LookupFails | UserInsertFails | ComplaintInsertFails

  /** The returned ComplaintFormState. */
  datatype FormState = FormState(
    errors: set<FieldName>, message: string, referenceNumber: Option<string>, complaintId: Option<string>)

  const GenericFailure := "An error occurred while submitting your complaint. Please try again later."

  /** Whether the lookup finds no account, so that a temporary one is due. */
  predicate NeedsAccount(users: seq<User>, d: ValidationData)
  {
    First(users, WithEmail(Str(d.email))).None?
  }

  /** Whether the submission gets past the user lookup and, when one is
      due, the creation of the temporary account. */
  predicate Reached(users: seq<User>, d: ValidationData, fault: Fault)
  {
    fault != LookupFails && !(fault == UserInsertFails && NeedsAccount(users, d))
  }

  /** The owner of the complaint: the first account with the email, or the
      new temporary one. */
  function Owner(users: seq<User>, d: ValidationData, newUserId: string): string
  {
    var found := First(users, WithEmail(Str(d.email)));
    if found.Some? then found.value.id else newUserId
  }

  /** The accounts after a submission that passed validation: a temporary
      account is added when the lookup found none and its INSERT ran. */
  function UsersAfter(users: seq<User>, d: ValidationData, fault: Fault, newUserId: string, now: int): seq<User>
  {
    if Reached(users, d, fault) && NeedsAccount(users, d)
    then users + [TemporaryUser(d, newUserId, now)]
    else users
  }

  /** `SELECT id FROM users WHERE email = ?`, then, when nothing is found,
      the INSERT of a temporary account; None when that INSERT throws. */
  method FindOrCreateUser(db: Database, d: ValidationData, newUserId: string, now: int, insertFails: bool)
    returns (userId: Option<string>)
    modifies db
    ensures !NeedsAccount(old(db.users), d) ==>
              userId == Some(Owner(old(db.users), d, newUserId)) && db.users == old(db.users)
    ensures NeedsAccount(old(db.users), d) && insertFails ==>
              userId == None && db.users == old(db.users)
    ensures NeedsAccount(old(db.users), d) && !insertFails ==>
              userId == Some(newUserId) && db.users == old(db.users) + [TemporaryUser(d, newUserId, now)]
    ensures db.complaints == old(db.complaints)
    ensures db.notifications == old(db.notifications) && db.resetTokens == old(db.resetTokens)
  {
    var found := First(db.users, WithEmail(Str(d.email)));
    if found.Some? {
      return Some(found.value.id);
    }
    if insertFails {
      return None;
    }
    db.users := db.users + [TemporaryUser(d, newUserId, now)];
    userId := Some(newUserId);
  }

  const InvalidDate := "Invalid exam date. Please provide a valid date."
  const Submitted := "Complaint submitted successfully!"

  /** The state returned for a submission that passed validation. */
  function Outcome(users: seq<User>, d: ValidationData, p: Parsers, fault: Fault,
                   referenceNumber: string, complaintId: string): FormState
  {
    if !Reached(users, d, fault) then FormState({}, GenericFailure, None, None)
    else if !p.isDate(Str(d.examDate)) then FormState({}, InvalidDate, None, None)
    else if fault == ComplaintInsertFails then FormState({}, GenericFailure, None, None)
    else FormState({}, Submitted, Some(referenceNumber), Some(complaintId))
  }

  /** The complaints after a submission that passed validation: the new
      row, owned by the account found or created, is added exactly when the
      submission succeeds. */
  function ComplaintsAfter(complaints: seq<Complaint>, users: seq<User>, d: ValidationData, p: Parsers,
                           fault: Fault, referenceNumber: string, complaintId: string,
                           newUserId: string, now: int): seq<Complaint>
  {
    if Outcome(users, d, p, fault, referenceNumber, complaintId).referenceNumber.Some?
    then complaints + [ActionComplaint(d, Owner(users, d, newUserId), complaintId, referenceNumber, now, p)]
    else complaints
  }

  /** Everything after validation: find or create the account, check the
      exam date, store the complaint. */
  method StoreComplaint(db: Database, d: ValidationData, p: Parsers, referenceNumber: string,
                        complaintId: string, newUserId: string, now: int, fault: Fault)
    returns (state: FormState)
    modifies db
    ensures state == Outcome(old(db.users), d, p, fault, referenceNumber, complaintId)
    ensures db.users == UsersAfter(old(db.users), d, fault, newUserId, now)
    ensures db.complaints == ComplaintsAfter(old(db.complaints), old(db.users), d, p, fault,
                                             referenceNumber, complaintId, newUserId, now)
    ensures db.notifications == old(db.notifications) && db.resetTokens == old(db.resetTokens)
  {
    if fault == LookupFails {
      return FormState({}, GenericFailure, None, None);
    }
    var owner := FindOrCreateUser(db, d, newUserId, now, fault == UserInsertFails);
    assert db.users == UsersAfter(old(db.users), d, fault, newUserId, now);
    assert owner.None? <==> !Reached(old(db.users), d, fault);
    assert owner.Some? ==> owner.value == Owner(old(db.users), d, newUserId);
    if owner.None? {
      return FormState({}, GenericFailure, None, None);
    }
    if !p.isDate(Str(d.examDate)) {
      return FormState({}, InvalidDate, None, None);
    }
    if fault == ComplaintInsertFails {
      return FormState({}, GenericFailure, None, None);
    }
    db.complaints := db.complaints + [ActionComplaint(d, owner.value, complaintId, referenceNumber, now, p)];
    state := FormState({}, Submitted, Some(referenceNumber), Some(complaintId));
  }

  /** A submission succeeds exactly when the lookup and any account INSERT
      ran, the exam date parses and the complaint INSERT ran; only then does
      it carry the reference number and the complaint id. */
  lemma OutcomeSucceeds(users: seq<User>, d: ValidationData, p: Parsers, fault: Fault,
                        referenceNumber: string, complaintId: string)
    ensures var st := Outcome(users, d, p, fault, referenceNumber, complaintId);
            (st.referenceNumber.Some? <==>
               Reached(users, d, fault) && p.isDate(Str(d.examDate)) && fault != ComplaintInsertFails) &&
            (st.referenceNumber.Some? ==>
               st.referenceNumber == Some(referenceNumber) && st.complaintId == Some(complaintId)) &&
            (st.referenceNumber.None? ==> st.complaintId.None?)
  {
  }

  /** A temporary account, once inserted, stays even when the exam date then
      turns out invalid and no complaint is stored. */
  lemma AccountOutlivesBadDate(users: seq<User>, d: ValidationData, p: Parsers, fault: Fault,
                               newUserId: string, now: int, referenceNumber: string, complaintId: string)
    requires Reached(users, d, fault) && NeedsAccount(users, d) && !p.isDate(Str(d.examDate))
    ensures Outcome(users, d, p, fault, referenceNumber, complaintId).referenceNumber.None?
    ensures UsersAfter(users, d, fault, newUserId, now) == users + [TemporaryUser(d, newUserId, now)]
    ensures First(UsersAfter(users, d, fault, newUserId, now), WithEmail(Str(d.email)))
            == Some(TemporaryUser(d, newUserId, now))
  {
    TemporaryUserIsReused(users, TemporaryUser(d, newUserId, now));
  }

  /** submitComplaint. `referenceNumber`, `complaintId` and `newUserId` are
      the values the id generators return; `fault` is the store statement
      that throws. A form that fails validation changes nothing; one that
      passes behaves as StoreComplaint, and what it stores is admissible. */
  method SubmitComplaint(db: Database, form: FormData, p: Parsers, referenceNumber: string,
                         complaintId: string, newUserId: string, now: int, fault: Fault)
    returns (state: FormState)
    modifies db
    ensures Errors(ReadForm(form), p) != {} ==>
              state == FormState(Errors(ReadForm(form), p), "Please correct the errors in the form.", None, None) &&
              db.users == old(db.users) && db.complaints == old(db.complaints)
    ensures Errors(ReadForm(form), p) == {} ==>
              state == Outcome(old(db.users), ReadForm(form), p, fault, referenceNumber, complaintId) &&
              db.users == UsersAfter(old(db.users), ReadForm(form), fault, newUserId, now)
    ensures state.referenceNumber.Some? ==>
              db.complaints == old(db.complaints) +
                [ActionComplaint(ReadForm(form), Owner(old(db.users), ReadForm(form), newUserId),
                                 complaintId, referenceNumber, now, p)] &&
              Admissible(db.complaints[|db.complaints| - 1], p.isEmail)
    ensures state.referenceNumber.None? ==> db.complaints == old(db.complaints)
    ensures db.notifications == old(db.notifications) && db.resetTokens == old(db.resetTokens)
  {
    var d := ReadForm(form);
    var errs := Errors(d, p);
    if errs != {} {
      return FormState(errs, "Please correct the errors in the form.", None, None);
    }
    state := StoreComplaint(db, d, p, referenceNumber, complaintId, newUserId, now, fault);
    ActionComplaintShape(d, Owner(old(db.users), d, newUserId), complaintId, referenceNumber, now, p);
  }
}
