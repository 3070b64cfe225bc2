/** pages/api/auth/complaints/complaints.ts: a signed-in user lists complaints
    (an admin all of them, anyone else only their own) and files a new one
    from a multipart form. */
module ComplaintsApi {
  import opened Base
  import opened Rows
  import opened Store
  import opened Text

  /** `parseInt(limit) || 10` */
  const DefaultPageSize: int := 10
  /** The `allowedFileTypes` of the `fileBegin` listener. */
  const EvidenceTypes: seq<string> := [".jpg", ".jpeg", ".png", ".pdf"]

  // ---------------------------------------------------------------------
  // Listing

  /** `Math.max(1, parseInt(q) || 10)`; `q` is what parseInt made of the query
      parameter, None when that is NaN. */
  function PageSize(q: Option<int>): (r: nat)
    ensures r >= 1
    ensures q == None || q == Some(0) ==> r == DefaultPageSize
    ensures q.Some? && q.value >= 1 ==> r == q.value
    ensures q.Some? && q.value < 0 ==> r == 1
  {
    Max(1, if q.None? || q.value == 0 then DefaultPageSize else q.value)
  }

  /** `Math.max(0, parseInt(q) || 0)` */
  function PageOffset(q: Option<int>): (r: nat)
    ensures q.Some? && q.value >= 0 ==> r == q.value
    ensures q.None? || q.value <= 0 ==> r == 0
  {
    Max(0, if q.None? then 0 else q.value)
  }

  /** The complaints a caller may list: all of them for an admin, otherwise
      those the caller filed. */
  function Visible(complaints: seq<Complaint>, userId: string, role: string): seq<Complaint>
  {
    if role == "admin" then complaints else Select(complaints, FiledBy(userId))
  }

  /** The GET listing: `ORDER BY createdAt DESC LIMIT limit OFFSET offset` over
      the visible complaints. */
  function Listing(complaints: seq<Complaint>, userId: string, role: string, limit: nat, offset: nat): (r: seq<Complaint>)
    ensures |r| == Min(limit, Max(0, |Visible(complaints, userId, role)| - offset))
    ensures forall i | 0 <= i < |r| :: r[i] in complaints
    ensures role != "admin" ==> forall i | 0 <= i < |r| :: r[i].userId == userId
    ensures NewestFirst(r, ComplaintCreatedAt)
  {
    NewestPage(Visible(complaints, userId, role), ComplaintCreatedAt, offset, limit)
  }

  /** The offset skips exactly the earlier pages: the first `offset` rows
      followed by this page are the first `offset + limit` rows, so every row
      skipped is at least as new as every row on the page. */
  lemma ListingPages(complaints: seq<Complaint>, userId: string, role: string, limit: nat, offset: nat)
    ensures Listing(complaints, userId, role, offset, 0) + Listing(complaints, userId, role, limit, offset)
            == Listing(complaints, userId, role, offset + limit, 0)
    ensures var skipped, page := Listing(complaints, userId, role, offset, 0), Listing(complaints, userId, role, limit, offset);
            forall i, j | 0 <= i < |skipped| && 0 <= j < |page| :: skipped[i].createdAt >= page[j].createdAt
  {
    NewestPagesTile(Visible(complaints, userId, role), ComplaintCreatedAt, offset, limit);
  }

  /** A first page large enough holds every visible complaint: all of the
      table for an admin, every complaint the caller filed for anyone else. */
  lemma ListingComplete(complaints: seq<Complaint>, userId: string, role: string, limit: nat)
    requires limit >= |Visible(complaints, userId, role)|
    ensures role == "admin" ==> forall c | c in complaints :: c in Listing(complaints, userId, role, limit, 0)
    ensures forall c | c in complaints && c.userId == userId :: c in Listing(complaints, userId, role, limit, 0)
  {
    var visible := Visible(complaints, userId, role);
    NewestPageComplete(visible, ComplaintCreatedAt, limit);
    forall c | c in complaints && (role == "admin" || c.userId == userId)
      ensures c in visible
    {
      assert role != "admin" ==> FiledBy(userId)(c);
    }
  }

  // ---------------------------------------------------------------------
  // Evidence files

  /** The `fileBegin` check: `path.extname(name).toLowerCase()` is one of the
      allowed extensions. */
  predicate EvidenceAllowed(originalFilename: string)
  {
    Lower(Extname(originalFilename)) in EvidenceTypes
  }

  /** The check does not depend on the case of the file name. */
  lemma EvidenceAllowedIgnoresCase(name: string)
    ensures EvidenceAllowed(Lower(name)) == EvidenceAllowed(name)
  {
    LowerExtnameIgnoresCase(name);
  }

  // ---------------------------------------------------------------------
  // The POST form

  /** The multipart fields formidable parsed, keyed by the schema field whose
      name they carry: each present field's first value. */
  type Fields = map<FieldName, string>

  /** `fields.name ? fields.name[0] : ''` */
  function Field(fields: Fields, n: FieldName): string
  {
    if n in fields then fields[n] else ""
  }

  datatype Form = Form(
    fullName: string, studentId: string, email: string, phone: string,
    examName: string, examDate: string, complaintType: string, description: string,
    desiredResolution: string, course: string, department: string, faculty: string,
    evidenceUrl: string)

  /** `validatedFields`: every schema field read from the form, "" when absent. */
  function Extract(fields: Fields): Form
  {
    Form(Field(fields, FullName), Field(fields, StudentId), Field(fields, Email),
         Field(fields, Phone), Field(fields, ExamName), Field(fields, ExamDate),
         Field(fields, ComplaintType), Field(fields, Description),
         Field(fields, DesiredResolution), Field(fields, Course),
         Field(fields, Department), Field(fields, Faculty), Field(fields, EvidenceUrl))
  }

  /** The fields of the schema. */
  datatype FieldName =
    | FullName | StudentId | Email | Phone | ExamName | ExamDate | ComplaintType
    | Description | DesiredResolution | Course | Department | Faculty | EvidenceUrl

  function Value(f: Form, n: FieldName): string
  {
    match n
    case FullName => f.fullName
    case StudentId => f.studentId
    case Email => f.email
    case Phone => f.phone
    case ExamName => f.examName
    case ExamDate => f.examDate
    case ComplaintType => f.complaintType
    case Description => f.description
    case DesiredResolution => f.desiredResolution
    case Course => f.course
    case Department => f.department
    case Faculty => f.faculty
    case EvidenceUrl => f.evidenceUrl
  }

  /** The fields the schema requires to be non-empty (or long enough). */
  const Required: set<FieldName> := {FullName, StudentId, ExamName, ComplaintType, Description, DesiredResolution}
  /** The fields the schema marks `.optional()`. */
  const Optional: set<FieldName> := {Phone, Course, Department, Faculty, EvidenceUrl}

  const AllFields: set<FieldName> :=
    {FullName, StudentId, Email, Phone, ExamName, ExamDate, ComplaintType, Description,
     DesiredResolution, Course, Department, Faculty, EvidenceUrl}

  /** This handler's ComplaintSchema on one field: the optional fields accept
      anything, the exam date must parse as a date. */
  predicate SchemaFails(f: Form, n: FieldName, p: Parsers)
  {
    var v := Value(f, n);
    match n
    case Email => !p.isEmail(v)
    case ExamDate => !p.isDate(v)
    case Description => |v| < MinDescription
    case DesiredResolution => |v| < MinResolution
    case Phone => false
    case Course => false
    case Department => false
    case Faculty => false
    case EvidenceUrl => false
    case _ => v == ""
  }

  /** `ComplaintSchema.safeParse`: the fields that fail, and never an optional one. */
  function SchemaErrors(f: Form, p: Parsers): (errs: set<FieldName>)
    ensures forall n | n in errs :: SchemaFails(f, n, p)
    ensures forall n | SchemaFails(f, n, p) :: n in errs
    ensures errs !! Optional
  {
    set n | n in AllFields && SchemaFails(f, n, p)
  }

  /** What a form that passes this handler's validation guarantees. */
  lemma SchemaPassed(f: Form, p: Parsers)
    requires SchemaErrors(f, p) == {}
    ensures f.fullName != "" && f.studentId != "" && p.isEmail(f.email) && f.examName != ""
    ensures p.isDate(f.examDate) && f.complaintType != ""
    ensures |f.description| >= MinDescription && |f.desiredResolution| >= MinResolution
  {
    assert !SchemaFails(f, FullName, p) && !SchemaFails(f, StudentId, p) && !SchemaFails(f, Email, p);
    assert !SchemaFails(f, ExamName, p) && !SchemaFails(f, ExamDate, p) && !SchemaFails(f, ComplaintType, p);
    assert !SchemaFails(f, Description, p) && !SchemaFails(f, DesiredResolution, p);
  }

  /** A form that leaves out a required field fails validation on that field;
      leaving out an optional field never makes it fail. */
  lemma MissingFieldsRejected(fields: Fields, p: Parsers)
    ensures forall n | n in Required && n !in fields :: n in SchemaErrors(Extract(fields), p)
    ensures SchemaErrors(Extract(fields), p) !! Optional
  {
    var f := Extract(fields);
    forall n | n in Required && n !in fields
      ensures n in SchemaErrors(f, p)
    {
      assert Value(f, n) == Field(fields, n) == "";
      assert SchemaFails(f, n, p);
    }
  }

  /** The row the POST branch INSERTs for the signed-in user: empty optional
      fields become NULL, status and createdAt take their column defaults. */
  function NewComplaint(f: Form, userId: string, complaintId: string, referenceNumber: string,
                        now: int, p: Parsers): Complaint
  {
    Complaint(complaintId, referenceNumber, userId, f.fullName, f.studentId, f.email,
              OrNull(f.phone), f.examName, p.sqlDate(f.examDate), f.complaintType,
              f.description, f.desiredResolution, OrNull(f.evidenceUrl), "pending",
              OrNull(f.course), OrNull(f.department), OrNull(f.faculty), now)
  }

  /** The row belongs to the caller, keeps the evidence URL only when one was
      given, and is admissible once the form passed validation. */
  lemma NewComplaintShape(f: Form, userId: string, complaintId: string, referenceNumber: string,
                          now: int, p: Parsers)
    ensures var c := NewComplaint(f, userId, complaintId, referenceNumber, now, p);
            c.userId == userId && c.id == complaintId && c.referenceNumber == referenceNumber &&
            (c.evidenceFile == None <==> f.evidenceUrl == "") &&
            (SchemaErrors(f, p) == {} ==> Admissible(c, p.isEmail))
  {
    if SchemaErrors(f, p) == {} {
      SchemaPassed(f, p);
    }
  }

  /** The multipart request as formidable delivers it: the fields, the
      original name of the uploaded file if there is one, whether parsing
      failed, and whether the INSERT throws. */
  datatype Submission = Submission(fields: Fields, upload: Option<string>, parseError: bool, insertFails: bool)

  predicate UploadRejected(s: Submission)
  {
    s.upload.Some? && !EvidenceAllowed(s.upload.value)
  }

  /** Whether the parse callback reaches and completes the INSERT. */
  predicate Stores(s: Submission, p: Parsers)
  {
    !s.parseError && SchemaErrors(Extract(s.fields), p) == {} && !s.insertFails
  }

  /** The POST branch as written: the `fileBegin` listener answers 400 for a
      disallowed file, but returning from the listener does not stop the
      parse, so the callback still validates and stores the complaint and
      then tries to answer again. That second answer finds the response
      already sent and throws inside the `try`, so the `catch` tries a 500
      as well. `replies` lists every answer attempted, in order; the client
      receives only the first. */
  method PostAsWritten(db: Database, userId: string, s: Submission, complaintId: string,
                       referenceNumber: string, now: int, p: Parsers) returns (replies: seq<Reply>)
    modifies db
    ensures |replies| >= 1
    ensures UploadRejected(s) ==> replies[0] == Reply(400, "Invalid file type.")
    ensures !UploadRejected(s) ==> |replies| == 1 && (replies[0].status == 200 <==> Stores(s, p))
    ensures Stores(s, p) ==>
              db.complaints == old(db.complaints) + [NewComplaint(Extract(s.fields), userId, complaintId, referenceNumber, now, p)]
    ensures !Stores(s, p) ==> db.complaints == old(db.complaints)
    ensures UploadRejected(s) && Stores(s, p) ==>
              |replies| == 3 && replies[0] == Reply(400, "Invalid file type.") &&
              replies[1] == Reply(200, "Complaint submitted successfully") &&
              replies[2] == Reply(500, "Failed to submit the complaint to the database.") &&
              |db.complaints| == |old(db.complaints)| + 1
    ensures db.users == old(db.users) && db.notifications == old(db.notifications)
    ensures db.resetTokens == old(db.resetTokens)
  {
    var early: seq<Reply> := if UploadRejected(s) then [Reply(400, "Invalid file type.")] else [];
    var late: seq<Reply>;
    if s.parseError {
      late := [Reply(500, "Error processing the form.")];
    } else if SchemaErrors(Extract(s.fields), p) != {} {
      late := [Reply(400, "Validation failed")];
    } else if s.insertFails {
      late := [Reply(500, "Failed to submit the complaint to the database.")];
    } else {
      db.complaints := db.complaints + [NewComplaint(Extract(s.fields), userId, complaintId, referenceNumber, now, p)];
      late := [Reply(200, "Complaint submitted successfully")];
      if UploadRejected(s) {
        late := late + [Reply(500, "Failed to submit the complaint to the database.")];
      }
    }
    replies := early + late;
  }

  /** The POST branch with the file check taking effect: a disallowed file
      ends the request with 400 and nothing is stored. */
  method Post(db: Database, userId: string, s: Submission, complaintId: string,
              referenceNumber: string, now: int, p: Parsers) returns (reply: Reply)
    modifies db
    ensures UploadRejected(s) ==> reply == Reply(400, "Invalid file type.") && db.complaints == old(db.complaints)
    ensures reply.status == 200 <==> !UploadRejected(s) && Stores(s, p)
    ensures reply.status == 200 ==>
              db.complaints == old(db.complaints) + [NewComplaint(Extract(s.fields), userId, complaintId, referenceNumber, now, p)]
    ensures reply.status != 200 ==> db.complaints == old(db.complaints)
    ensures (forall c | c in old(db.complaints) :: Admissible(c, p.isEmail)) ==>
              forall c | c in db.complaints :: Admissible(c, p.isEmail)
    ensures db.users == old(db.users) && db.notifications == old(db.notifications)
    ensures db.resetTokens == old(db.resetTokens)
  {
    if UploadRejected(s) {
      return Reply(400, "Invalid file type.");
    }
    if s.parseError {
      return Reply(500, "Error processing the form.");
    }
    var f := Extract(s.fields);
    if SchemaErrors(f, p) != {} {
      return Reply(400, "Validation failed");
    }
    if s.insertFails {
      return Reply(500, "Failed to submit the complaint to the database.");
    }
    NewComplaintShape(f, userId, complaintId, referenceNumber, now, p);
    db.complaints := db.complaints + [NewComplaint(f, userId, complaintId, referenceNumber, now, p)];
    reply := Reply(200, "Complaint submitted successfully");
  }

  // ---------------------------------------------------------------------
  // The handler

  datatype Body = Complaints(rows: seq<Complaint>) | Message(text: string)

  /** `limitQ`/`offsetQ` are what parseInt made of the query parameters;
      `listFails` says whether the listing query throws. A POST is answered
      as written: with the first reply the client receives, while the
      complaint is stored whenever the form validates and the INSERT goes
      through, even after a refused file. */
  method Handle(db: Database, cookie: Cookie, verb: Verb, limitQ: Option<int>, offsetQ: Option<int>,
                listFails: bool, s: Submission, complaintId: string, referenceNumber: string,
                now: int, p: Parsers) returns (status: nat, body: Body)
    modifies db
    ensures cookie.Malformed? ==> status == 400 && db.complaints == old(db.complaints)
    ensures cookie.NoCookie? || (cookie.Decoded? && (cookie.session.userId == "" || cookie.session.role == "")) ==>
              status == 401 && db.complaints == old(db.complaints)
    ensures cookie.Decoded? && cookie.session.userId != "" && cookie.session.role != "" ==>
              var user := cookie.session;
              if verb == GET then
                db.complaints == old(db.complaints) &&
                (listFails ==> status == 500) &&
                (!listFails ==>
                   status == 200 &&
                   body == Complaints(Listing(old(db.complaints), user.userId, user.role, PageSize(limitQ), PageOffset(offsetQ))))
              else if verb == POST then
                (UploadRejected(s) ==> status == 400) &&
                (!UploadRejected(s) ==> (status == 200 <==> Stores(s, p))) &&
                (Stores(s, p) ==> db.complaints == old(db.complaints) +
                                    [NewComplaint(Extract(s.fields), user.userId, complaintId, referenceNumber, now, p)]) &&
                (!Stores(s, p) ==> db.complaints == old(db.complaints))
              else
                status == 405 && db.complaints == old(db.complaints)
    ensures db.users == old(db.users) && db.notifications == old(db.notifications)
    ensures db.resetTokens == old(db.resetTokens)
  {
    if cookie.Malformed? {
      return 400, Message("Invalid session cookie format.");
    }
    if cookie.NoCookie? || cookie.session.userId == "" || cookie.session.role == "" {
      return 401, Message("Not authenticated");
    }
    var user := cookie.session;
    if verb == GET {
      if listFails {
        return 500, Message("Failed to fetch complaints");
      }
      var rows := Listing(db.complaints, user.userId, user.role, PageSize(limitQ), PageOffset(offsetQ));
      return 200, Complaints(rows);
    } else if verb == POST {
      var replies := PostAsWritten(db, user.userId, s, complaintId, referenceNumber, now, p);
      return replies[0].status, Message(replies[0].message);
    } else {
      return 405, Message("Method not allowed.");
    }
  }
}
