/** pages/api/upload.ts: a signed-in user uploads a profile picture or an
    evidence file to the storage bucket. The route checks the method, the
    session and the upload type, checks the file's extension against the
    type's whitelist while the form is being parsed, and names the stored
    object after the type, the user and the time. */
module UploadApi {
  import opened Base
  import opened Text

  /** The two values the `type` query parameter may take. */
  datatype Kind = Profile | Evidence

  function KindOf(query: Option<string>): Option<Kind>
  {
    if query == Some("profile") then Some(Profile)
    else if query == Some("evidence") then Some(Evidence)
    else None
  }

  function TypeName(k: Kind): string
  {
    match k
    case Profile => "profile"
    case Evidence => "evidence"
  }

  /** `allowedFileTypes` */
  function AllowedTypes(k: Kind): seq<string>
  {
    match k
    case Profile => [".jpg", ".jpeg", ".png", ".gif"]
    case Evidence => [".jpg", ".jpeg", ".png", ".pdf", ".doc", ".docx"]
  }

  /** The `fileBegin` check: the lower-cased extension of the original name
      (the empty name when there is none) is on the type's list. */
  predicate FileAllowed(k: Kind, originalFilename: string)
  {
    Allows(k, Lower(Extname(originalFilename)))
  }

  predicate Allows(k: Kind, ext: string)
  {
    ext in AllowedTypes(k)
  }

  /** `allowedFileTypes.join(', ')` */
  function Listed(types: seq<string>): string
  {
    if types == [] then ""
    else if |types| == 1 then types[0]
    else types[0] + ", " + Listed(types[1..])
  }

  function Rejection(k: Kind): string
  {
    "Invalid file type. Allowed types: " + Listed(AllowedTypes(k))
  }

  /** `${type}/${userId}-${timestamp}${ext}`, with the extension as written. */
  function ObjectName(k: Kind, userId: string, timestamp: nat, originalFilename: string): string
  {
    TypeName(k) + "/" + (Stem(userId, timestamp) + Extname(originalFilename))
  }

  function Stem(userId: string, timestamp: nat): string
  {
    userId + "-" + NatToString(timestamp)
  }

  const StoragePrefix := "https://storage.googleapis.com/"

  function PublicUrl(bucket: string, name: string): string
  {
    StoragePrefix + bucket + "/" + name
  }

  /** The JSON the route answers with. */
  datatype UploadReply = UploadReply(status: nat, success: bool, url: Option<string>, message: string)

  function Failure(status: nat, message: string): UploadReply
  {
    UploadReply(status, false, None, message)
  }

  /** The request as the route sees it: the method, the session's user id
      ("" without a session), the `type` query parameter, the original name
      of the uploaded file if formidable delivered one ("" for a file without
      a name), formidable's error message if parsing failed, whether the
      temporary file is missing after parsing, and whether the bucket's write
      stream fails. */
  datatype Request = Request(
    verb: Verb, userId: string, query: Option<string>, upload: Option<string>, parseError: Option<string>,
    tempMissing: bool, streamFails: bool)

  /** What a request comes to: every answer attempted, in order (the client
      receives only the first), and the name of the object written to the
      bucket, if any. */
  datatype Outcome = Outcome(replies: seq<UploadReply>, stored: Option<string>)

  /** The checks made before the form is parsed. */
  function Guard(r: Request): Option<UploadReply>
  {
    if r.verb != POST then Some(Failure(405, "Method not allowed"))
    else if r.userId == "" then Some(Failure(401, "Not authenticated"))
    else if KindOf(r.query).None? then Some(Failure(400, "Invalid upload type"))
    else None
  }

  /** The parse callback: the error, the missing file, the missing temporary
      file, the failing stream, or the object written and its public URL. */
  function Transfer(r: Request, k: Kind, bucket: string, timestamp: nat): Outcome
  {
    if r.parseError.Some? then Outcome([Failure(400, r.parseError.value)], None)
    else if r.upload.None? then Outcome([Failure(400, "No file uploaded")], None)
    else if r.tempMissing then Outcome([Failure(500, "File upload failed")], None)
    else if r.streamFails then Outcome([Failure(500, "Failed to upload to cloud storage")], None)
    else
      var name := ObjectName(k, r.userId, timestamp, r.upload.value);
      Outcome([UploadReply(200, true, Some(PublicUrl(bucket, name)), "File uploaded successfully")], Some(name))
  }

  predicate Rejected(r: Request, k: Kind)
  {
    r.upload.Some? && !FileAllowed(k, r.upload.value)
  }

  /** The route as written: the `fileBegin` listener answers 400 for a file
      whose extension is not allowed, but returning from the listener does
      not stop formidable, so the parse callback still writes the file to the
      bucket and then tries to answer again. */
  function UploadAsWritten(r: Request, bucket: string, timestamp: nat): (o: Outcome)
    ensures |o.replies| >= 1
  {
    var guard := Guard(r);
    if guard.Some? then Outcome([guard.value], None)
    else
      var k := KindOf(r.query).value;
      var rest := Transfer(r, k, bucket, timestamp);
      if Rejected(r, k) then Outcome([Failure(400, Rejection(k))] + rest.replies, rest.stored)
      else rest
  }

  /** The route with the extension check taking effect: a file that is not
      allowed ends the request with 400 and nothing is written. */
  function Upload(r: Request, bucket: string, timestamp: nat): (o: Outcome)
    ensures |o.replies| == 1
  {
    var guard := Guard(r);
    if guard.Some? then Outcome([guard.value], None)
    else
      var k := KindOf(r.query).value;
      if Rejected(r, k) then Outcome([Failure(400, Rejection(k))], None)
      else Transfer(r, k, bucket, timestamp)
  }

  // ---------------------------------------------------------------------
  // Properties

  /** The guards come first and in order, and a request stopped by one of
      them writes nothing: a method other than POST gets 405, a POST without
      a user 401, a POST with another type than 'profile' or 'evidence' 400. */
  lemma UploadGuards(r: Request, bucket: string, timestamp: nat)
    ensures r.verb != POST ==> Upload(r, bucket, timestamp) == Outcome([Failure(405, "Method not allowed")], None)
    ensures r.verb == POST && r.userId == "" ==>
              Upload(r, bucket, timestamp) == Outcome([Failure(401, "Not authenticated")], None)
    ensures r.verb == POST && r.userId != "" && r.query !in {Some("profile"), Some("evidence")} ==>
              Upload(r, bucket, timestamp) == Outcome([Failure(400, "Invalid upload type")], None)
    ensures Guard(r).Some? ==> UploadAsWritten(r, bucket, timestamp) == Upload(r, bucket, timestamp)
  {
  }

  /** The two lists differ: ".gif" is for profile pictures only, the
      document types for evidence only, the other image types for both, and
      no list holds an extension shorter than four characters. */
  lemma TypesDiffer(e: string)
    ensures e == ".gif" ==> Allows(Profile, e) && !Allows(Evidence, e)
    ensures e in {".pdf", ".doc", ".docx"} ==> Allows(Evidence, e) && !Allows(Profile, e)
    ensures e in {".jpg", ".jpeg", ".png"} ==> Allows(Profile, e) && Allows(Evidence, e)
    ensures |e| < 4 ==> !Allows(Profile, e) && !Allows(Evidence, e)
  {
  }

  /** The whitelist ignores the case of the name, and the two types differ:
      a GIF is a profile picture and not evidence, a PDF or a Word file is
      evidence and not a profile picture, and a name without an extension is
      refused by both. */
  lemma WhitelistByType(name: string)
    ensures FileAllowed(Profile, Lower(name)) == FileAllowed(Profile, name)
    ensures FileAllowed(Evidence, Lower(name)) == FileAllowed(Evidence, name)
    ensures Lower(Extname(name)) == ".gif" ==> FileAllowed(Profile, name) && !FileAllowed(Evidence, name)
    ensures Lower(Extname(name)) in {".pdf", ".doc", ".docx"} ==> FileAllowed(Evidence, name) && !FileAllowed(Profile, name)
    ensures Lower(Extname(name)) in {".jpg", ".jpeg", ".png"} ==> FileAllowed(Profile, name) && FileAllowed(Evidence, name)
    ensures Extname(name) == "" ==> !FileAllowed(Profile, name) && !FileAllowed(Evidence, name)
  {
    LowerExtnameIgnoresCase(name);
    TypesDiffer(Lower(Extname(name)));
  }

  /** The stem `${userId}-${timestamp}` holds neither '/' nor '.' when the
      user id holds neither; it always holds a '-'. */
  lemma StemIsPlain(userId: string, timestamp: nat)
    ensures var stem := Stem(userId, timestamp);
            stem != "" && stem != "." &&
            ('/' !in userId ==> '/' !in stem) && ('/' !in userId && '.' !in userId ==> '.' !in stem)
  {
    var digits := NatToString(timestamp);
    var stem := Stem(userId, timestamp);
    assert stem[|userId|] == '-';
    forall i | |userId| < i < |stem| ensures stem[i] != '/' && stem[i] != '.' {
      assert stem[i] == digits[i - |userId| - 1];
    }
    forall i | 0 <= i < |userId| ensures stem[i] == userId[i] {
    }
  }

  /** For a user id without '/' and '.', the object's extension is the
      original file's as written, so the object passes the same whitelist. */
  lemma ObjectKeepsExtension(k: Kind, userId: string, timestamp: nat, originalFilename: string)
    requires '/' !in userId && '.' !in userId
    ensures var name := ObjectName(k, userId, timestamp, originalFilename);
            Extname(name) == Extname(originalFilename) &&
            (FileAllowed(k, name) <==> FileAllowed(k, originalFilename))
  {
    StemIsPlain(userId, timestamp);
    NameKeepsExtension(TypeName(k), Stem(userId, timestamp), originalFilename);
  }

  /** Every object lands in its type's folder. */
  lemma ObjectInFolder(k: Kind, userId: string, timestamp: nat, originalFilename: string)
    ensures var name := ObjectName(k, userId, timestamp, originalFilename);
            |name| > |TypeName(k)| && name[..|TypeName(k)| + 1] == TypeName(k) + "/"
  {
    var folder := TypeName(k) + "/";
    var rest := Stem(userId, timestamp) + Extname(originalFilename);
    assert (folder + rest)[..|folder|] == folder;
  }

  /** Placing a plain stem under a folder and appending an original name's
      extension yields a name with that extension. */
  lemma NameKeepsExtension(folder: string, stem: string, originalFilename: string)
    requires stem != "" && stem != "." && '/' !in stem && '.' !in stem
    ensures Extname(folder + "/" + (stem + Extname(originalFilename))) == Extname(originalFilename)
  {
    var ext := Extname(originalFilename);
    if ext == "" {
      assert folder + "/" + (stem + ext) == folder + "/" + stem;
      ExtnameOfPlain(folder, stem);
    } else {
      assert folder + "/" + (stem + ext) == folder + "/" + stem + ext;
      ExtnameOfJoin(folder, stem, ext);
    }
  }

  /** A successful upload is the only outcome that writes an object, and it
      answers with that object's public URL; an allowed file is handled
      exactly as the route as written handles it. */
  lemma UploadWritesWhatItNames(r: Request, bucket: string, timestamp: nat)
    ensures var o := Upload(r, bucket, timestamp);
            (o.stored.Some? <==> o.replies[0].status == 200) &&
            (o.stored.Some? ==>
               r.verb == POST && r.userId != "" && KindOf(r.query).Some? && r.upload.Some? &&
               FileAllowed(KindOf(r.query).value, r.upload.value) &&
               o.stored.value == ObjectName(KindOf(r.query).value, r.userId, timestamp, r.upload.value) &&
               o.replies[0] == UploadReply(200, true, Some(PublicUrl(bucket, o.stored.value)), "File uploaded successfully"))
    ensures Guard(r).None? && !Rejected(r, KindOf(r.query).value) ==>
              UploadAsWritten(r, bucket, timestamp) == Upload(r, bucket, timestamp)
  {
  }

  /** The route as written stores a file it has refused: a profile upload of
      a PDF is answered 400 and is still written to the bucket, under the
      profile folder. */
  lemma RefusedFileIsStored(r: Request, bucket: string, timestamp: nat)
    requires r.verb == POST && r.userId != "" && r.query == Some("profile")
    requires r.upload.Some? && Lower(Extname(r.upload.value)) == ".pdf"
    requires r.parseError.None? && !r.tempMissing && !r.streamFails
    ensures var o := UploadAsWritten(r, bucket, timestamp);
            o.replies[0] == Failure(400, Rejection(Profile)) && |o.replies| == 2 && o.replies[1].status == 200 &&
            o.stored == Some(ObjectName(Profile, r.userId, timestamp, r.upload.value))
    ensures Upload(r, bucket, timestamp) == Outcome([Failure(400, Rejection(Profile))], None)
  {
    TypesDiffer(Lower(Extname(r.upload.value)));
  }
}
