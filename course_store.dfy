/**
 * The course routes of the backend (liveroom-backend/src/routes/courseRoutes.js)
 * and the two other copies of the media-upload handler
 * (liveroom-backend/src/routes/uploadRoutes.js and
 * liveroom-backend/src/controllers/courseController.js).
 *
 * The persistence layer is a map from course id to course record held by the
 * class `Store`; every handler is a method of it that returns a `Reply` and may
 * update the map. Each method is proved equal to a pure step function
 * (`CreateStep`, `UploadStep`, `ServeReply`, ...) and the properties of the
 * routes are lemmas about those functions.
 */
module CourseStore {
  import opened Wrappers
  import opened JsText
  import opened CourseSchema
  import opened UploadFilter

  /** A field of a parsed JSON request body. */
  datatype JsonValue = Undefined | Null | Bool(b: bool) | Number(n: real) | Str(s: string) | Composite

  /** JavaScript truthiness (NaN is not modelled). */
  predicate Truthy(v: JsonValue)
  {
    match v
    case Undefined => false
    case Null => false
    case Bool(b) => b
    case Number(n) => n != 0.0
    case Str(s) => s != ""
    case Composite => true
  }

  /** A course as the routes serialise it: the record together with its `_id`. */
  datatype CourseDoc = CourseDoc(id: CourseId, course: Course)

  /** What a handler sends: a JSON `{ message }`, one or many course documents, or raw
      media bytes with their `Content-Type` and `Content-Disposition` headers. */
  datatype Body =
    | Message(text: string)
    | Document(doc: CourseDoc)
    | Documents(docs: seq<CourseDoc>)
    | Payload(contentType: string, disposition: string, data: seq<byte>)

  datatype Reply = Reply(status: nat, body: Body)

  /** The persisted collection and the allocator of fresh ids. */
  datatype Db = Db(courses: map<CourseId, Course>, nextId: nat)

  /** What a handler leaves behind: the collection and the reply. */
  datatype Step = Step(db: Db, reply: Reply)

  /** Every stored id was allocated, every record has a title and whole media. */
  predicate DbValid(db: Db)
  {
    forall k :: k in db.courses ==>
      k < db.nextId && Conforms(db.courses[k]) && MediaWhole(db.courses[k].media)
  }

  /** Where the persistence layer throws, if it does (`findById`, `save`). */
  datatype Fault = NoFault | FindFails | SaveFails

  // ---------------------------------------------------------------- create

  const TitleRequired: string := "Title is required"
  const DescriptionNotString: string := "Description must be a string"
  const Unauthorized: string := "Unauthorized: user not found"
  const CreateError: string := "Server error while creating course"

  /** The title check: a string that is not blank after `trim`. */
  predicate TitleOk(title: JsonValue)
  {
    Truthy(title) && title.Str? && Trim(title.s) != ""
  }

  /** The description check: absent/falsy, or a string. */
  predicate DescriptionOk(description: JsonValue)
  {
    !Truthy(description) || description.Str?
  }

  /** The description stored: trimmed when truthy, `''` otherwise. */
  function StoredDescription(description: JsonValue): (r: string)
    requires DescriptionOk(description)
  {
    if Truthy(description) then Trim(description.s) else ""
  }

  /** `POST /api/courses`: `caller` is `req.user._id` (absent when unauthenticated);
      `createFails` says whether `Course.create` throws. */
  function CreateStep(db: Db, title: JsonValue, description: JsonValue,
                      caller: Option<UserId>, createFails: bool): Step
  {
    if !TitleOk(title) then Step(db, Reply(400, Message(TitleRequired)))
    else if !DescriptionOk(description) then Step(db, Reply(400, Message(DescriptionNotString)))
    else if caller.None? then Step(db, Reply(401, Message(Unauthorized)))
    else if createFails then Step(db, Reply(500, Message(CreateError)))
    else
      var c := NewCourse(Trim(title.s), StoredDescription(description), caller.value);
      Step(Db(db.courses[db.nextId := c], db.nextId + 1), Reply(201, Document(CourseDoc(db.nextId, c))))
  }

  /** The title is checked first: a bad title gives 400 whatever the description and
      the caller, and nothing is stored. */
  lemma CreateChecksTitleFirst(db: Db, title: JsonValue, description: JsonValue,
                               caller: Option<UserId>, createFails: bool)
    requires !(title.Str? && Trim(title.s) != "")
    ensures CreateStep(db, title, description, caller, createFails) == Step(db, Reply(400, Message(TitleRequired)))
  {
  }

  /** A course is created exactly when every check passes and `Course.create` does
      not throw; on every other path nothing is stored. */
  lemma CreateSucceedsIff(db: Db, title: JsonValue, description: JsonValue,
                          caller: Option<UserId>, createFails: bool)
    ensures var s := CreateStep(db, title, description, caller, createFails);
      && (s.reply.status == 201 <==>
            TitleOk(title) && DescriptionOk(description) && caller.Some? && !createFails)
      && (s.reply.status != 201 ==> s.db == db)
  {
  }

  /** The created course is stored under a fresh id with the trimmed title, the stored
      description and the caller as owner, is returned as the body, and the records
      already stored are untouched. */
  lemma CreateStoresCourse(db: Db, title: JsonValue, description: JsonValue, caller: UserId)
    requires DbValid(db) && TitleOk(title) && DescriptionOk(description)
    ensures var s := CreateStep(db, title, description, Some(caller), false);
            var id := db.nextId;
      && id !in db.courses
      && s.db.courses.Keys == db.courses.Keys + {id}
      && (forall k :: k in db.courses ==> s.db.courses[k] == db.courses[k])
      && s.db.courses[id] == NewCourse(Trim(title.s), StoredDescription(description), caller)
      && s.db.courses[id].title == Trim(title.s) != ""
      && s.db.courses[id].description == Some(if Truthy(description) then Trim(description.s) else "")
      && s.db.courses[id].createdBy == Some(caller)
      && s.db.courses[id].media.None? && s.db.courses[id].transcript.None?
      && s.db.courses[id].summary.None? && s.db.courses[id].quiz == []
      && s.reply == Reply(201, Document(CourseDoc(id, s.db.courses[id])))
  {
    var c := NewCourse(Trim(title.s), StoredDescription(description), caller);
    assert CreateStep(db, title, description, Some(caller), false) ==
      Step(Db(db.courses[db.nextId := c], db.nextId + 1), Reply(201, Document(CourseDoc(db.nextId, c))));
  }

  /** Creating keeps the collection valid: the new title is not blank. */
  lemma CreateKeepsValid(db: Db, title: JsonValue, description: JsonValue,
                         caller: Option<UserId>, createFails: bool)
    requires DbValid(db)
    ensures DbValid(CreateStep(db, title, description, caller, createFails).db)
  {
  }

  // ---------------------------------------------------------------- list and detail

  /** The documents of all stored courses with id below `n`, in id order, each
      without its media payload. */
  function ListFrom(m: map<CourseId, Course>, n: nat): seq<CourseDoc>
  {
    if n == 0 then []
    else ListFrom(m, n - 1) + (if n - 1 in m then [CourseDoc(n - 1, WithoutData(m[n - 1]))] else [])
  }

  /** Every document is a stored course below `n`, stripped of its data. */
  ghost predicate StoredBelow(m: map<CourseId, Course>, n: nat, docs: seq<CourseDoc>)
  {
    forall j :: 0 <= j < |docs| ==>
      docs[j].id in m && docs[j].id < n && docs[j].course == WithoutData(m[docs[j].id])
  }

  ghost predicate IdsIncreasing(docs: seq<CourseDoc>)
  {
    forall j, j' :: 0 <= j < j' < |docs| ==> docs[j].id < docs[j'].id
  }

  /** Every stored course below `n` has a document. */
  ghost predicate CoversBelow(m: map<CourseId, Course>, n: nat, docs: seq<CourseDoc>)
  {
    forall k :: k in m && k < n ==> exists j :: 0 <= j < |docs| && docs[j].id == k
  }

  /** What `ListFrom` holds: each stored course below `n` exactly once, in increasing
      id order, stripped of its data. */
  ghost predicate ListsExactly(m: map<CourseId, Course>, n: nat, docs: seq<CourseDoc>)
  {
    StoredBelow(m, n, docs) && IdsIncreasing(docs) && CoversBelow(m, n, docs)
  }

  /** `ListFrom(m, n)` extends `ListFrom(m, n - 1)` by at most the document of `n - 1`. */
  lemma ListFromStep(m: map<CourseId, Course>, n: nat)
    requires n > 0
    ensures var prev, docs := ListFrom(m, n - 1), ListFrom(m, n);
      && |prev| <= |docs| <= |prev| + 1 && docs[..|prev|] == prev
      && (|docs| == |prev| + 1 <==> n - 1 in m)
      && (n - 1 in m ==> docs[|prev|] == CourseDoc(n - 1, WithoutData(m[n - 1])))
  {
  }

  lemma {:induction false} ListFromStored(m: map<CourseId, Course>, n: nat)
    ensures StoredBelow(m, n, ListFrom(m, n))
  {
    if n > 0 {
      ListFromStored(m, n - 1);
      ListFromStep(m, n);
      var prev, docs := ListFrom(m, n - 1), ListFrom(m, n);
      forall j | 0 <= j < |docs|
        ensures docs[j].id in m && docs[j].id < n && docs[j].course == WithoutData(m[docs[j].id])
      {
        if j < |prev| { assert docs[j] == docs[..|prev|][j]; }
      }
    }
  }

  lemma {:induction false} ListFromIncreasing(m: map<CourseId, Course>, n: nat)
    ensures IdsIncreasing(ListFrom(m, n))
  {
    if n > 0 {
      ListFromIncreasing(m, n - 1);
      ListFromStored(m, n - 1);
      ListFromStep(m, n);
      var prev, docs := ListFrom(m, n - 1), ListFrom(m, n);
      forall j, j' | 0 <= j < j' < |docs| ensures docs[j].id < docs[j'].id {
        assert docs[j] == docs[..|prev|][j];
        if j' < |prev| { assert docs[j'] == docs[..|prev|][j']; }
      }
    }
  }

  lemma {:induction false} ListFromCovers(m: map<CourseId, Course>, n: nat)
    ensures CoversBelow(m, n, ListFrom(m, n))
  {
    if n > 0 {
      ListFromCovers(m, n - 1);
      ListFromStep(m, n);
      var prev, docs := ListFrom(m, n - 1), ListFrom(m, n);
      forall k | k in m && k < n ensures exists j :: 0 <= j < |docs| && docs[j].id == k {
        if k < n - 1 {
          var j :| 0 <= j < |prev| && prev[j].id == k;
          assert docs[j] == docs[..|prev|][j];
        } else {
          assert docs[|prev|].id == k;
        }
      }
    }
  }

  /** The list holds each stored course below `n` exactly once, in id order,
      without its data. */
  lemma ListFromContents(m: map<CourseId, Course>, n: nat)
    ensures ListsExactly(m, n, ListFrom(m, n))
  {
    ListFromStored(m, n);
    ListFromIncreasing(m, n);
    ListFromCovers(m, n);
  }

  function ListReply(db: Db, findFails: bool): Reply
  {
    if findFails then Reply(500, Message("Server error while listing courses"))
    else Reply(200, Documents(ListFrom(db.courses, db.nextId)))
  }

  /** `GET /api/courses` lists every stored course once and never a media payload. */
  lemma ListHidesData(db: Db)
    requires DbValid(db)
    ensures var docs := ListReply(db, false).body.docs;
      && (forall j :: 0 <= j < |docs| ==>
            docs[j].id in db.courses && docs[j].course == WithoutData(db.courses[docs[j].id]) &&
            (docs[j].course.media.None? || docs[j].course.media.value.data.None?))
      && (forall k :: k in db.courses ==> exists j :: 0 <= j < |docs| && docs[j].id == k)
  {
    ListFromContents(db.courses, db.nextId);
  }

  const CourseNotFound: string := "Course not found"

  function DetailReply(db: Db, id: CourseId, findFails: bool): (r: Reply)
  {
    if findFails then Reply(500, Message("Server error while fetching course"))
    else if id !in db.courses then Reply(404, Message(CourseNotFound))
    else Reply(200, Document(CourseDoc(id, WithoutData(db.courses[id]))))
  }

  /** `GET /api/courses/:id` is 404 exactly for an unknown id and never carries the payload. */
  lemma DetailHidesData(db: Db, id: CourseId)
    ensures var r := DetailReply(db, id, false);
      && (r.status == 404 <==> id !in db.courses)
      && (r.status == 200 ==> r.body.doc.course == WithoutData(db.courses[id]) &&
                              (r.body.doc.course.media.None? || r.body.doc.course.media.value.data.None?))
  {
  }

  // ---------------------------------------------------------------- upload

  /** The handler's own 15 MiB guard; exactly 15 MiB is accepted. */
  const MediaSizeLimit: nat := 15 * 1024 * 1024

  const NoFileUploaded: string := "No file uploaded"
  const FileTooLarge: string := "File too large. Max 15 MB allowed."

  /** The three copies of the upload handler; they differ only in their messages. */
  datatype Handler = CourseRoutes | UploadRoutes | CourseController

  function SuccessMessage(h: Handler): string
  {
    match h
    case CourseRoutes => "Media uploaded to course"
    case UploadRoutes => "Media uploaded to course successfully"
    case CourseController => "Course video uploaded successfully"
  }

  function UploadErrorMessage(h: Handler): string
  {
    match h
    case CourseController => "Server error while uploading video"
    case _ => "Server error while uploading media"
  }

  /** The checks that let an upload through to the write. */
  predicate UploadAccepted(db: Db, id: CourseId, file: Option<UploadedFile>)
  {
    id in db.courses && file.Some? && file.value.Size() <= MediaSizeLimit
  }

  /** `POST /:id/upload` after multer: find the course (404), require a file (400),
      apply the 15 MiB guard (400), replace the media triple and save (200). */
  function UploadStep(h: Handler, db: Db, id: CourseId, file: Option<UploadedFile>, fault: Fault): Step
  {
    if fault == FindFails then Step(db, Reply(500, Message(UploadErrorMessage(h))))
    else if id !in db.courses then Step(db, Reply(404, Message(CourseNotFound)))
    else if file.None? then Step(db, Reply(400, Message(NoFileUploaded)))
    else if file.value.Size() > MediaSizeLimit then Step(db, Reply(400, Message(FileTooLarge)))
    else if fault == SaveFails then Step(db, Reply(500, Message(UploadErrorMessage(h))))
    else
      var f := file.value;
      Step(db.(courses := db.courses[id := WithMedia(db.courses[id], f.buffer, f.mimetype, f.originalname)]),
           Reply(200, Message(SuccessMessage(h))))
  }

  /** The route as mounted: multer's filter and ceiling first, then the handler. */
  datatype Outcome = Forwarded(error: MulterError) | Handled(step: Step)

  function UploadEndpoint(h: Handler, db: Db, id: CourseId, file: Option<UploadedFile>, fault: Fault): Outcome
  {
    match Receive(file)
    case Some(e) => Forwarded(e)
    case None => Handled(UploadStep(h, db, id, file, fault))
  }

  /** A missing course is reported before the file is looked at. */
  lemma UploadChecksCourseFirst(h: Handler, db: Db, id: CourseId, file: Option<UploadedFile>, fault: Fault)
    requires fault != FindFails && id !in db.courses
    ensures UploadStep(h, db, id, file, fault) == Step(db, Reply(404, Message(CourseNotFound)))
  {
  }

  /** With the course found, a missing file is a 400 "No file uploaded", and a present
      one is a 400 "too large" exactly when it exceeds 15 MiB. */
  lemma UploadFileChecks(h: Handler, db: Db, id: CourseId, file: Option<UploadedFile>, fault: Fault)
    requires fault != FindFails && id in db.courses
    ensures file.None? ==> UploadStep(h, db, id, file, fault) == Step(db, Reply(400, Message(NoFileUploaded)))
    ensures file.Some? ==>
      (UploadStep(h, db, id, file, fault) == Step(db, Reply(400, Message(FileTooLarge))) <==>
       file.value.Size() > MediaSizeLimit)
  {
  }

  /** An upload succeeds exactly when the checks pass and the save does not throw;
      the course's media triple is then the file's buffer, MIME type and name, and
      nothing else in the collection changes. Every other path changes nothing. */
  lemma UploadReplacesMedia(h: Handler, db: Db, id: CourseId, file: Option<UploadedFile>, fault: Fault)
    ensures var s := UploadStep(h, db, id, file, fault);
      && (s.reply.status == 200 <==> UploadAccepted(db, id, file) && fault == NoFault)
      && (s.reply.status == 200 ==>
            && s.reply.body == Message(SuccessMessage(h))
            && s.db.nextId == db.nextId
            && s.db.courses.Keys == db.courses.Keys
            && s.db.courses[id].media ==
                 Some(Media(Some(file.value.buffer), Some(file.value.mimetype), Some(file.value.originalname)))
            && s.db.courses[id].(media := db.courses[id].media) == db.courses[id]
            && (forall k :: k in db.courses && k != id ==> s.db.courses[k] == db.courses[k]))
      && (s.reply.status != 200 ==> s.db == db)
  {
  }

  /** A throwing find or save gives 500 with the handler's generic message and no write. */
  lemma UploadFaults(h: Handler, db: Db, id: CourseId, file: Option<UploadedFile>)
    ensures UploadStep(h, db, id, file, FindFails) == Step(db, Reply(500, Message(UploadErrorMessage(h))))
    ensures UploadAccepted(db, id, file) ==>
      UploadStep(h, db, id, file, SaveFails) == Step(db, Reply(500, Message(UploadErrorMessage(h))))
  {
  }

  /** The three handlers write the same collection and answer with the same status. */
  lemma HandlersAgree(h1: Handler, h2: Handler, db: Db, id: CourseId, file: Option<UploadedFile>, fault: Fault)
    ensures UploadStep(h1, db, id, file, fault).db == UploadStep(h2, db, id, file, fault).db
    ensures UploadStep(h1, db, id, file, fault).reply.status == UploadStep(h2, db, id, file, fault).reply.status
  {
  }

  /** Whatever the outcome, an upload keeps the collection valid. */
  lemma UploadKeepsValid(h: Handler, db: Db, id: CourseId, file: Option<UploadedFile>, fault: Fault)
    requires DbValid(db)
    ensures DbValid(UploadStep(h, db, id, file, fault).db)
  {
  }

  /** A file the filter refuses never reaches the handler: not even the course lookup
      runs, so the answer does not depend on whether the course exists. */
  lemma FilterRunsFirst(h: Handler, db: Db, id: CourseId, f: UploadedFile, fault: Fault)
    requires !FileFilter(f.originalname, f.mimetype)
    ensures UploadEndpoint(h, db, id, Some(f), fault) == Forwarded(FileTypeRejected(FileTypeMessage))
  {
  }

  /** Between 15 MiB and 100 MiB multer lets the file through and the handler refuses it;
      above 100 MiB multer refuses it first. */
  lemma TwoCeilings(h: Handler, db: Db, id: CourseId, f: UploadedFile, fault: Fault)
    requires FileFilter(f.originalname, f.mimetype) && fault != FindFails && id in db.courses
    ensures MediaSizeLimit < f.Size() <= FileSizeLimit ==>
      UploadEndpoint(h, db, id, Some(f), fault) == Handled(Step(db, Reply(400, Message(FileTooLarge))))
    ensures f.Size() > FileSizeLimit ==> UploadEndpoint(h, db, id, Some(f), fault) == Forwarded(LimitFileSize)
  {
  }

  // ---------------------------------------------------------------- stream and download

  datatype Disposition = Inline | Attachment

  function DispositionType(m: Disposition): string
  {
    match m
    case Inline => "inline"
    case Attachment => "attachment"
  }

  /** What comes before the file name: `<type>; filename="`. */
  function NamePrefix(m: Disposition): string
  {
    DispositionType(m) + "; filename=\""
  }

  /** `<type>; filename="<name>"` with the name interpolated verbatim (no escaping). */
  function ContentDisposition(m: Disposition, fileName: Option<string>): string
  {
    NamePrefix(m) + Interpolate(fileName) + "\""
  }

  /** What follows `p` when `h` starts with it. */
  function StripPrefix(p: string, h: string): (r: Option<string>)
    ensures r.Some? <==> |p| <= |h| && h[..|p|] == p
    ensures r.Some? ==> p + r.value == h
  {
    if |p| <= |h| && h[..|p|] == p then
      assert p + h[|p|..] == h;
      Some(h[|p|..])
    else None
  }

  /** The name inside `<rest>` of `<prefix><rest>`: everything before a final quote. */
  function QuotedName(rest: Option<string>): (r: Option<string>)
    ensures r.Some? <==> rest.Some? && |rest.value| > 0 && rest.value[|rest.value| - 1] == '"'
    ensures r.Some? ==> rest.value == r.value + "\""
  {
    if rest.Some? && |rest.value| > 0 && rest.value[|rest.value| - 1] == '"' then
      assert rest.value == rest.value[..|rest.value| - 1] + "\"";
      Some(rest.value[..|rest.value| - 1])
    else None
  }

  /** The reader this model pairs with `ContentDisposition`: the disposition type and
      everything between the `filename="` after the type and the final quote. It is
      not the quoted-string reading of section 4.1 of RFC 6266, under which a `"`
      inside an unescaped name would end the value early. */
  function ParseDisposition(header: string): Option<(Disposition, string)>
  {
    match QuotedName(StripPrefix(NamePrefix(Inline), header))
    case Some(name) => Some((Inline, name))
    case None =>
      match QuotedName(StripPrefix(NamePrefix(Attachment), header))
      case Some(name) => Some((Attachment, name))
      case None => None
  }

  /** The header gives back the disposition and the stored name exactly, whatever
      characters the name holds (quotes included). */
  lemma DispositionRoundTrip(m: Disposition, name: string)
    ensures ParseDisposition(ContentDisposition(m, Some(name))) == Some((m, name))
  {
    var p := NamePrefix(m);
    var h := ContentDisposition(m, Some(name));
    assert h == p + (name + "\"");
    assert h[..|p|] == p;
    assert StripPrefix(p, h) == Some(name + "\"");
    assert QuotedName(Some(name + "\"")) == Some(name);
    if m == Attachment {
      assert h[0] == 'a' && NamePrefix(Inline)[0] == 'i';
      assert StripPrefix(NamePrefix(Inline), h).None?;
    }
  }

  const MediaNotFound: string := "Media not found"

  function ServeErrorMessage(m: Disposition): string
  {
    match m
    case Inline => "Server error while streaming media"
    case Attachment => "Server error while downloading media"
  }

  /** `!course || !course.media || !course.media.data`: a Buffer is always truthy,
      so only an absent payload counts as missing. */
  predicate HasPayload(db: Db, id: CourseId)
  {
    id in db.courses && db.courses[id].media.Some? && db.courses[id].media.value.data.Some?
  }

  /** `GET /:id/stream` (inline) and `GET /:id/download` (attachment). */
  function ServeReply(m: Disposition, db: Db, id: CourseId, findFails: bool): Reply
  {
    if findFails then Reply(500, Message(ServeErrorMessage(m)))
    else if !HasPayload(db, id) then Reply(404, Message(MediaNotFound))
    else
      var media := db.courses[id].media.value;
      Reply(200, Payload(Interpolate(media.contentType), ContentDisposition(m, media.fileName), media.data.value))
  }

  /** A missing course and a course without a payload give the same 404; an empty
      payload is served like any other. */
  lemma ServeNotFound(m: Disposition, db: Db, id: CourseId)
    ensures ServeReply(m, db, id, false).status == 404 <==> !HasPayload(db, id)
    ensures !HasPayload(db, id) ==> ServeReply(m, db, id, false) == Reply(404, Message(MediaNotFound))
    ensures id in db.courses && db.courses[id].media.Some? && db.courses[id].media.value.data == Some([]) ==>
      ServeReply(m, db, id, false).status == 200 && ServeReply(m, db, id, false).body.data == []
  {
  }

  /** A payload stored without a name or a type is still served: the header names
      the file `undefined`, and the type is the string `undefined`. */
  lemma ServeUnnamed(m: Disposition, db: Db, id: CourseId)
    requires HasPayload(db, id)
    requires db.courses[id].media.value.fileName.None? && db.courses[id].media.value.contentType.None?
    ensures ServeReply(m, db, id, false) ==
      Reply(200, Payload("undefined", NamePrefix(m) + "undefined\"", db.courses[id].media.value.data.value))
  {
    var media := db.courses[id].media.value;
    assert Interpolate(media.contentType) == "undefined";
    assert ContentDisposition(m, media.fileName) == NamePrefix(m) + "undefined" + "\"";
    assert NamePrefix(m) + "undefined" + "\"" == NamePrefix(m) + "undefined\"";
  }

  /** Stream and download differ only in the disposition type of the header (and in
      the message of a 500). */
  lemma ServeModesDiffer(db: Db, id: CourseId)
    ensures var s := ServeReply(Inline, db, id, false);
            var d := ServeReply(Attachment, db, id, false);
      && s.status == d.status
      && (s.status != 200 ==> s == d)
      && (s.status == 200 ==>
            && s.body.contentType == d.body.contentType && s.body.data == d.body.data
            && s.body.disposition[|"inline"|..] == d.body.disposition[|"attachment"|..])
  {
  }

  /** Read after write: after a successful upload both read routes return exactly the
      uploaded bytes, its MIME type, and a header naming the original file. */
  lemma UploadThenServe(h: Handler, m: Disposition, db: Db, id: CourseId, f: UploadedFile)
    requires UploadAccepted(db, id, Some(f))
    ensures var after := UploadStep(h, db, id, Some(f), NoFault).db;
      ServeReply(m, after, id, false) ==
        Reply(200, Payload(f.mimetype, ContentDisposition(m, Some(f.originalname)), f.buffer))
  {
  }

  /** Uploading twice leaves only the second file retrievable. */
  lemma SecondUploadWins(h: Handler, m: Disposition, db: Db, id: CourseId, f1: UploadedFile, f2: UploadedFile)
    requires UploadAccepted(db, id, Some(f1)) && UploadAccepted(db, id, Some(f2))
    ensures var once := UploadStep(h, db, id, Some(f1), NoFault).db;
            var twice := UploadStep(h, once, id, Some(f2), NoFault).db;
      && twice == UploadStep(h, db, id, Some(f2), NoFault).db
      && ServeReply(m, twice, id, false) ==
           Reply(200, Payload(f2.mimetype, ContentDisposition(m, Some(f2.originalname)), f2.buffer))
  {
  }

  // ---------------------------------------------------------------- the store

  /** The course collection behind `/api/courses`. */
  class Store {
    var courses: map<CourseId, Course>
    var nextId: nat

    function State(): Db
      reads this
    {
      Db(courses, nextId)
    }

    predicate Valid()
      reads this
    {
      DbValid(State())
    }

    constructor ()
      ensures Valid() && courses == map[] && nextId == 0
    {
      courses := map[];
      nextId := 0;
    }

    method Create(title: JsonValue, description: JsonValue, caller: Option<UserId>, createFails: bool)
      returns (reply: Reply)
      requires Valid()
      modifies this
      ensures Valid()
      ensures Step(State(), reply) == CreateStep(old(State()), title, description, caller, createFails)
    {
      if !TitleOk(title) {
        return Reply(400, Message(TitleRequired));
      }
      if !DescriptionOk(description) {
        return Reply(400, Message(DescriptionNotString));
      }
      if caller.None? {
        return Reply(401, Message(Unauthorized));
      }
      if createFails {
        return Reply(500, Message(CreateError));
      }
      var course := NewCourse(Trim(title.s), StoredDescription(description), caller.value);
      assert Conforms(course) && MediaWhole(course.media);
      assert CreateStep(State(), title, description, caller, createFails) ==
        Step(Db(courses[nextId := course], nextId + 1), Reply(201, Document(CourseDoc(nextId, course))));
      var id := nextId;
      courses := courses[id := course];
      nextId := nextId + 1;
      reply := Reply(201, Document(CourseDoc(id, course)));
    }

    method List(findFails: bool) returns (reply: Reply)
      requires Valid()
      ensures reply == ListReply(State(), findFails)
      ensures !findFails ==>
        reply.status == 200 && forall j :: 0 <= j < |reply.body.docs| ==> reply.body.docs[j].id in courses
    {
      if findFails {
        return Reply(500, Message("Server error while listing courses"));
      }
      var docs: seq<CourseDoc> := [];
      var i := 0;
      while i < nextId
        invariant 0 <= i <= nextId
        invariant docs == ListFrom(courses, i)
      {
        if i in courses {
          docs := docs + [CourseDoc(i, WithoutData(courses[i]))];
        }
        i := i + 1;
      }
      ListFromContents(courses, nextId);
      reply := Reply(200, Documents(docs));
    }

    method Detail(id: CourseId, findFails: bool) returns (reply: Reply)
      ensures reply == DetailReply(State(), id, findFails)
      ensures !findFails ==> (reply.status == 404 <==> id !in courses)
    {
      if findFails {
        return Reply(500, Message("Server error while fetching course"));
      }
      if id !in courses {
        return Reply(404, Message(CourseNotFound));
      }
      reply := Reply(200, Document(CourseDoc(id, WithoutData(courses[id]))));
    }

    /** One upload handler (`h` picks the copy); `file` is `req.file` as multer left it. */
    method Upload(h: Handler, id: CourseId, file: Option<UploadedFile>, fault: Fault) returns (reply: Reply)
      requires Valid()
      modifies this
      ensures Valid()
      ensures Step(State(), reply) == UploadStep(h, old(State()), id, file, fault)
    {
      if fault == FindFails {
        return Reply(500, Message(UploadErrorMessage(h)));
      }
      if id !in courses {
        return Reply(404, Message(CourseNotFound));
      }
      var course := courses[id];
      if file.None? {
        return Reply(400, Message(NoFileUploaded));
      }
      var f := file.value;
      if f.Size() > MediaSizeLimit {
        return Reply(400, Message(FileTooLarge));
      }
      course := WithMedia(course, f.buffer, f.mimetype, f.originalname);
      if fault == SaveFails {
        return Reply(500, Message(UploadErrorMessage(h)));
      }
      courses := courses[id := course];
      reply := Reply(200, Message(SuccessMessage(h)));
    }

    /** The mounted route: multer first, then the handler. */
    method UploadRoute(h: Handler, id: CourseId, file: Option<UploadedFile>, fault: Fault)
      returns (outcome: Outcome)
      requires Valid()
      modifies this
      ensures Valid()
      ensures outcome.Forwarded? ==> State() == old(State())
      ensures outcome == match UploadEndpoint(h, old(State()), id, file, fault)
                         case Forwarded(e) => Forwarded(e)
                         case Handled(s) => Handled(Step(State(), s.reply))
      ensures outcome.Handled? ==> State() == outcome.step.db
    {
      var rejected := Receive(file);
      if rejected.Some? {
        return Forwarded(rejected.value);
      }
      var reply := Upload(h, id, file, fault);
      outcome := Handled(Step(State(), reply));
    }

    method Stream(id: CourseId, findFails: bool) returns (reply: Reply)
      ensures reply == ServeReply(Inline, State(), id, findFails)
      ensures !findFails ==> (reply.status == 404 <==> !HasPayload(State(), id))
    {
      reply := Serve(Inline, id, findFails);
    }

    method Download(id: CourseId, findFails: bool) returns (reply: Reply)
      ensures reply == ServeReply(Attachment, State(), id, findFails)
      ensures !findFails ==> (reply.status == 404 <==> !HasPayload(State(), id))
    {
      reply := Serve(Attachment, id, findFails);
    }

    /** The body shared by the two read routes. */
    method Serve(m: Disposition, id: CourseId, findFails: bool) returns (reply: Reply)
      ensures reply == ServeReply(m, State(), id, findFails)
    {
      if findFails {
        return Reply(500, Message(ServeErrorMessage(m)));
      }
      if id !in courses || courses[id].media.None? || courses[id].media.value.data.None? {
        return Reply(404, Message(MediaNotFound));
      }
      var media := courses[id].media.value;
      reply := Reply(200, Payload(Interpolate(media.contentType), ContentDisposition(m, media.fileName),
                                  media.data.value));
    }
  }
}
