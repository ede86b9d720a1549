/**
 * The course-upload form of the frontend
 * (liveroom-frontend/src/components/upload/CourseUpload.jsx): file drop and
 * selection, and the submit handler that validates the form, creates the course
 * and then uploads its media.
 *
 * The browser is abstracted: the saved token and the two `fetch` answers are
 * parameters, the requests sent and the alerts shown are logs. `Submit` says
 * what one submission does; `UploadForm.HandleSubmit` is proved to do it.
 */
module CourseUploadForm {
  import opened Wrappers
  import opened JsText

  /** A browser `File`, by name and size. */
  datatype FileRef = FileRef(name: string, size: nat)

  /** The component's state variables. */
  datatype Form = Form(title: string, description: string, file: Option<FileRef>,
                       error: string, loading: bool)

  const NoFileMessage := "Please upload a file by drag & drop or file selector"
  const NoTitleMessage := "Course title is required"
  const NoDescriptionMessage := "Course description is required"
  const NotLoggedInMessage := "You must be logged in to upload a course"
  const CreateFailedMessage := "Failed to create course"
  const UploadFailedMessage := "Failed to upload media"
  const SuccessAlert := "Course uploaded successfully!"

  /** The answer to a `fetch`: a response with its `ok` flag and the `message` and
      `_id` of its JSON body (absent or falsy is `None`), or a rejection with the
      error's message. */
  datatype Response =
    | Answered(ok: bool, message: Option<string>, id: Option<string>)
    | Rejected(reason: string)

  /** The two requests the form sends. The path of the upload names the created
      course's `_id`. */
  datatype Request =
    | CreateCourse(authorization: string, title: string, description: string)
    | UploadMedia(authorization: string, path: string, file: FileRef)

  /** `!token`: no saved token, or an empty one. */
  predicate TokenMissing(token: Option<string>)
  {
    token.None? || token.value == ""
  }

  /** `!s.trim()`: nothing is left after trimming (see `TrimEmptyIff`). */
  predicate Blank(s: string)
  {
    AllWhitespace(s)
  }

  /** The message of the first failing pre-submit check, in the order of the
      handler: file, title, description, token. */
  function Validate(form: Form, token: Option<string>): Option<string>
  {
    if form.file.None? then Some(NoFileMessage)
    else if Blank(form.title) then Some(NoTitleMessage)
    else if Blank(form.description) then Some(NoDescriptionMessage)
    else if TokenMissing(token) then Some(NotLoggedInMessage)
    else None
  }

  predicate Succeeded(r: Response)
  {
    r.Answered? && r.ok
  }

  /** The message a failed request leaves in `error`: the rejection's, or
      `data.message || fallback`. */
  function FailureMessage(r: Response, fallback: string): (msg: string)
  {
    match r
    case Rejected(reason) => reason
    case Answered(_, m, _) => if m.Some? && m.value != "" then m.value else fallback
  }

  function UploadPath(id: Option<string>): string
  {
    "/api/courses/" + Interpolate(id) + "/upload"
  }

  /** What one submission leaves behind. */
  datatype Submission = Submission(form: Form, sent: seq<Request>, alerted: bool)

  /** `handleSubmit`, given the saved token and the answers to the create and upload
      requests (an answer not asked for is ignored). */
  function Submit(form: Form, token: Option<string>, createRes: Response, uploadRes: Response): Submission
  {
    match Validate(form, token)
    case Some(msg) => Submission(form.(error := msg, loading := false), [], false)
    case None =>
      var auth := "Bearer " + token.value;
      var create := CreateCourse(auth, form.title, form.description);
      if !Succeeded(createRes) then
        Submission(form.(error := FailureMessage(createRes, CreateFailedMessage), loading := false), [create], false)
      else
        var upload := UploadMedia(auth, UploadPath(createRes.id), form.file.value);
        if !Succeeded(uploadRes) then
          Submission(form.(error := FailureMessage(uploadRes, UploadFailedMessage), loading := false),
                     [create, upload], false)
        else
          Submission(Form("", "", None, "", false), [create, upload], true)
  }

  /** The first failing check wins, each with its own message; a field is blank when
      trimming leaves nothing of it. */
  lemma ValidationOrder(form: Form, token: Option<string>)
    ensures form.file.None? ==> Validate(form, token) == Some(NoFileMessage)
    ensures form.file.Some? && Trim(form.title) == "" ==> Validate(form, token) == Some(NoTitleMessage)
    ensures form.file.Some? && Trim(form.title) != "" && Trim(form.description) == "" ==>
      Validate(form, token) == Some(NoDescriptionMessage)
    ensures form.file.Some? && Trim(form.title) != "" && Trim(form.description) != "" ==>
      Validate(form, token) == (if TokenMissing(token) then Some(NotLoggedInMessage) else None)
  {
    TrimEmptyIff(form.title);
    TrimEmptyIff(form.description);
  }

  /** A form that fails a check sends nothing, keeps its fields and shows that
      check's message. */
  lemma RejectedLocally(form: Form, token: Option<string>, createRes: Response, uploadRes: Response)
    requires Validate(form, token).Some?
    ensures Submit(form, token, createRes, uploadRes).sent == []
    ensures Submit(form, token, createRes, uploadRes).form ==
      form.(error := Validate(form, token).value, loading := false)
  {
  }

  /** `loading` is false after every way out of the handler. */
  lemma NeverLeftLoading(form: Form, token: Option<string>, createRes: Response, uploadRes: Response)
    ensures !Submit(form, token, createRes, uploadRes).form.loading
  {
  }

  /** The creation request goes first, carries the token and the untrimmed fields;
      the media upload is sent only after the creation succeeded, for the `_id` it
      returned. */
  lemma UploadFollowsCreate(form: Form, token: Option<string>, createRes: Response, uploadRes: Response)
    ensures var s := Submit(form, token, createRes, uploadRes);
      && |s.sent| <= 2
      && (|s.sent| > 0 <==> Validate(form, token).None?)
      && (|s.sent| > 0 ==> s.sent[0] == CreateCourse("Bearer " + token.value, form.title, form.description))
      && (|s.sent| == 2 <==> Validate(form, token).None? && Succeeded(createRes))
      && (|s.sent| == 2 ==> s.sent[1] == UploadMedia("Bearer " + token.value, UploadPath(createRes.id), form.file.value))
  {
  }

  /** Success clears the form and the error and alerts; a failed request keeps
      the fields and shows its message. */
  lemma SuccessResets(form: Form, token: Option<string>, createRes: Response, uploadRes: Response)
    ensures var s := Submit(form, token, createRes, uploadRes);
      s.alerted <==> Validate(form, token).None? && Succeeded(createRes) && Succeeded(uploadRes)
    ensures var s := Submit(form, token, createRes, uploadRes);
      s.alerted ==> s.form == Form("", "", None, "", false)
    ensures var s := Submit(form, token, createRes, uploadRes);
      Validate(form, token).None? && !s.alerted ==>
        && s.form.title == form.title && s.form.description == form.description && s.form.file == form.file
        && s.form.error == (if !Succeeded(createRes) then FailureMessage(createRes, CreateFailedMessage)
                            else FailureMessage(uploadRes, UploadFailedMessage))
  {
  }

  /** A failed submission always explains itself: its message is never empty when the
      server's is not (the defaults and the check messages are non-empty). */
  lemma FailureExplained(form: Form, token: Option<string>, createRes: Response, uploadRes: Response)
    requires createRes.Rejected? ==> createRes.reason != ""
    requires uploadRes.Rejected? ==> uploadRes.reason != ""
    ensures var s := Submit(form, token, createRes, uploadRes);
      s.alerted <==> s.form.error == ""
  {
  }

  /** The form as a React component: state variables plus the logs of the requests it
      sent and of the alerts it showed. */
  class UploadForm {
    var title: string
    var description: string
    var file: Option<FileRef>
    var error: string
    var loading: bool
    var sent: seq<Request>
    var alerts: seq<string>

    function State(): Form
      reads this
    {
      Form(title, description, file, error, loading)
    }

    constructor ()
      ensures State() == Form("", "", None, "", false)
      ensures sent == [] && alerts == []
    {
      title, description, file, error, loading := "", "", None, "", false;
      sent, alerts := [], [];
    }

    /** `handleDrop`: clears the error and takes the first dropped file, if any. */
    method HandleDrop(dropped: seq<FileRef>)
      modifies this
      ensures error == ""
      ensures file == if |dropped| > 0 then Some(dropped[0]) else old(file)
      ensures title == old(title) && description == old(description) && loading == old(loading)
      ensures sent == old(sent) && alerts == old(alerts)
    {
      error := "";
      if |dropped| > 0 {
        file := Some(dropped[0]);
      }
    }

    /** `handleFileSelect`: `e.target.files[0]`, which is `undefined` for an empty
        selection, so the file is cleared then (unlike a drop). */
    method HandleFileSelect(selected: seq<FileRef>)
      modifies this
      ensures file == if |selected| > 0 then Some(selected[0]) else None
      ensures title == old(title) && description == old(description)
      ensures error == old(error) && loading == old(loading)
      ensures sent == old(sent) && alerts == old(alerts)
    {
      file := if |selected| > 0 then Some(selected[0]) else None;
    }

    /** `handleSubmit`. */
    method HandleSubmit(token: Option<string>, createRes: Response, uploadRes: Response)
      modifies this
      ensures State() == Submit(old(State()), token, createRes, uploadRes).form
      ensures sent == old(sent) + Submit(old(State()), token, createRes, uploadRes).sent
      ensures alerts == old(alerts) + (if Submit(old(State()), token, createRes, uploadRes).alerted then [SuccessAlert] else [])
    {
      error := "";
      loading := true;
      if file.None? {
        error := NoFileMessage;
        loading := false;
        return;
      }
      if Blank(title) {
        error := NoTitleMessage;
        loading := false;
        return;
      }
      if Blank(description) {
        error := NoDescriptionMessage;
        loading := false;
        return;
      }
      if TokenMissing(token) {
        error := NotLoggedInMessage;
        loading := false;
        return;
      }
      var auth := "Bearer " + token.value;
      sent := sent + [CreateCourse(auth, title, description)];
      if !Succeeded(createRes) {
        error := FailureMessage(createRes, CreateFailedMessage);
        loading := false;
        return;
      }
      if file.Some? {
        sent := sent + [UploadMedia(auth, UploadPath(createRes.id), file.value)];
        if !Succeeded(uploadRes) {
          error := FailureMessage(uploadRes, UploadFailedMessage);
          loading := false;
          return;
        }
      }
      alerts := alerts + [SuccessAlert];
      title, description, file := "", "", None;
      loading := false;
    }
  }
}
