/** The upload form of `frontend/app/upload/page.tsx`: the advisory file hint
    and the submit workflow. The submit handler is split at its `await`: the
    part that runs before the request goes out, and the part that runs when
    the outcome is known. */
module UploadPage {
  import opened Common
  import Api
  import UriComponent
  import Files

  datatype ChosenFile = ChosenFile(name: string, content: seq<Byte>)

  const NotZipHint: string := "Only .zip is accepted."
  const NoFileChosen: string := "Please choose a file."

  /** `fileHint`. */
  function FileHint(file: Option<ChosenFile>): (r: Option<string>)
    ensures r.None? <==> file.None? || EndsWith(Lower(file.value.name), ".zip")
    ensures r.Some? ==> r.value == NotZipHint
  {
    if file.None? then None
    else if EndsWith(Lower(file.value.name), ".zip") then None
    else Some(NotZipHint)
  }

  /** A file named just ".zip" passes the page's check but not the backend's
      `allowed_extension`. */
  lemma HintAcceptsWhatBackendRejects(content: seq<Byte>)
    ensures FileHint(Some(ChosenFile(".zip", content))).None?
    ensures !Files.AllowedExtension(".zip")
  {
    assert Lower(".zip") == ".zip";
    Files.DotZipAloneRejected();
  }

  datatype FormField = FileField(name: string, file: ChosenFile) | TextField(name: string, value: string)

  /** The multipart body: the file, then the trimmed captcha token when it is
      not blank. */
  function UploadFields(file: ChosenFile, captchaToken: string): (r: seq<FormField>)
    ensures |r| >= 1 && r[0] == FileField("upload", file)
    ensures |r| == 2 <==> Strip(captchaToken) != ""
    ensures |r| == 2 ==> r[1] == TextField("captcha_token", Strip(captchaToken))
  {
    [FileField("upload", file)]
    + (if Strip(captchaToken) != "" then [TextField("captcha_token", Strip(captchaToken))] else [])
  }

  datatype Post = Post(url: string, fields: seq<FormField>)

  /** What the request comes to: a rejected `fetch`, or a response with its
      status, its body text (None when reading it fails) and its JSON `slug`
      (Err with the parse error's message when the body is not JSON). */
  datatype FetchOutcome =
    | NetworkError(message: string)
    | Response(ok: bool, status: nat, text: Option<string>, json: Result<string, string>)

  /** The message shown for a failed upload, None when it succeeded. */
  function SubmitError(outcome: FetchOutcome): (r: Option<string>)
    ensures outcome.Response? && !outcome.ok ==> r.Some? && r.value != ""
    ensures outcome.Response? && !outcome.ok && outcome.text.Some? && outcome.text.value != "" ==>
              r == Some(outcome.text.value)
    ensures r.None? <==> outcome.Response? && outcome.ok && outcome.json.Ok?
    ensures outcome.NetworkError? ==> r == Some(outcome.message)
    ensures outcome.Response? && outcome.ok && outcome.json.Err? ==> r == Some(outcome.json.error)
  {
    match outcome
    case NetworkError(message) => Some(message)
    case Response(ok, status, text, json) =>
      if !ok then
        var body := if text.Some? then text.value else "";
        Some(if body != "" then body else "Upload failed (" + NatToString(status) + ")")
      else if json.Err? then Some(json.error)
      else None
  }

  /** A non-ok response with an empty or unreadable body names its status. */
  lemma EmptyBodyNamesStatus(status: nat, text: Option<string>, json: Result<string, string>)
    requires text.None? || text == Some("")
    ensures SubmitError(Response(false, status, text, json)) == Some("Upload failed (" + NatToString(status) + ")")
  {
  }

  /** The page state: the chosen file, the captcha field, `submitting`,
      `error`, the requests sent and the location navigated to. */
  class Form {
    var file: Option<ChosenFile>
    var captchaToken: string
    var submitting: bool
    var error: Option<string>
    var sent: seq<Post>
    var location: Option<string>

    constructor()
      ensures file == None && captchaToken == "" && !submitting && error == None
      ensures sent == [] && location == None
    {
      file := None;
      captchaToken := "";
      submitting := false;
      error := None;
      sent := [];
      location := None;
    }

    /** The submit button is disabled while a submission is in flight. */
    predicate SubmitDisabled()
      reads this
    {
      submitting
    }

    method ChooseFile(f: Option<ChosenFile>)
      modifies this
      ensures file == f
      ensures captchaToken == old(captchaToken) && submitting == old(submitting) && error == old(error)
      ensures sent == old(sent) && location == old(location)
    {
      file := f;
    }

    /** The handler up to the `await fetch(...)`. It returns whether a
        request went out. The hint plays no part: a non-.zip file is sent. */
    method StartSubmit(env: Api.Env) returns (started: bool)
      modifies this
      ensures file == old(file) && captchaToken == old(captchaToken) && location == old(location)
      ensures started <==> file.Some?
      ensures !started ==> error == Some(NoFileChosen) && submitting == old(submitting) && sent == old(sent)
      ensures started ==> error == None && submitting
                          && sent == old(sent) + [Post(Api.PublicApiBaseUrl(env) + "/api/v1/uploads",
                                                       UploadFields(file.value, captchaToken))]
    {
      error := None;
      if file.None? {
        error := Some(NoFileChosen);
        return false;
      }
      submitting := true;
      var fields := [FileField("upload", file.value)];
      var token := Strip(captchaToken);
      if token != "" {
        fields := fields + [TextField("captcha_token", token)];
      }
      assert fields == UploadFields(file.value, captchaToken);
      sent := sent + [Post(Api.PublicApiBaseUrl(env) + "/api/v1/uploads", fields)];
      return true;
    }

    /** The rest of the handler, once the outcome is known: navigate to the
        landing page or show the error; `submitting` is cleared either way. */
    method FinishSubmit(outcome: FetchOutcome)
      modifies this
      ensures !submitting
      ensures SubmitError(outcome).Some? ==> error == SubmitError(outcome) && location == old(location)
      ensures SubmitError(outcome).None? ==>
                error == old(error) && location == Some("/files/" + UriComponent.Encode(outcome.json.value))
      ensures file == old(file) && captchaToken == old(captchaToken) && sent == old(sent)
    {
      match outcome {
        case NetworkError(message) =>
          error := Some(message);
        case Response(ok, status, text, json) =>
          if !ok {
            var body := if text.Some? then text.value else "";
            error := Some(if body != "" then body else "Upload failed (" + NatToString(status) + ")");
          } else if json.Err? {
            error := Some(json.error);
          } else {
            location := Some("/files/" + UriComponent.Encode(json.value));
          }
      }
      submitting := false;
    }

    /** The whole handler: the error is the missing-file message, the
        failure's message, or none; once a request went out, `submitting`
        ends false. */
    method Submit(env: Api.Env, outcome: FetchOutcome)
      modifies this
      ensures old(file).None? ==> error == Some(NoFileChosen) && sent == old(sent) && location == old(location)
                                  && submitting == old(submitting)
      ensures old(file).Some? ==> !submitting
      ensures old(file).Some? ==> error == SubmitError(outcome) && |sent| == |old(sent)| + 1
      ensures old(file).Some? ==>
                sent == old(sent) + [Post(Api.PublicApiBaseUrl(env) + "/api/v1/uploads",
                                          UploadFields(old(file).value, old(captchaToken)))]
      ensures old(file).Some? && error.None? ==>
                location == Some("/files/" + UriComponent.Encode(outcome.json.value))
      ensures error.Some? ==> location == old(location)
      ensures file == old(file) && captchaToken == old(captchaToken)
    {
      var started := StartSubmit(env);
      if started {
        FinishSubmit(outcome);
      }
    }
  }
}
