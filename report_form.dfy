/** The abuse-report form of `frontend/components/ReportForm.tsx`: the status
    machine idle → sending → sent or error, and the JSON body it posts. */
module ReportForm {
  import opened Common
  import Api
  import Report

  datatype Status = Idle | Sending | Sent | Error

  /** The JSON body; `email: null` is None. */
  datatype ReportBody = ReportBody(slug: string, reason: string, email: Option<string>)

  datatype ReportPost = ReportPost(url: string, body: ReportBody)

  /** A thrown `fetch`, or a response with its `ok` flag. */
  datatype ReportOutcome = Thrown | Responded(ok: bool)

  /** `{ slug, reason, email: email || null }`. */
  function BodyOf(slug: string, reason: string, email: string): (b: ReportBody)
    ensures b.slug == slug && b.reason == reason
    ensures b.email.None? <==> email == ""
    ensures b.email.Some? ==> b.email.value == email
  {
    ReportBody(slug, reason, if email == "" then None else Some(email))
  }

  /** A report left without an email passes the backend's email rule:
      it is validated as an absent email, never as an empty one. */
  lemma BlankEmailAccepted(slug: string, reason: string)
    requires Report.SlugMin <= |slug| <= Report.SlugMax && Report.ReasonMin <= |reason| <= Report.ReasonMax
    ensures var b := BodyOf(slug, reason, "");
      Report.ValidateReport(Report.RawReport(Some(b.slug), Some(b.reason), b.email))
      == Ok(Report.ReportCreate(slug, reason, None))
  {
    Report.EmailOptional(slug, reason);
  }

  class Form {
    var slug: string
    var reason: string
    var email: string
    var status: Status
    var sent: seq<ReportPost>

    constructor()
      ensures slug == "" && reason == "" && email == "" && status == Idle && sent == []
    {
      slug := "";
      reason := "";
      email := "";
      status := Idle;
      sent := [];
    }

    /** `submit` up to the `await fetch(...)`: the status is already
        'sending' when the request goes out. */
    method StartSubmit(env: Api.Env)
      modifies this
      ensures status == Sending
      ensures sent == old(sent) + [ReportPost(Api.PublicApiBaseUrl(env) + "/api/v1/reports",
                                              BodyOf(slug, reason, email))]
      ensures slug == old(slug) && reason == old(reason) && email == old(email)
    {
      status := Sending;
      var base := Api.EnvOr(env, Api.PublicVar, Api.DefaultBase);
      sent := sent + [ReportPost(base + "/api/v1/reports", ReportBody(slug, reason, if email == "" then None else Some(email)))];
    }

    /** The rest of `submit`: 'sent' exactly for an ok response. */
    method FinishSubmit(outcome: ReportOutcome)
      modifies this
      ensures status == Sent <==> outcome == Responded(true)
      ensures status == Sent || status == Error
      ensures slug == old(slug) && reason == old(reason) && email == old(email) && sent == old(sent)
    {
      if outcome.Responded? && outcome.ok {
        status := Sent;
      } else {
        status := Error;
      }
    }

    /** The button is disabled only while sending. */
    predicate ButtonDisabled()
      reads this
    {
      status == Sending
    }

    predicate SuccessShown()
      reads this
    {
      status == Sent
    }

    predicate ErrorShown()
      reads this
    {
      status == Error
    }
  }

  /** The two alerts never show together, and after either outcome the form
      can be submitted again. */
  lemma AlertsExclusive(f: Form)
    ensures !(f.SuccessShown() && f.ErrorShown())
    ensures f.SuccessShown() || f.ErrorShown() ==> !f.ButtonDisabled()
  {
  }
}
