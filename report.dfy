/** The field constraints of `ReportCreate` in `backend/app/schemas/report.py`,
    as the validator pydantic runs on a report body. */
module Report {
  import opened Common

  /** A body as received: each field present with a string, or absent (for
      the e-mail, absent and null are the same). */
  datatype RawReport = RawReport(slug: Option<string>, reason: Option<string>, email: Option<string>)

  datatype ReportCreate = ReportCreate(slug: string, reason: string, email: Option<string>)

  datatype Field = SlugField | ReasonField | EmailField

  datatype Violation = Missing | TooShort(minLength: nat) | TooLong(maxLength: nat)

  datatype FieldError = FieldError(field: Field, violation: Violation)

  const SlugMin: nat := 1
  const SlugMax: nat := 255
  const ReasonMin: nat := 3
  const ReasonMax: nat := 2000
  const EmailMax: nat := 320

  /** The error for a required field bounded by `lo..hi`, if any. */
  function CheckRequired(f: Field, v: Option<string>, lo: nat, hi: nat): (r: seq<FieldError>)
    ensures r == [] <==> v.Some? && lo <= |v.value| <= hi
    ensures |r| <= 1 && forall e :: e in r ==> e.field == f
  {
    if v.None? then [FieldError(f, Missing)]
    else if |v.value| < lo then [FieldError(f, TooShort(lo))]
    else if |v.value| > hi then [FieldError(f, TooLong(hi))]
    else []
  }

  /** What is wrong with one field of the body, judged on that field alone. */
  function Violated(raw: RawReport, f: Field): Option<Violation>
  {
    match f
    case SlugField =>
      if raw.slug.None? then Some(Missing)
      else if |raw.slug.value| < SlugMin then Some(TooShort(SlugMin))
      else if |raw.slug.value| > SlugMax then Some(TooLong(SlugMax))
      else None
    case ReasonField =>
      if raw.reason.None? then Some(Missing)
      else if |raw.reason.value| < ReasonMin then Some(TooShort(ReasonMin))
      else if |raw.reason.value| > ReasonMax then Some(TooLong(ReasonMax))
      else None
    case EmailField =>
      if raw.email.Some? && |raw.email.value| > EmailMax then Some(TooLong(EmailMax)) else None
  }

  /** The position of a field in the model's declaration. */
  function Rank(f: Field): nat
  {
    match f
    case SlugField => 0
    case ReasonField => 1
    case EmailField => 2
  }

  /** Validation of a report body: every violated field is reported with its
      violation, and only those, once each in declaration order; otherwise
      the body is accepted as given. */
  function ValidateReport(raw: RawReport): (r: Result<ReportCreate, seq<FieldError>>)
    ensures r.Ok? <==>
              raw.slug.Some? && SlugMin <= |raw.slug.value| <= SlugMax
              && raw.reason.Some? && ReasonMin <= |raw.reason.value| <= ReasonMax
              && (raw.email.None? || |raw.email.value| <= EmailMax)
    ensures r.Ok? ==> r.value == ReportCreate(raw.slug.value, raw.reason.value, raw.email)
    ensures r.Err? ==> r.error != [] && |r.error| <= 3
    ensures r.Err? ==> forall e :: e in r.error ==> Violated(raw, e.field) == Some(e.violation)
    ensures r.Err? ==> forall f :: Violated(raw, f).Some? ==> FieldError(f, Violated(raw, f).value) in r.error
    ensures r.Err? ==> forall i, j :: 0 <= i < j < |r.error| ==> Rank(r.error[i].field) < Rank(r.error[j].field)
  {
    var errors := CheckRequired(SlugField, raw.slug, SlugMin, SlugMax)
                  + CheckRequired(ReasonField, raw.reason, ReasonMin, ReasonMax)
                  + (if raw.email.Some? && |raw.email.value| > EmailMax then [FieldError(EmailField, TooLong(EmailMax))] else []);
    if errors == [] then Ok(ReportCreate(raw.slug.value, raw.reason.value, raw.email))
    else Err(errors)
  }

  /** The e-mail is optional: leaving it out never causes an error, and it is
      then None. */
  lemma EmailOptional(slug: string, reason: string)
    requires SlugMin <= |slug| <= SlugMax && ReasonMin <= |reason| <= ReasonMax
    ensures ValidateReport(RawReport(Some(slug), Some(reason), None)) == Ok(ReportCreate(slug, reason, None))
  {
  }

  /** Each field is checked on its own: a bad e-mail is reported even when the
      slug and reason are also bad, after them. */
  lemma AllViolationsReported(raw: RawReport)
    requires raw.slug.None? && raw.reason.Some? && |raw.reason.value| < ReasonMin
    requires raw.email.Some? && |raw.email.value| > EmailMax
    ensures ValidateReport(raw) == Err([FieldError(SlugField, Missing), FieldError(ReasonField, TooShort(ReasonMin)),
                                        FieldError(EmailField, TooLong(EmailMax))])
  {
    assert CheckRequired(SlugField, raw.slug, SlugMin, SlugMax) == [FieldError(SlugField, Missing)];
    assert CheckRequired(ReasonField, raw.reason, ReasonMin, ReasonMax) == [FieldError(ReasonField, TooShort(ReasonMin))];
    var errors := [FieldError(SlugField, Missing)] + [FieldError(ReasonField, TooShort(ReasonMin))]
                  + [FieldError(EmailField, TooLong(EmailMax))];
    assert errors == [FieldError(SlugField, Missing), FieldError(ReasonField, TooShort(ReasonMin)),
                      FieldError(EmailField, TooLong(EmailMax))];
  }
}
