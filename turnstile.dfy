/** Captcha checking of `backend/app/utils/turnstile.py`: which address is sent
    to Cloudflare, and the verdict on a Turnstile token given the settings and
    the siteverify response. The HTTP call itself is an input. */
module Turnstile {
  import opened Common
  import Ip

  /** Python truthiness of an optional header or setting string. */
  predicate Truthy(v: Option<string>) { v.Some? && v.value != [] }

  function Get(headers: map<string, string>, name: string): Option<string>
  {
    if name in headers then Some(headers[name]) else None
  }

  /** Python's `a or b` on two optional strings. */
  function Or(a: Option<string>, b: Option<string>): (r: Option<string>)
    ensures Truthy(a) ==> r == a
    ensures !Truthy(a) ==> r == b
    ensures Truthy(r) <==> Truthy(a) || Truthy(b)
  {
    if Truthy(a) then a else b
  }

  function CfHeader(headers: map<string, string>): Option<string>
  {
    Or(Get(headers, "cf-connecting-ip"), Get(headers, "CF-Connecting-IP"))
  }

  function XffHeader(headers: map<string, string>): Option<string>
  {
    Or(Get(headers, "x-forwarded-for"), Get(headers, "X-Forwarded-For"))
  }

  /** `get_request_ip`: a CF-Connecting-IP header under either spelling wins,
      trimmed; otherwise the first X-Forwarded-For entry, trimmed; otherwise the
      fallback as given. */
  function GetRequestIp(headers: map<string, string>, fallback: Option<string>): (r: Option<string>)
    ensures Truthy(CfHeader(headers)) ==> r == Some(Strip(CfHeader(headers).value))
    ensures !Truthy(CfHeader(headers)) && Truthy(XffHeader(headers)) ==>
              r == Some(Strip(FirstPiece(XffHeader(headers).value, ',')))
    ensures !Truthy(CfHeader(headers)) && !Truthy(XffHeader(headers)) ==> r == fallback
  {
    var cf := CfHeader(headers);
    if Truthy(cf) then Some(Strip(cf.value))
    else
      var xff := XffHeader(headers);
      if Truthy(xff) then Some(Strip(FirstPiece(xff.value, ',')))
      else fallback
  }

  /** The two resolvers agree on a request without a CF-Connecting-IP header
      whose connecting host is known. */
  lemma ResolversAgreeWithoutCf(req: Ip.Request)
    requires "cf-connecting-ip" !in req.headers && "CF-Connecting-IP" !in req.headers
    requires "X-Forwarded-For" !in req.headers
    requires Ip.HasClientHost(req)
    ensures GetRequestIp(req.headers, req.clientHost) == Some(Ip.ClientIp(req))
    ensures "x-forwarded-for" !in req.headers ==> GetRequestIp(req.headers, req.clientHost) == req.clientHost
  {
  }

  /** The two resolvers disagree once Cloudflare adds its header: the captcha
      check sends the Cloudflare address, the upload quota hashes the
      connecting host. */
  lemma ResolversDivergeOnCf(host: string, cf: string)
    requires host != [] && cf != [] && !IsSpace(cf[0]) && !IsSpace(cf[|cf| - 1]) && cf != host
    ensures var req := Ip.Request(map["cf-connecting-ip" := cf], Some(host));
      GetRequestIp(req.headers, req.clientHost) == Some(cf)
      && Ip.ClientIp(req) == host
  {
    var headers := map["cf-connecting-ip" := cf];
    assert Get(headers, "cf-connecting-ip") == Some(cf);
    assert LStrip(cf, IsSpace) == cf;
    assert RStrip(cf, IsSpace) == cf;
    assert "x-forwarded-for" !in headers;
  }

  // ---------------------------------------------------------------- verdict

  /** The Turnstile settings `verify_turnstile` reads. */
  datatype TurnstileSettings = TurnstileSettings(
    enabled: bool,
    secretKey: Option<string>,
    expectedHostname: Option<string>)

  /** A JSON value as the verdict sees it: a string, or anything else with its
      Python truthiness and its `str()` rendering. */
  datatype JsonValue = JString(s: string) | JOther(truthy: bool, text: string)

  /** The decoded body: an object, or some other JSON value with its truthiness
      and the name of its Python type. */
  datatype JsonBody = Object(fields: map<string, JsonValue>) | NotObject(truthy: bool, typeName: string)

  datatype Body = Decoded(json: JsonBody) | Malformed(decodeError: string)

  /** The outcome of the POST to siteverify: a transport failure, or a
      response with its content type and body. */
  datatype HttpOutcome = TransportError(message: string) | Response(contentType: Option<string>, body: Body)

  /** The form sent to siteverify. */
  datatype Payload = Payload(secret: string, response: string, remoteIp: Option<string>)

  /** Passed; a `ValueError` (which the report route turns into 400); or any
      other exception, which escapes. */
  datatype Verdict = Passed | Invalid(message: string) | Crashed(message: string)

  const SecretMissing: string := "Turnstile is enabled but TURNSTILE_SECRET_KEY is not set"
  const MissingToken: string := "Missing captcha token"
  const VerificationFailed: string := "Captcha verification failed"
  const HostnameMismatch: string := "Captcha hostname mismatch"

  predicate JsonTruthy(v: JsonValue)
  {
    match v
    case JString(s) => s != []
    case JOther(t, _) => t
  }

  /** `str(data.get(key) or "")`. */
  function TextOf(fields: map<string, JsonValue>, key: string): string
  {
    if key in fields && JsonTruthy(fields[key]) then
      match fields[key]
      case JString(s) => s
      case JOther(_, text) => text
    else ""
  }

  /** The response counts as a successful verification: a JSON object whose
      "success" member is truthy. */
  predicate Confirmed(res: HttpOutcome)
  {
    res.Response? && res.contentType.Some? && StartsWith(res.contentType.value, "application/json")
    && res.body.Decoded? && res.body.json.Object?
    && "success" in res.body.json.fields && JsonTruthy(res.body.json.fields["success"])
  }

  /** The configured hostname, trimmed and lower-cased; empty when none. */
  function Expected(cfg: TurnstileSettings): string
  {
    Lower(Strip(if cfg.expectedHostname.Some? then cfg.expectedHostname.value else ""))
  }

  /** The hostname Cloudflare reports, trimmed and lower-cased; empty when none. */
  function ReturnedHostname(res: HttpOutcome): string
    requires Confirmed(res)
  {
    Lower(Strip(TextOf(res.body.json.fields, "hostname")))
  }

  predicate HostnameAccepted(cfg: TurnstileSettings, res: HttpOutcome)
    requires Confirmed(res)
  {
    Expected(cfg) == [] || ReturnedHostname(res) == [] || ReturnedHostname(res) == Expected(cfg)
  }

  predicate TokenPresent(token: string) { token != [] && Strip(token) != [] }

  /** `verify_turnstile`: the verdict, and the form posted to siteverify when
      the call is made at all. */
  function VerifyTurnstile(cfg: TurnstileSettings, token: string, requestIp: Option<string>,
                           requestHostname: Option<string>, res: HttpOutcome): (r: (Verdict, Option<Payload>))
    ensures r.0 == Passed <==>
              !cfg.enabled || (Truthy(cfg.secretKey) && TokenPresent(token) && Confirmed(res) && HostnameAccepted(cfg, res))
    ensures cfg.enabled && !Truthy(cfg.secretKey) ==> r == (Invalid(SecretMissing), None)
    ensures cfg.enabled && Truthy(cfg.secretKey) && !TokenPresent(token) ==> r == (Invalid(MissingToken), None)
    ensures r.1.Some? <==> cfg.enabled && Truthy(cfg.secretKey) && TokenPresent(token)
    ensures r.1.Some? ==> r.1.value.response == Strip(token) && r.1.value.secret == cfg.secretKey.value
                          && (r.1.value.remoteIp.Some? <==> Truthy(requestIp))
                          && (Truthy(requestIp) ==> r.1.value.remoteIp == requestIp)
    ensures r.0.Crashed? ==> res.TransportError? || (res.Response? && res.body.Decoded? && res.body.json.NotObject?)
  {
    if !cfg.enabled then (Passed, None)
    else if !Truthy(cfg.secretKey) then (Invalid(SecretMissing), None)
    else if !TokenPresent(token) then (Invalid(MissingToken), None)
    else
      var payload := Payload(cfg.secretKey.value, Strip(token), if Truthy(requestIp) then requestIp else None);
      (Decide(cfg, res), Some(payload))
  }

  /** What follows the POST: decoding, the success test and the hostname test. */
  function Decide(cfg: TurnstileSettings, res: HttpOutcome): (v: Verdict)
    ensures v == Passed <==> Confirmed(res) && HostnameAccepted(cfg, res)
    ensures v.Crashed? ==> res.TransportError? || (res.Response? && res.body.Decoded? && res.body.json.NotObject?)
  {
    match res
    case TransportError(m) => Crashed(m)
    case Response(ct, body) =>
      if !(ct.Some? && StartsWith(ct.value, "application/json")) then Invalid(VerificationFailed)
      else match body
        case Malformed(e) => Invalid(e)
        case Decoded(NotObject(truthy, typeName)) =>
          if !truthy then Invalid(VerificationFailed)
          else Crashed("'" + typeName + "' object has no attribute 'get'")
        case Decoded(Object(fields)) =>
          if fields == map[] || !("success" in fields && JsonTruthy(fields["success"])) then Invalid(VerificationFailed)
          else if !HostnameAccepted(cfg, res) then Invalid(HostnameMismatch)
          else Passed
  }

  /** With Turnstile off any token passes, the empty one included, and nothing
      is sent. */
  lemma DisabledAcceptsAnything(cfg: TurnstileSettings, token: string, ip: Option<string>,
                                host: Option<string>, res: HttpOutcome)
    requires !cfg.enabled
    ensures VerifyTurnstile(cfg, token, ip, host, res) == (Passed, None)
  {
  }

  /** The soft check against the request's own hostname never changes the
      verdict. */
  lemma SoftHostnameCheckNeverRejects(cfg: TurnstileSettings, token: string, ip: Option<string>,
                                      h1: Option<string>, h2: Option<string>, res: HttpOutcome)
    ensures VerifyTurnstile(cfg, token, ip, h1, res) == VerifyTurnstile(cfg, token, ip, h2, res)
  {
  }

  /** A response that is not labelled JSON fails verification whatever it says. */
  lemma NonJsonResponseFails(cfg: TurnstileSettings, token: string, ip: Option<string>,
                             host: Option<string>, body: Body)
    requires cfg.enabled && Truthy(cfg.secretKey) && TokenPresent(token)
    ensures VerifyTurnstile(cfg, token, ip, host, Response(None, body)).0 == Invalid(VerificationFailed)
  {
  }

  /** With a hostname configured, a different reported hostname is a mismatch,
      and an empty one passes. */
  lemma HostnameRule(cfg: TurnstileSettings, token: string, ip: Option<string>,
                     host: Option<string>, res: HttpOutcome)
    requires cfg.enabled && Truthy(cfg.secretKey) && TokenPresent(token) && Confirmed(res)
    requires Expected(cfg) != []
    ensures ReturnedHostname(res) == [] ==> VerifyTurnstile(cfg, token, ip, host, res).0 == Passed
    ensures ReturnedHostname(res) != [] && ReturnedHostname(res) != Expected(cfg) ==>
              VerifyTurnstile(cfg, token, ip, host, res).0 == Invalid(HostnameMismatch)
  {
  }
}
