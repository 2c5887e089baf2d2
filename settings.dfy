/** The CORS configuration of `backend/app/config/settings.py`: how the
    `BACKEND_CORS_ORIGINS` string becomes a list of origins, the production
    safety step that adds the site's own origin, and the optional origin regex. */
module Settings {
  import opened Common

  /** What `json.loads` makes of the setting: not JSON at all, JSON that is not
      a list of strings, or a list of strings. */
  datatype JsonParse = Invalid | NotStringList | StringList(items: seq<string>)

  /** The fields of `Settings` the CORS rules read. */
  datatype CorsSettings = CorsSettings(
    domain: string,
    backendEnv: string,
    corsOrigins: string,
    corsOriginRegex: Option<string>)

  const DefaultOrigin: string := "http://localhost:3000"

  /** The comma-separated reading of the setting. */
  function CommaOrigins(s: string): seq<string>
  {
    KeepNonBlank(Split(s, ','))
  }

  /** `origins` as `cors_origins_list` has it before the production step. */
  function ParsedOrigins(raw: string, parse: string -> JsonParse): (r: seq<string>)
  {
    var s := Strip(raw);
    if s == [] then [DefaultOrigin]
    else if StartsWith(s, "[") then
      var fromJson := if parse(s).StringList? then parse(s).items else [];
      if fromJson != [] then fromJson else CommaOrigins(s)
    else CommaOrigins(s)
  }

  predicate IsProd(cfg: CorsSettings)
  {
    Lower(cfg.backendEnv) == "prod"
  }

  /** The site's own origin: the stripped domain, given an "https://" scheme
      unless it already names "http://" or "https://"; none for a blank domain. */
  function ProdOrigin(domain: string): (r: Option<string>)
    ensures r.None? <==> Strip(domain) == []
    ensures r.Some? ==> StartsWith(r.value, "http://") || StartsWith(r.value, "https://")
    ensures r.Some? ==> EndsWith(r.value, Strip(domain))
    ensures r.Some? && (StartsWith(Strip(domain), "http://") || StartsWith(Strip(domain), "https://")) ==>
              r.value == Strip(domain)
    ensures r.Some? && !StartsWith(Strip(domain), "http://") && !StartsWith(Strip(domain), "https://") ==>
              r.value == "https://" + Strip(domain)
  {
    var d := Strip(domain);
    if d == [] then None
    else if StartsWith(d, "http://") || StartsWith(d, "https://") then Some(d)
    else
      var p := "https://" + d;
      assert p[..8] == "https://";
      assert p[|p| - |d|..] == d;
      Some(p)
  }

  /** `Settings.cors_origins_list`. */
  method CorsOriginsList(cfg: CorsSettings, parse: string -> JsonParse) returns (origins: seq<string>)
    ensures var parsed := ParsedOrigins(cfg.corsOrigins, parse);
      (!IsProd(cfg) || ProdOrigin(cfg.domain).None? ==> origins == parsed)
      && (IsProd(cfg) && ProdOrigin(cfg.domain).Some? ==>
            var p := ProdOrigin(cfg.domain).value;
            p in origins
            && (p in parsed ==> origins == parsed)
            && (p !in parsed ==> origins == parsed + [p]))
  {
    origins := ParsedOrigins(cfg.corsOrigins, parse);
    if Lower(cfg.backendEnv) == "prod" {
      var domain := Strip(cfg.domain);
      if domain != [] {
        var prodOrigin: string;
        if StartsWith(domain, "http://") || StartsWith(domain, "https://") {
          prodOrigin := domain;
        } else {
          prodOrigin := "https://" + domain;
        }
        if prodOrigin !in origins {
          origins := origins + [prodOrigin];
        }
      }
    }
  }

  /** `Settings.cors_origin_regex_value`. */
  function CorsOriginRegexValue(v: Option<string>): (r: Option<string>)
    ensures r.None? <==> v.None? || Strip(v.value) == []
    ensures r.Some? ==> r.value != [] && r.value == Strip(v.value)
  {
    if v.None? then None
    else
      var s := Strip(v.value);
      if s == [] then None else Some(s)
  }

  /** Reading the regex back through the setting gives the same value. */
  lemma CorsOriginRegexValueIdempotent(v: Option<string>)
    ensures CorsOriginRegexValue(CorsOriginRegexValue(v)) == CorsOriginRegexValue(v)
  {
    if v.Some? {
      StripIdempotent(v.value);
    }
  }

  /** A blank setting allows exactly the local development origin. */
  lemma BlankOriginsDefault(raw: string, parse: string -> JsonParse)
    requires forall i :: 0 <= i < |raw| ==> IsSpace(raw[i])
    ensures ParsedOrigins(raw, parse) == [DefaultOrigin]
  {
    assert LStrip(raw, IsSpace) == [];
  }

  /** A JSON list of strings that is not empty is used as-is, blank or
      repeated entries included. */
  lemma JsonListUsedAsIs(raw: string, parse: string -> JsonParse)
    requires StartsWith(Strip(raw), "[")
    requires parse(Strip(raw)).StringList? && parse(Strip(raw)).items != []
    ensures ParsedOrigins(raw, parse) == parse(Strip(raw)).items
  {
  }

  /** A setting that looks like a JSON list but parses to no origins falls back
      to the comma reading; without a comma that is the whole stripped text. */
  lemma {:induction false} UnlistedJsonFallsBack(s: string, parse: string -> JsonParse)
    requires s != [] && Strip(s) == s && ',' !in s && StartsWith(s, "[")
    requires parse(s).StringList? ==> parse(s).items == []
    ensures ParsedOrigins(s, parse) == [s]
  {
    assert Split(s, ',') == [s];
    assert [s][1..] == [];
    assert KeepNonBlank([s]) == [s];
  }

  /** Every comma-split origin is non-blank and carries no surrounding
      whitespace, and every non-blank piece of the setting is among them.
      The list is the pieces' `KeepNonBlank`, which `KeepNonBlankAppend` and
      `KeepNonBlankSingle` show keeps their order and their repeats. */
  lemma CommaOriginsTrimmed(raw: string, parse: string -> JsonParse)
    requires Strip(raw) != [] && !StartsWith(Strip(raw), "[")
    ensures ParsedOrigins(raw, parse) == KeepNonBlank(Split(Strip(raw), ','))
    ensures var r := ParsedOrigins(raw, parse);
      (forall i :: 0 <= i < |r| ==> r[i] != [] && Strip(r[i]) == r[i])
      && (forall piece :: piece in Split(Strip(raw), ',') && Strip(piece) != [] ==> Strip(piece) in r)
      && (forall e :: e in r ==> exists piece :: piece in Split(Strip(raw), ',') && e == Strip(piece))
  {
    KeepNonBlankComplete(Split(Strip(raw), ','));
    KeepNonBlankSound(Split(Strip(raw), ','));
  }
}
