/** The link of `frontend/components/DownloadButton.tsx`. */
module DownloadButton {
  import opened Common
  import Api
  import UriComponent
  import Slug

  /** `${base}/download/${encodeURIComponent(slug)}` with the public base. */
  function Href(env: Api.Env, slug: string): (r: string)
    ensures StartsWith(r, Api.PublicApiBaseUrl(env) + "/download/")
    ensures var prefix := Api.PublicApiBaseUrl(env) + "/download/";
      r[|prefix|..] == UriComponent.Encode(slug)
  {
    var prefix := Api.PublicApiBaseUrl(env) + "/download/";
    var r := prefix + UriComponent.Encode(slug);
    assert r[..|prefix|] == prefix;
    r
  }

  /** For one environment, distinct slugs give distinct links, and the slug
      part is a single path segment. */
  lemma HrefInjective(env: Api.Env, s1: string, s2: string)
    requires Href(env, s1) == Href(env, s2)
    ensures s1 == s2
  {
    var prefix := Api.PublicApiBaseUrl(env) + "/download/";
    assert UriComponent.Encode(s1) == Href(env, s1)[|prefix|..];
    UriComponent.EncodeInjective(s1, s2);
  }

  /** A slug the backend generates ([a-z0-9] only, or a `make_slug_base`
      result of [a-z0-9] and '-') appears in the link as it is. */
  lemma GeneratedSlugUnchanged(env: Api.Env, slug: string)
    requires Slug.SlugCharsOrDash(slug)
    ensures Href(env, slug) == Api.PublicApiBaseUrl(env) + "/download/" + slug
  {
    UriComponent.EncodeUnreserved(slug);
  }
}
