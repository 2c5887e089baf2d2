/** Client address resolution and hashing of `backend/app/utils/ip.py`. */
module Ip {
  import opened Common

  /** The parts of a Starlette request the resolver reads. Header names are
      kept lower-case, as Starlette looks them up case-insensitively;
      `clientHost` is `request.client.host`, absent when there is no client. */
  datatype Request = Request(headers: map<string, string>, clientHost: Option<string>)

  const Unknown: string := "0.0.0.0"

  predicate HasForwarded(req: Request)
  {
    "x-forwarded-for" in req.headers && req.headers["x-forwarded-for"] != []
  }

  predicate HasClientHost(req: Request)
  {
    req.clientHost.Some? && req.clientHost.value != []
  }

  /** `_client_ip`: the first X-Forwarded-For entry, trimmed, when that header
      is non-empty; otherwise the connecting host when it is non-empty;
      otherwise "0.0.0.0". */
  function ClientIp(req: Request): (r: string)
    ensures HasForwarded(req) ==> r == Strip(FirstPiece(req.headers["x-forwarded-for"], ','))
    ensures !HasForwarded(req) && HasClientHost(req) ==> r == req.clientHost.value
    ensures !HasForwarded(req) && !HasClientHost(req) ==> r == Unknown
  {
    if HasForwarded(req) then Strip(FirstPiece(req.headers["x-forwarded-for"], ','))
    else if HasClientHost(req) then req.clientHost.value
    else Unknown
  }

  /** The forwarded address never carries a comma and never carries
      surrounding whitespace. */
  lemma ForwardedAddressIsOneEntry(req: Request)
    requires HasForwarded(req)
    ensures ',' !in ClientIp(req)
    ensures ClientIp(req) == [] || (!IsSpace(ClientIp(req)[0]) && !IsSpace(ClientIp(req)[|ClientIp(req)| - 1]))
  {
    var first := FirstPiece(req.headers["x-forwarded-for"], ',');
    var left := LStrip(first, IsSpace);
    assert forall i :: 0 <= i < |left| ==> left[i] == first[|first| - |left| + i];
    var r := RStrip(left, IsSpace);
    assert forall i :: 0 <= i < |r| ==> r[i] == left[i];
  }

  /** `client_ip_hash`: `hmac` stands for HMAC-SHA256 keyed with the secret,
      rendered as hex. */
  function ClientIpHash(req: Request, secret: string, hmac: (string, string) -> string): (r: string)
    ensures r == hmac(secret, ClientIp(req))
  {
    hmac(secret, ClientIp(req))
  }

  /** The hash depends on the request only through the resolved address. */
  lemma SameAddressSameHash(a: Request, b: Request, secret: string, hmac: (string, string) -> string)
    requires ClientIp(a) == ClientIp(b)
    ensures ClientIpHash(a, secret, hmac) == ClientIpHash(b, secret, hmac)
  {
  }

  /** CF-Connecting-IP plays no part: adding, changing or removing it leaves the
      resolved address as it was. */
  lemma CfConnectingIpIgnored(req: Request, v: string)
    ensures ClientIp(req.(headers := req.headers["cf-connecting-ip" := v])) == ClientIp(req)
    ensures ClientIp(req.(headers := req.headers - {"cf-connecting-ip"})) == ClientIp(req)
  {
    var added := req.headers["cf-connecting-ip" := v];
    var removed := req.headers - {"cf-connecting-ip"};
    assert "cf-connecting-ip" != "x-forwarded-for";
    assert ("x-forwarded-for" in added) == ("x-forwarded-for" in req.headers);
    assert ("x-forwarded-for" in removed) == ("x-forwarded-for" in req.headers);
  }
}
