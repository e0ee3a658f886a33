/**
 * The API-token gate in front of the HTTP endpoints (ApiTokenAuthenticationFilter.java).
 * A request is either passed on down the filter chain, with or without the "api-user"
 * authentication set, or answered at once with a JSON error. Writing to the servlet response
 * and the security context become the `Outcome` value.
 */
module ApiTokenFilter {
  import opened Options
  import opened JavaStrings

  const TokenHeader := "API-TOKEN"
  const FallbackTokenHeader := "HTTP_API_TOKEN"

  const Unauthorized := 401
  const Forbidden := 403
  const MissingTokenMessage := "Must provide API token"
  const InvalidTokenMessage := "Invalid API token"

  /** The request as the filter sees it: its URI and its headers by name. */
  datatype Request = Request(uri: string, headers: map<string, string>)

  /**
   * What the filter does with a request: continue the chain (`authenticated` tells whether it
   * set the authentication first), or send an error status and message and stop.
   */
  datatype Outcome = Continue(authenticated: bool) | Reject(status: nat, message: string)

  /** The prefixes the filter as written treats as public. */
  const PublicEndpointsAsWritten: seq<string> :=
    ["/api/v1/address", "/api/actuator", "/api/swagger-ui", "/api/v3/api-docs"]

  /**
   * The public prefixes the security configuration declares: only the health check of the
   * address API, not the whole of it.
   */
  const PublicEndpoints: seq<string> :=
    ["/api/v1/address/health", "/api/actuator", "/api/swagger-ui", "/api/v3/api-docs"]

  /** A header value that counts as a token: present, and not blank after `trim`. */
  predicate Usable(token: Option<string>) {
    token.Some? && !IsBlank(token.value)
  }

  /** `anyMatch(path::startsWith)`: the path starts with some prefix of the list. */
  predicate AnyPrefix(prefixes: seq<string>, path: string) {
    exists i :: 0 <= i < |prefixes| && StartsWith(path, prefixes[i])
  }

  /** A prefix of a prefix is a prefix. */
  lemma StartsWithTransitive(s: string, p: string, q: string)
    requires StartsWith(s, p) && StartsWith(p, q)
    ensures StartsWith(s, q)
  {
    assert s[..|q|] == s[..|p|][..|q|];
  }

  /** The JSON body of an error: the message under "error" and the decimal status under "status". */
  function ErrorBody(status: nat, message: string): (r: map<string, string>)
    ensures r.Keys == {"error", "status"}
    ensures r["error"] == message && ParseNat(r["status"]) == status
  {
    ParseNatRoundTrip(status);
    map["error" := message, "status" := NatToString(status)]
  }

  /** The filter, configured with its set of valid tokens and the security switch. */
  datatype ApiTokenAuthenticationFilter = ApiTokenAuthenticationFilter(validTokens: set<string>,
                                                                       securityEnabled: bool)
  {
    /**
     * `extractToken`: the API-TOKEN header, or HTTP_API_TOKEN when the first is missing or
     * blank (even when the second is missing or blank too).
     */
    function ExtractToken(headers: map<string, string>): (r: Option<string>)
      ensures Usable(Get(headers, TokenHeader)) ==> r == Get(headers, TokenHeader)
      ensures !Usable(Get(headers, TokenHeader)) ==> r == Get(headers, FallbackTokenHeader)
      ensures Usable(r) <==> Usable(Get(headers, TokenHeader)) || Usable(Get(headers, FallbackTokenHeader))
    {
      var token := Get(headers, TokenHeader);
      if !Usable(token) then Get(headers, FallbackTokenHeader) else token
    }

    /**
     * `doFilterInternal`: with security off, authenticate and continue; otherwise a missing
     * token is 401, a token outside the valid set is 403, and a valid one authenticates and
     * continues.
     */
    function DoFilterInternal(request: Request): (r: Outcome)
      ensures !securityEnabled ==> r == Continue(true)
      ensures securityEnabled ==>
        (r == Reject(Unauthorized, MissingTokenMessage) <==>
           !Usable(Get(request.headers, TokenHeader)) && !Usable(Get(request.headers, FallbackTokenHeader)))
      ensures securityEnabled ==>
        (r == Reject(Forbidden, InvalidTokenMessage) <==>
           Usable(ExtractToken(request.headers)) && ExtractToken(request.headers).value !in validTokens)
      ensures r.Continue? <==> !securityEnabled || (Usable(ExtractToken(request.headers)) &&
                                                    ExtractToken(request.headers).value in validTokens)
      ensures r.Continue? ==> r.authenticated
      ensures r.Reject? ==> r == Reject(Unauthorized, MissingTokenMessage) || r == Reject(Forbidden, InvalidTokenMessage)
    {
      if !securityEnabled then Continue(true)
      else
        var token := ExtractToken(request.headers);
        if !Usable(token) then Reject(Unauthorized, MissingTokenMessage)
        else if token.value !in validTokens then Reject(Forbidden, InvalidTokenMessage)
        else Continue(true)
    }

    /**
     * `shouldNotFilter` as written: everything when security is off, otherwise any URI under
     * one of the filter's own public prefixes, "/api/v1/address" among them.
     */
    predicate ShouldNotFilterAsWritten(uri: string) {
      !securityEnabled || AnyPrefix(PublicEndpointsAsWritten, uri)
    }

    /** `shouldNotFilter` with the public prefixes the security configuration declares. */
    predicate ShouldNotFilter(uri: string) {
      !securityEnabled || AnyPrefix(PublicEndpoints, uri)
    }

    /**
     * The filter as the servlet container runs it: a skipped request continues without
     * authentication; any other goes through `doFilterInternal`.
     */
    function Dispatch(request: Request): (r: Outcome)
      ensures ShouldNotFilter(request.uri) ==> r == Continue(false)
      ensures !ShouldNotFilter(request.uri) ==> r == DoFilterInternal(request)
    {
      if ShouldNotFilter(request.uri) then Continue(false) else DoFilterInternal(request)
    }

    /** `Dispatch` with the filter's public prefixes as written. */
    function DispatchAsWritten(request: Request): (r: Outcome)
      ensures ShouldNotFilterAsWritten(request.uri) ==> r == Continue(false)
      ensures !ShouldNotFilterAsWritten(request.uri) ==> r == DoFilterInternal(request)
    {
      if ShouldNotFilterAsWritten(request.uri) then Continue(false) else DoFilterInternal(request)
    }
  }

  /** With security off nothing is filtered, and a filtered request would be let through anyway. */
  lemma SecurityOffLetsEverythingThrough(filter: ApiTokenAuthenticationFilter, request: Request)
    requires !filter.securityEnabled
    ensures filter.ShouldNotFilter(request.uri) && filter.ShouldNotFilterAsWritten(request.uri)
    ensures filter.DoFilterInternal(request) == Continue(true)
    ensures filter.Dispatch(request).Continue?
  {
  }

  /** API-TOKEN wins whenever it is usable: a valid HTTP_API_TOKEN cannot rescue an invalid one. */
  lemma FirstHeaderWins(filter: ApiTokenAuthenticationFilter, request: Request)
    requires filter.securityEnabled
    requires Usable(Get(request.headers, TokenHeader))
    requires Get(request.headers, TokenHeader).value !in filter.validTokens
    ensures filter.DoFilterInternal(request) == Reject(Forbidden, InvalidTokenMessage)
  {
  }

  /** A valid token in the fallback header is accepted when API-TOKEN is missing or blank. */
  lemma FallbackHeaderIsAccepted(filter: ApiTokenAuthenticationFilter, request: Request)
    requires filter.securityEnabled
    requires !Usable(Get(request.headers, TokenHeader))
    requires FallbackTokenHeader in request.headers
    requires request.headers[FallbackTokenHeader] in filter.validTokens
    requires !IsBlank(request.headers[FallbackTokenHeader])
    ensures filter.DoFilterInternal(request) == Continue(true)
  {
  }

  /** The declared public prefixes all lie inside the filter's own: the corrected gate is stricter. */
  lemma PublicEndpointsNarrowTheWrittenOnes(filter: ApiTokenAuthenticationFilter, uri: string)
    requires filter.ShouldNotFilter(uri)
    ensures filter.ShouldNotFilterAsWritten(uri)
  {
    if filter.securityEnabled {
      var i :| 0 <= i < |PublicEndpoints| && StartsWith(uri, PublicEndpoints[i]);
      if i == 0 {
        StartsWithTransitive(uri, PublicEndpoints[0], PublicEndpointsAsWritten[0]);
      } else {
        assert PublicEndpointsAsWritten[i] == PublicEndpoints[i];
      }
    }
  }

  const EligibilityCheckUri := "/api/v1/address/eligibility_check"

  /**
   * As written, the token is never looked at on the eligibility endpoint: with security on, a
   * request without any token and one with a valid token both pass the filter unauthenticated.
   */
  lemma EligibilityCheckBypassesTokenAsWritten(filter: ApiTokenAuthenticationFilter, headers: map<string, string>)
    requires filter.securityEnabled
    ensures filter.DispatchAsWritten(Request(EligibilityCheckUri, headers)) == Continue(false)
  {
    assert StartsWith(EligibilityCheckUri, PublicEndpointsAsWritten[0]);
  }

  /**
   * With the declared public prefixes the eligibility endpoint goes through the token check:
   * 401 without a token, 403 with a wrong one, authenticated with a valid one.
   */
  lemma EligibilityCheckRequiresToken(filter: ApiTokenAuthenticationFilter, headers: map<string, string>)
    requires filter.securityEnabled
    ensures filter.Dispatch(Request(EligibilityCheckUri, headers)) ==
            filter.DoFilterInternal(Request(EligibilityCheckUri, headers))
    ensures filter.Dispatch(Request(EligibilityCheckUri, headers)) == Continue(true) <==>
            Usable(filter.ExtractToken(headers)) && filter.ExtractToken(headers).value in filter.validTokens
  {
    forall i | 0 <= i < |PublicEndpoints|
      ensures !StartsWith(EligibilityCheckUri, PublicEndpoints[i])
    {
      if i == 0 {
        assert EligibilityCheckUri[16] != PublicEndpoints[0][16];
      } else {
        assert EligibilityCheckUri[6] != PublicEndpoints[i][6];
      }
    }
  }

  /** The health check, the actuator and the API documentation stay public with security on. */
  lemma DeclaredPublicPathsSkipTheFilter(filter: ApiTokenAuthenticationFilter)
    ensures filter.ShouldNotFilter("/api/v1/address/health")
    ensures filter.ShouldNotFilter("/api/actuator/health")
    ensures filter.ShouldNotFilter("/api/swagger-ui/index.html")
    ensures filter.ShouldNotFilter("/api/v3/api-docs/swagger-config")
  {
    assert StartsWith("/api/v1/address/health", PublicEndpoints[0]);
    assert StartsWith("/api/actuator/health", PublicEndpoints[1]);
    assert StartsWith("/api/swagger-ui/index.html", PublicEndpoints[2]);
    assert StartsWith("/api/v3/api-docs/swagger-config", PublicEndpoints[3]);
  }
}
