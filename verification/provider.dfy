/** The client side of the OAuth 2.0 authorization-code grant (RFC 6749
    section 4.1) as the Reddit-specific access-token provider performs it:
    the three-way dispatch of `obtainAccessToken`, the authorization request
    (RFC 6749 section 4.1.1) with the provider's extra `duration` parameter and
    comma-separated scopes, and the access-token request (RFC 6749 section
    4.1.3) with its CSRF check. Exceptions become variants of `Outcome` and
    `ProviderError`; collaborators the provider calls but does not define are
    parameters. */
module RedditProvider {
  import opened Wrappers
  import opened TreeMaps
  import Scopes

  /** The request's preserved state, a Java `Object`: `null`, a `String`, or
      some other object (told apart only by an identity). */
  datatype PreservedState = NoState | Text(text: string) | Opaque(id: nat)

  /** The per-attempt `AccessTokenRequest`. `currentUri` is the URI of the
      request being served, which the resource may use to resolve its
      redirect URI. */
  datatype TokenRequest = TokenRequest(
    authorizationCode: Option<string>,
    stateKey: Option<string>,
    preservedState: PreservedState,
    currentUri: Option<string>)

  /** The authorization-code resource details. `redirectUriFor` stands for the
      library's `getRedirectUri(request)`, whose definition is not part of this
      model. */
  datatype Resource = Resource(
    clientId: string,
    userAuthorizationUri: string,
    scoped: bool,
    scope: Option<seq<string>>,
    redirectUriFor: TokenRequest -> Option<string>)

  /** The payload of `UserRedirectRequiredException`: where to send the user,
      the sorted query parameters, the state key (`None` until one is set on
      the exception) and the state to preserve. */
  datatype RedirectInstruction = RedirectInstruction(
    authorizationUri: string,
    parameters: seq<Entry>,
    stateKey: Option<string>,
    stateToPreserve: Option<string>)

  datatype AccessToken = AccessToken(value: string)

  /** The exceptions `obtainAccessToken` may propagate besides the redirect. */
  datatype ProviderError =
    | InvalidRequest(message: string)
    | ApprovalRequired
    | AccessDenied
    | ProviderAccessDenied
    | NullPointer

  /** What one call of `obtainAccessToken` ends in. A redirect is not an error:
      it carries the instruction and the request as the builder left it. */
  datatype Outcome =
    | RedirectRequired(instruction: RedirectInstruction, request: TokenRequest)
    | Obtained(token: AccessToken)
    | Failed(failure: ProviderError)

  /** The form body of the token request. A value is `None` where the Java
      form holds `null` (an absent authorization code). */
  type TokenForm = map<string, Option<string>>

  /** How the base class's `obtainAuthorizationCode` can end without
      returning: by sending the user to the provider (a
      `UserRedirectRequiredException` with the request as it was left), or by
      raising one of the other declared exceptions. */
  datatype Interruption =
    | UserRedirect(instruction: RedirectInstruction, request: TokenRequest)
    | Raised(failure: ProviderError)

  /** The base class's `obtainAuthorizationCode`. It works on the mutable
      request, so it yields the request as it leaves it: any of the code, the
      state key and the preserved state may have been rewritten. */
  type CodeStep = TokenRequest -> Result<TokenRequest, Interruption>

  /** The base class's `retrieveToken`: the HTTP exchange at the token
      endpoint. It may return a null token (`None`), as for an empty response
      body. */
  type Exchange = (TokenRequest, TokenForm, map<string, string>) -> Result<Option<AccessToken>, ProviderError>

  const UserAgent: string := "web:oauthtest:v0.0.1 (by /u/PigExterminator)"

  /** Sentinel redirect URI meaning "send no redirect_uri". */
  const NoRedirect: string := "NONE"

  const CsrfMessage: string :=
    "Possible CSRF detected - state parameter was present but no state could be found"

  /** Headers this provider builds for the token request: only the
      provider-mandated User-Agent, and no client credentials among them.
      What the exchange step adds on its own is not part of this model. */
  function TokenHeaders(): (headers: map<string, string>)
    ensures headers.Keys == {"User-Agent"}
    ensures headers["User-Agent"] == UserAgent
    ensures "Authorization" !in headers
  {
    map["User-Agent" := UserAgent]
  }

  /** The form parameters of the token request, or the CSRF rejection when a
      state key is present but no state was preserved for it. */
  function TokenParameters(resource: Resource, request: TokenRequest): (r: Result<TokenForm, ProviderError>)
    ensures r.Failure? <==> request.stateKey.Some? && request.preservedState.NoState?
    ensures r.Failure? ==> r.error == InvalidRequest(CsrfMessage)
    ensures r.Success? ==>
      && "grant_type" in r.value && "code" in r.value
      && r.value.Keys <= {"grant_type", "code", "redirect_uri"}
      && r.value["grant_type"] == Some("authorization_code")
      && r.value["code"] == request.authorizationCode
    ensures r.Success? && request.preservedState.Text? ==>
      && ("redirect_uri" in r.value <==> request.preservedState.text != NoRedirect)
      && ("redirect_uri" in r.value ==> r.value["redirect_uri"] == Some(request.preservedState.text))
    ensures r.Success? && !request.preservedState.Text? ==>
      var computed := resource.redirectUriFor(request);
      && ("redirect_uri" in r.value <==> computed.Some? && computed.value != NoRedirect)
      && ("redirect_uri" in r.value ==> r.value["redirect_uri"] == computed)
  {
    if request.stateKey.Some? && request.preservedState.NoState? then
      Failure(InvalidRequest(CsrfMessage))
    else
      var form := map["grant_type" := Some("authorization_code"), "code" := request.authorizationCode];
      var redirectUri :=
        if request.preservedState.Text? then Some(request.preservedState.text)
        else resource.redirectUriFor(request);
      if redirectUri.Some? && redirectUri.value != NoRedirect then
        Success(form["redirect_uri" := redirectUri])
      else
        Success(form)
  }

  /** The value of `scope` for a scoped resource; a null scope list reads as
      empty. A non-empty list of comma-free scopes can be read back from it. */
  function ScopeParameter(scope: Option<seq<string>>): (value: string)
    ensures scope.None? ==> value == ""
    ensures scope.Some? && |scope.value| >= 1 ==> scope.value[0] <= value
    ensures scope.Some? && |scope.value| >= 1 && Scopes.CommaFree(scope.value) ==>
      Scopes.Split(value) == scope.value
  {
    var scopes := scope.GetOr([]);
    assert |scopes| >= 1 && Scopes.CommaFree(scopes) ==> Scopes.Split(Scopes.Join(scopes)) == scopes by {
      if |scopes| >= 1 && Scopes.CommaFree(scopes) {
        Scopes.SplitJoin(scopes);
      }
    }
    Scopes.Join(scopes)
  }

  /** The parameters every authorization request starts from, with the
      placeholder `scope`. */
  function DefaultParameters(clientId: string): (params: seq<Entry>)
    ensures StrictlySorted(params)
    ensures ToMap(params) == map["response_type" := "code", "client_id" := clientId, "duration" := "permanent", "scope" := "identity"]
  {
    var p0 := Put([], "response_type", "code");
    var p1 := Put(p0, "client_id", clientId);
    var p2 := Put(p1, "duration", "permanent");
    Put(p2, "scope", "identity")
  }

  /** The sorted query parameters of the authorization request for a resource
      whose redirect URI resolves to `uri`; `RedirectParametersContents`
      states what they hold. */
  function RedirectParameters(resource: Resource, uri: Option<string>): (params: seq<Entry>)
    ensures StrictlySorted(params)
  {
    var p3 := DefaultParameters(resource.clientId);
    var p4 := if uri.Some? then Put(p3, "redirect_uri", uri.value) else p3;
    if resource.scoped then Put(p4, "scope", ScopeParameter(resource.scope)) else p4
  }

  /** The map the sorted parameters stand for: the defaults, then the
      redirect URI when it resolves, then the scope value. */
  lemma RedirectParametersMap(resource: Resource, uri: Option<string>)
    ensures var defaults := map["response_type" := "code", "client_id" := resource.clientId, "duration" := "permanent", "scope" := "identity"];
      var withUri := if uri.Some? then defaults["redirect_uri" := uri.value] else defaults;
      ToMap(RedirectParameters(resource, uri))
        == withUri["scope" := if resource.scoped then ScopeParameter(resource.scope) else "identity"]
  {
  }

  /** The authorization request always asks for a code, for a permanent
      grant, on behalf of the resource's client; it names a scope (the
      declared ones comma-joined, or `identity` when the resource is not
      scoped); and it names a redirect URI exactly when one resolves. */
  lemma RedirectParametersContents(resource: Resource, uri: Option<string>)
    ensures var m := ToMap(RedirectParameters(resource, uri));
      && m.Keys == {"client_id", "duration", "response_type", "scope"} + (if uri.Some? then {"redirect_uri"} else {})
      && m["response_type"] == "code"
      && m["client_id"] == resource.clientId
      && m["duration"] == "permanent"
      && m["scope"] == (if resource.scoped then ScopeParameter(resource.scope) else "identity")
      && ("redirect_uri" in m <==> uri.Some?)
      && (uri.Some? ==> m["redirect_uri"] == uri.value)
  {
    RedirectParametersMap(resource, uri);
    var scope := if resource.scoped then ScopeParameter(resource.scope) else "identity";
    ParameterMapFacts(resource.clientId, uri, scope);
  }

  /** Key and value facts about the parameter map, stated on the map alone. */
  lemma ParameterMapFacts(clientId: string, uri: Option<string>, scope: string)
    ensures var defaults := map["response_type" := "code", "client_id" := clientId, "duration" := "permanent", "scope" := "identity"];
      var m := (if uri.Some? then defaults["redirect_uri" := uri.value] else defaults)["scope" := scope];
      && m.Keys == {"client_id", "duration", "response_type", "scope"} + (if uri.Some? then {"redirect_uri"} else {})
      && m["response_type"] == "code"
      && m["client_id"] == clientId
      && m["duration"] == "permanent"
      && m["scope"] == scope
      && ("redirect_uri" in m <==> uri.Some?)
      && (uri.Some? ==> m["redirect_uri"] == uri.value)
  {
  }

  /** What the redirect builder hands back: the instruction, and the request
      with the state key and preserved state it wrote. */
  datatype Redirect = Redirect(instruction: RedirectInstruction, request: TokenRequest)

  /** The authorization request. `freshKey` is the state key the key
      generator produces for this attempt. */
  function BuildRedirect(resource: Resource, request: TokenRequest, freshKey: string): (r: Redirect)
    ensures r.instruction.parameters == RedirectParameters(resource, resource.redirectUriFor(request))
    ensures r.instruction.authorizationUri == resource.userAuthorizationUri
    ensures r.instruction.stateKey == Some(freshKey) && r.request.stateKey == Some(freshKey)
    ensures var uri := resource.redirectUriFor(request);
      && r.instruction.stateToPreserve == uri
      && (uri.None? ==> r.request.preservedState == NoState)
      && (uri.Some? ==> r.request.preservedState == Text(uri.value))
    ensures r.request.authorizationCode == request.authorizationCode
    ensures r.request.currentUri == request.currentUri
  {
    var uri := resource.redirectUriFor(request);
    var preserved := if uri.Some? then Text(uri.value) else NoState;
    Redirect(
      RedirectInstruction(resource.userAuthorizationUri, RedirectParameters(resource, uri), Some(freshKey), uri),
      request.(stateKey := Some(freshKey), preservedState := preserved))
  }

  /** The token-endpoint step: build the form (which may fail the CSRF check)
      and the headers, and hand them to the exchange, whose result
      propagates unchanged. */
  function ExchangeCode(resource: Resource, request: TokenRequest, exchange: Exchange): (r: Outcome)
    ensures !r.RedirectRequired?
    ensures request.stateKey.Some? && request.preservedState.NoState? ==>
      r == Failed(InvalidRequest(CsrfMessage))
    ensures var form := TokenParameters(resource, request);
      form.Success? ==>
        var reply := exchange(request, form.value, TokenHeaders());
        && (reply.Success? && reply.value.Some? ==> r == Obtained(reply.value.value))
        && (reply == Success(None) ==> r == Failed(NullPointer))
        && (reply.Failure? ==> r == Failed(reply.error))
    ensures r.Obtained? ==>
      && TokenParameters(resource, request).Success?
      && exchange(request, TokenParameters(resource, request).value, TokenHeaders()) == Success(Some(r.token))
  {
    match TokenParameters(resource, request)
    case Failure(e) => Failed(e)
    case Success(form) =>
      match exchange(request, form, TokenHeaders())
      case Success(Some(token)) => Obtained(token)
      case Success(None) => Failed(NullPointer)
      case Failure(e) => Failed(e)
  }

  /** `obtainAccessToken`: with neither a code nor a state key, a fresh
      attempt that must redirect the user; with a state key but no code, the
      callback has happened and the code step runs first, on whose request
      the token step then works; with a code, the code is exchanged. */
  function ObtainAccessToken(
    resource: Resource, request: TokenRequest, freshKey: string,
    obtainCode: CodeStep, exchange: Exchange): (r: Outcome)
    ensures request.authorizationCode.None? && request.stateKey.None? ==>
      r == RedirectRequired(BuildRedirect(resource, request, freshKey).instruction,
                            BuildRedirect(resource, request, freshKey).request)
    ensures r.RedirectRequired? <==>
      || (request.authorizationCode.None? && request.stateKey.None?)
      || (request.authorizationCode.None? && obtainCode(request).Failure? && obtainCode(request).error.UserRedirect?)
    ensures request.authorizationCode.None? && request.stateKey.Some? && obtainCode(request).Failure? ==>
      match obtainCode(request).error
      case UserRedirect(instruction, left) => r == RedirectRequired(instruction, left)
      case Raised(e) => r == Failed(e)
    ensures request.authorizationCode.Some? ==> r == ExchangeCode(resource, request, exchange)
    ensures request.authorizationCode.None? && request.stateKey.Some? && obtainCode(request).Success? ==>
      r == ExchangeCode(resource, obtainCode(request).value, exchange)
    ensures request.authorizationCode.Some? && request.stateKey.Some? && request.preservedState.NoState? ==>
      r == Failed(InvalidRequest(CsrfMessage))
    ensures request.authorizationCode.None? && request.stateKey.Some? && obtainCode(request).Success? ==>
      var next := obtainCode(request).value;
      next.stateKey.Some? && next.preservedState.NoState? ==> r == Failed(InvalidRequest(CsrfMessage))
  {
    if request.authorizationCode.None? then
      if request.stateKey.None? then
        var redirect := BuildRedirect(resource, request, freshKey);
        RedirectRequired(redirect.instruction, redirect.request)
      else
        match obtainCode(request)
        case Failure(UserRedirect(instruction, left)) => RedirectRequired(instruction, left)
        case Failure(Raised(e)) => Failed(e)
        case Success(next) => ExchangeCode(resource, next, exchange)
    else
      ExchangeCode(resource, request, exchange)
  }

  /** A fresh attempt never reaches either collaborator: the outcome is the
      same redirect whatever the code step and the exchange would do. */
  lemma FreshAttemptOnlyRedirects(
    resource: Resource, request: TokenRequest, freshKey: string,
    obtainCode: CodeStep, exchange: Exchange, obtainCode': CodeStep, exchange': Exchange)
    requires request.authorizationCode.None? && request.stateKey.None?
    ensures ObtainAccessToken(resource, request, freshKey, obtainCode, exchange)
         == ObtainAccessToken(resource, request, freshKey, obtainCode', exchange')
    ensures ObtainAccessToken(resource, request, freshKey, obtainCode, exchange).RedirectRequired?
  {
  }

  /** With a code in hand the code step is skipped; a token results exactly
      when the form is accepted and the exchange yields that token, and any
      failure of the form or of the exchange reaches the caller unchanged. */
  lemma CodeIsExchangedDirectly(
    resource: Resource, request: TokenRequest, freshKey: string,
    obtainCode: CodeStep, exchange: Exchange, obtainCode': CodeStep, token: AccessToken)
    requires request.authorizationCode.Some?
    ensures ObtainAccessToken(resource, request, freshKey, obtainCode, exchange)
         == ObtainAccessToken(resource, request, freshKey, obtainCode', exchange)
    ensures ObtainAccessToken(resource, request, freshKey, obtainCode, exchange) == Obtained(token)
        <==> && TokenParameters(resource, request).Success?
             && exchange(request, TokenParameters(resource, request).value, TokenHeaders()) == Success(Some(token))
    ensures TokenParameters(resource, request).Failure? ==>
      ObtainAccessToken(resource, request, freshKey, obtainCode, exchange)
        == Failed(TokenParameters(resource, request).error)
    ensures var form := TokenParameters(resource, request);
      form.Success? && exchange(request, form.value, TokenHeaders()).Failure? ==>
        ObtainAccessToken(resource, request, freshKey, obtainCode, exchange)
          == Failed(exchange(request, form.value, TokenHeaders()).error)
    ensures var form := TokenParameters(resource, request);
      form.Success? && exchange(request, form.value, TokenHeaders()) == Success(None) ==>
        ObtainAccessToken(resource, request, freshKey, obtainCode, exchange) == Failed(NullPointer)
  {
  }

  /** Resuming after the callback: the token step works on the request the
      code step hands back; when that request carries a code, the outcome is
      the one that request would get on its own, whatever the code step. */
  lemma ResumeObtainsCodeFirst(
    resource: Resource, request: TokenRequest, freshKey: string,
    obtainCode: CodeStep, exchange: Exchange, next: TokenRequest, obtainCode': CodeStep)
    requires request.authorizationCode.None? && request.stateKey.Some?
    requires obtainCode(request) == Success(next)
    ensures ObtainAccessToken(resource, request, freshKey, obtainCode, exchange)
         == ExchangeCode(resource, next, exchange)
    ensures next.authorizationCode.Some? ==>
      ObtainAccessToken(resource, request, freshKey, obtainCode, exchange)
        == ObtainAccessToken(resource, next, freshKey, obtainCode', exchange)
  {
  }

  /** The request as the redirect builder left it, with an authorization code
      filled in: what the dispatch sees if the caller re-enters with that very
      request. How the caller rebuilds the request on the user's return is
      not part of this model. */
  function Callback(resource: Resource, request: TokenRequest, freshKey: string, code: string): (back: TokenRequest)
    ensures back.authorizationCode == Some(code)
    ensures back.stateKey == Some(freshKey)
    ensures back.preservedState == BuildRedirect(resource, request, freshKey).request.preservedState
    ensures var uri := resource.redirectUriFor(request);
      back.preservedState == if uri.Some? then Text(uri.value) else NoState
    ensures back.currentUri == request.currentUri
  {
    BuildRedirect(resource, request, freshKey).request.(authorizationCode := Some(code))
  }

  /** Round trip: when the redirect URI resolves, the token request sends back
      the very `redirect_uri` the authorization request carried, unless it is
      the sentinel, which the token request omits. */
  lemma RedirectUriRoundTrip(resource: Resource, request: TokenRequest, freshKey: string, code: string)
    requires resource.redirectUriFor(request).Some?
    ensures var uri := resource.redirectUriFor(request).value;
      var sent := ToMap(BuildRedirect(resource, request, freshKey).instruction.parameters);
      var form := TokenParameters(resource, Callback(resource, request, freshKey, code));
      && form.Success?
      && form.value["code"] == Some(code)
      && "redirect_uri" in sent
      && ("redirect_uri" in form.value <==> uri != NoRedirect)
      && (uri != NoRedirect ==> form.value["redirect_uri"] == Some(sent["redirect_uri"]))
  {
    RedirectParametersContents(resource, resource.redirectUriFor(request));
  }

  /** With no redirect URI the builder preserves no state, so if the caller
      re-enters with the request the builder left, plus a code, that request
      fails the CSRF check. */
  lemma MissingRedirectUriFailsCsrf(resource: Resource, request: TokenRequest, freshKey: string, code: string)
    requires resource.redirectUriFor(request).None?
    ensures TokenParameters(resource, Callback(resource, request, freshKey, code))
         == Failure(InvalidRequest(CsrfMessage))
  {
  }

  /** The whole flow: a fresh attempt redirects; the request it leaves, once
      a code is added, is exchanged with the original redirect URI when there
      is one (sent back unless it is the `NONE` sentinel), and is rejected as
      a CSRF attempt when there is none. */
  lemma FlowRoundTrip(
    resource: Resource, request: TokenRequest, freshKey: string, nextKey: string,
    obtainCode: CodeStep, exchange: Exchange, code: string)
    requires request.authorizationCode.None? && request.stateKey.None?
    ensures var first := ObtainAccessToken(resource, request, freshKey, obtainCode, exchange);
      && first.RedirectRequired?
      && var back := first.request.(authorizationCode := Some(code));
      var second := ObtainAccessToken(resource, back, nextKey, obtainCode, exchange);
      var uri := resource.redirectUriFor(request);
      && (uri.None? ==> second == Failed(InvalidRequest(CsrfMessage)))
      && (uri.Some? ==>
            var form := TokenParameters(resource, back);
            var sent := ToMap(first.instruction.parameters);
            && form.Success?
            && "redirect_uri" in sent
            && (uri.value != NoRedirect ==> form.value["redirect_uri"] == Some(sent["redirect_uri"]))
            && (uri.value == NoRedirect ==> "redirect_uri" !in form.value)
            && (second.Obtained? <==>
                  && exchange(back, form.value, TokenHeaders()).Success?
                  && exchange(back, form.value, TokenHeaders()).value.Some?))
  {
    RedirectParametersContents(resource, resource.redirectUriFor(request));
  }

  /** A caller that stores the `NONE` sentinel in place of a null state to
      preserve passes the CSRF check, and no `redirect_uri` is sent. */
  lemma SentinelStateSendsNoRedirectUri(resource: Resource, request: TokenRequest)
    requires request.preservedState == Text(NoRedirect)
    ensures var form := TokenParameters(resource, request);
      form.Success? && "redirect_uri" !in form.value && form.value["code"] == request.authorizationCode
  {
  }

  /** The end-to-end example: a fresh attempt for an unscoped client `abc`
      with redirect URI `https://x/cb` redirects with exactly the parameters
      `client_id=abc`, `duration=permanent`, `redirect_uri=https://x/cb`,
      `response_type=code` and `scope=identity`, sorted by name. */
  lemma UnscopedExample(request: TokenRequest, freshKey: string, obtainCode: CodeStep, exchange: Exchange)
    requires request.authorizationCode.None? && request.stateKey.None?
    ensures var resource := Resource("abc", "https://www.reddit.com/api/v1/authorize", false, None, _ => Some("https://x/cb"));
      var r := ObtainAccessToken(resource, request, freshKey, obtainCode, exchange);
      && r.RedirectRequired?
      && StrictlySorted(r.instruction.parameters)
      && var m := ToMap(r.instruction.parameters);
      && m.Keys == {"client_id", "duration", "redirect_uri", "response_type", "scope"}
      && m["client_id"] == "abc" && m["duration"] == "permanent" && m["redirect_uri"] == "https://x/cb"
      && m["response_type"] == "code" && m["scope"] == "identity"
  {
    var resource := Resource("abc", "https://www.reddit.com/api/v1/authorize", false, None, _ => Some("https://x/cb"));
    RedirectParametersContents(resource, Some("https://x/cb"));
  }

  /** Scopes `identity` and `read` are sent as `identity,read`; an empty or
      null scope list is sent as the empty string. */
  lemma ScopeParameterExamples()
    ensures ScopeParameter(Some(["identity", "read"])) == "identity,read"
    ensures ScopeParameter(Some(["identity"])) == "identity"
    ensures ScopeParameter(Some([])) == "" && ScopeParameter(None) == ""
  {
    assert Scopes.Join(["identity", "read"]) == "identity" + "," + Scopes.Join(["read"]);
  }
}
