# Reddit authorization-code access-token provider, modelled in Dafny

This project models the client side of the OAuth 2.0 authorization-code grant
(RFC 6749 section 4.1) as `RedditAuthorizationCodeAccessTokenProvider`
performs it for Reddit. Reddit adds its own extras: a `duration=permanent`
parameter, comma-separated scopes, and a mandatory `User-Agent` header. The
model covers three pieces:

- **Dispatch** (`obtainAccessToken`). With neither an authorization code nor a
  state key, the attempt is fresh and ends in a redirect. With a state key but
  no code, the code is obtained first and then exchanged. With a code, the code
  is exchanged.
- **The authorization request** (RFC 6749 section 4.1.1). It is a
  `TreeMap`-sorted parameter map. The builder writes a generated state key and
  the redirect URI as preserved state, both on the redirect instruction and on
  the request.
- **The access-token request** (RFC 6749 section 4.1.3). Its form runs a CSRF
  check: a state key without a preserved state is rejected. It then chooses
  which `redirect_uri` to send back, or none.

Exceptions become variants. `Outcome` is `RedirectRequired`, `Obtained` or
`Failed`, and `ProviderError` is the thrown error. The redirect is an ordinary
outcome, not an error.

Collaborators whose code is not part of this model become parameters:

- the library's `resource.getRedirectUri(request)` is the function-typed field `Resource.redirectUriFor`;
- the base class's `obtainAuthorizationCode` is the function `CodeStep`, which returns the request as it leaves it or interrupts with a redirect or a failure;
- the base class's `retrieveToken` (the HTTP exchange) is the function `Exchange`;
- the random state-key generator becomes the `freshKey` argument.

Files:

- `wrappers.dfy`: `Option` (Java `null`) and `Result` (a value or a thrown exception).
- `tree_maps.dfy`: `java.util.TreeMap<String, String>` as a strictly sorted
  entry sequence. Keys are ordered as Java's `String.compareTo` orders them.
- `scopes.dfy`: the comma join of the declared scopes, as a function and as
  the source's iterator loop, plus the split that undoes it.
- `provider.dfy`: the request, resource, instruction and outcome datatypes;
  the header, form and redirect builders; the dispatch; and the round-trip lemmas.

One subtle point is proved. The redirect and exchange steps only fit together
when the resource's redirect URI resolves to a value. The redirect builder
stores that URI as the preserved state. If it is `null` and the caller
re-enters with the request the builder left, plus a code, that request carries
a state key but no preserved state, and the token-request builder rejects it as
possible CSRF (`MissingRedirectUriFailsCsrf`, `FlowRoundTrip`). A caller that
stores the `NONE` sentinel instead passes the check and sends no
`redirect_uri` (`SentinelStateSendsNoRedirectUri`).

## Model

| member | source | states |
|---|---|---|
| RedditProvider.ObtainAccessToken | src/main/java/oauthtest/config/RedditAuthorizationCodeAccessTokenProvider.java:42-56 | With neither a code nor a state key, the outcome is the redirect the builder produces, with the instruction and the request it left. With a state key and no code, the code step runs first: a redirect or a failure it raises propagates unchanged, and otherwise the token step works on the request the code step hands back. With a code, the token step runs on the request itself. The outcome is a redirect exactly in the fresh case or when the code step redirects. Whenever the request reaching the token step has a state key and no preserved state, the outcome is the CSRF rejection. |
| RedditProvider.FreshAttemptOnlyRedirects | src/main/java/oauthtest/config/RedditAuthorizationCodeAccessTokenProvider.java:42-44 | With no code and no state key, the outcome is a redirect and is the same whatever the code step and the token exchange would do, so neither is ever consulted. |
| RedditProvider.CodeIsExchangedDirectly | src/main/java/oauthtest/config/RedditAuthorizationCodeAccessTokenProvider.java:48-56 | With a code present, the code step is never consulted. A token results exactly when the form passes the CSRF check and the exchange yields that (non-null) token. A CSRF rejection of the form and any failure of the exchange reach the caller unchanged, and a null token ends in a NullPointerException. |
| RedditProvider.ResumeObtainsCodeFirst | src/main/java/oauthtest/config/RedditAuthorizationCodeAccessTokenProvider.java:45-49 | With a state key and no code, once the code step returns, the outcome is the token step on the request the code step handed back. When that request carries a code, the outcome equals what that request gets on its own, whatever the code step would do. |
| RedditProvider.ExchangeCode | src/main/java/oauthtest/config/RedditAuthorizationCodeAccessTokenProvider.java:48-56 | The token step never redirects. A state key without a preserved state gives the CSRF rejection. Once the form is accepted, the exchange is given that form and the fixed headers. Its token becomes the outcome, a null token ends in the NullPointerException that logging it at line 50 raises, and its failure propagates unchanged. A token is obtained only in that way. |
| RedditProvider.TokenHeaders | src/main/java/oauthtest/config/RedditAuthorizationCodeAccessTokenProvider.java:59-70 | The headers this provider builds are exactly one `User-Agent` entry with the fixed client string, with no `Authorization` entry among them. Whatever the exchange step adds when it sends them is not part of this model. |
| RedditProvider.TokenParameters | src/main/java/oauthtest/config/RedditAuthorizationCodeAccessTokenProvider.java:72-96 | It fails, with InvalidRequest and the CSRF message, if and only if a state key is present and the preserved state is null. Otherwise the form holds `grant_type=authorization_code`, `code` equal to the request's code (null included), and nothing but `redirect_uri` besides. `redirect_uri` is the preserved state when that is a string, otherwise the resource's resolved URI. It is present exactly when that value is non-null and not `NONE`. |
| RedditProvider.ScopeParameter | src/main/java/oauthtest/config/RedditAuthorizationCodeAccessTokenProvider.java:110-125 | The scoped value of `scope`: empty for a null scope list. For a non-empty list it begins with the first scope, and when no scope contains a comma, splitting it at commas gives back the list. |
| RedditProvider.DefaultParameters | src/main/java/oauthtest/config/RedditAuthorizationCodeAccessTokenProvider.java:99-103 | The four starting parameters form a sorted map `response_type=code`, `client_id`, `duration=permanent`, `scope=identity`. |
| RedditProvider.RedirectParameters | src/main/java/oauthtest/config/RedditAuthorizationCodeAccessTokenProvider.java:99-126 | The authorization-request parameters are strictly sorted by name in `String.compareTo` order, as a `TreeMap` keeps them. |
| RedditProvider.RedirectParametersMap | src/main/java/oauthtest/config/RedditAuthorizationCodeAccessTokenProvider.java:99-126 | The sorted parameters stand for the default map, then `redirect_uri` when the URI resolves, then `scope` overwritten by the comma-joined scopes when the resource is scoped. |
| RedditProvider.RedirectParametersContents | src/main/java/oauthtest/config/RedditAuthorizationCodeAccessTokenProvider.java:99-126 | The keys are exactly `client_id`, `duration`, `response_type` and `scope`, plus `redirect_uri` if and only if the redirect URI resolves, and then it equals that URI. The values are `response_type=code`, `duration=permanent` and the resource's client id. `scope` is `identity` for an unscoped resource, else the declared scopes comma-joined (empty for a null or empty list). |
| RedditProvider.BuildRedirect | src/main/java/oauthtest/config/RedditAuthorizationCodeAccessTokenProvider.java:128-136 | The instruction targets the resource's authorization URI with the sorted parameters. The same fresh key is set on the instruction and on the request. The state to preserve is the resolved redirect URI, on both. The code and the current URI of the request are unchanged. |
| RedditProvider.Callback | src/main/java/oauthtest/config/RedditAuthorizationCodeAccessTokenProvider.java:132-134 | The request the builder left, with a code filled in: it carries the code, the state key the redirect builder stored, and the preserved state it stored (the resolved redirect URI, or none when it does not resolve). Its current URI is unchanged. It is the request the dispatch sees if the caller re-enters with that very request. |
| RedditProvider.RedirectUriRoundTrip | src/main/java/oauthtest/config/RedditAuthorizationCodeAccessTokenProvider.java:84-93 | When the redirect URI resolves, building the redirect and then the token form succeeds and the form carries the returned code. The form's `redirect_uri` equals the one the authorization request sent, unless it is the `NONE` sentinel: the authorization request still sends `NONE`, but the token form leaves it out. |
| RedditProvider.MissingRedirectUriFailsCsrf | src/main/java/oauthtest/config/RedditAuthorizationCodeAccessTokenProvider.java:77-82 | When the redirect URI does not resolve and the caller re-enters with the request the builder left, plus a code, that request fails the CSRF check, because the builder stored a state key but a null preserved state. |
| RedditProvider.SentinelStateSendsNoRedirectUri | src/main/java/oauthtest/config/RedditAuthorizationCodeAccessTokenProvider.java:84-93 | A request whose preserved state is the `NONE` sentinel passes the CSRF check, keeps its code, and sends no `redirect_uri`. |
| RedditProvider.FlowRoundTrip | src/main/java/oauthtest/config/RedditAuthorizationCodeAccessTokenProvider.java:42-49 | Across two calls of the dispatch: a fresh attempt redirects. Re-entering with the request it left plus a code fails the CSRF check when no redirect URI resolved. Otherwise the form is accepted: it sends back the original `redirect_uri`, except that a `NONE` sentinel the authorization request did send is left out, and a token is obtained exactly when the exchange returns a non-null token. |
| RedditProvider.UnscopedExample | src/main/java/oauthtest/config/RedditAuthorizationCodeAccessTokenProvider.java:99-108 | For client `abc`, redirect URI `https://x/cb` and no scoping, a fresh attempt redirects with exactly `client_id=abc`, `duration=permanent`, `redirect_uri=https://x/cb`, `response_type=code`, `scope=identity`, sorted by name. |
| RedditProvider.ScopeParameterExamples | src/main/java/oauthtest/config/RedditAuthorizationCodeAccessTokenProvider.java:110-126 | Scopes `identity`, `read` give `identity,read`. A single scope gives no comma. An empty or null list gives the empty string. |
| Scopes.Join | src/main/java/oauthtest/config/RedditAuthorizationCodeAccessTokenProvider.java:115-123 | The comma join begins with the first scope, and its length is the total length of the scopes plus one comma between each pair of neighbours (none for zero or one scope). |
| Scopes.JoinIteratively | src/main/java/oauthtest/config/RedditAuthorizationCodeAccessTokenProvider.java:112-125 | The source's iterator loop (append the scope, then a comma if another follows) computes exactly the comma join of the scopes in list order. |
| Scopes.SplitJoin | src/main/java/oauthtest/config/RedditAuthorizationCodeAccessTokenProvider.java:115-123 | For at least one scope and no scope containing a comma, splitting the joined value at commas gives back the scope list. The join therefore loses nothing and keeps the order. |
| TreeMaps.Put | src/main/java/oauthtest/config/RedditAuthorizationCodeAccessTokenProvider.java:99-107 | `TreeMap.put` keeps the entries strictly sorted, and the map they stand for is the old map with `k` set to `v`. |

## Left out

- `retrieveToken` (the HTTP POST and the parsing of the response) is a parameter of type `Exchange` with no interpretation; it may return a null token, which the model turns into the `NullPointer` failure that dereferencing it for the log message raises. The debug logging itself is not modelled.
- `obtainAuthorizationCode` is the parameter `CodeStep`, whose base-class definition is not part of this model. Because the source passes it the mutable request and discards its return value, the step yields the request as it leaves it, or interrupts with a redirect or a raised failure. Nothing is assumed about what it writes: it may set or clear the code, reset the state key, or store any preserved state (including a non-string object, which the token form then passes over). So for a resumed attempt the CSRF rejection is promised on the request the step hands back, not on the one passed in.
- RedditProvider.Callback: how the framework rebuilds the request when the user returns with a code is not modelled, and it may store a different preserved state (for example the `NONE` sentinel in place of a null one). The callback and CSRF lemmas speak only of a caller that re-enters with the request the builder left.
- `resource.getRedirectUri(request)` is the function-typed field `redirectUriFor`; its library definition is not part of this model.
- `DefaultStateKeyGenerator.generateKey` is random, so the generated key is the `freshKey` argument.
- The mutable `details` field is written on every call and never read by live code, so it is dropped and the resource is passed explicitly. The runtime downcast to the authorization-code resource type is also dropped: `Resource` is that type.
- The commented-out Basic-authentication and `Content-Type` header lines are not modelled. The headers this provider builds carry no client credentials; whether the exchange step adds client authentication when it sends the request is decided by `retrieveToken`, which is not part of this model.
- `isScoped` is an independent flag. The library method that answers it is not part of this model, so the model keeps the flag independent of the scope list. That keeps the builder's null and empty scope-list branches reachable.
- A null client id and null entries in the scope list are not modelled. `clientId` and the scopes are non-null strings, so `StringBuilder` appending `"null"` is out of reach.
- The token form is a map. The insertion order of `LinkedMultiValueMap` and its list-valued entries (each key holds exactly one value here) are not modelled. `HttpHeaders` case-insensitivity is not modelled either.
- TreeMaps.Less compares Dafny characters (Unicode scalar values), while `String.compareTo` compares UTF-16 code units. They agree on the ASCII parameter names used here and on all characters below U+D800.
- Java serialization, the `serialVersionUID`, and the logger are not modelled.
