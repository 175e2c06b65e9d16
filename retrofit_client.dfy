/** The auth interceptor of `RetrofitClient`, applied around every API request. */
module RetrofitClient {
  import opened Wrappers
  import opened Platform
  import opened Auth

  const UNAUTHORIZED: int := 401

  /** The request as sent: with a token, one `Authorization: Bearer <token>` header is added. */
  function Authorize(request: Request, token: Option<string>): (sent: Request)
    ensures token.None? ==> sent == request
    ensures token.Some? ==>
              sent.verb == request.verb && sent.url == request.url && sent.body == request.body &&
              sent.headers == request.headers + [Header("Authorization", "Bearer " + token.value)]
  {
    if token.Some? then request.(headers := request.headers + [Header("Authorization", "Bearer " + token.value)])
    else request
  }

  /**
   * Send the request (`proceed` is the rest of the chain and the network),
   * clear the stored sign-in on a 401, and hand the response back as it came.
   */
  method Intercept(store: TokenStore, request: Request, proceed: Request -> Response)
    returns (sent: Request, response: Response)
    modifies store
    ensures sent == Authorize(request, old(store.GetToken()))
    ensures response == proceed(sent)
    ensures response.code == UNAUTHORIZED ==> store.prefs == map[] && !store.IsLoggedIn()
    ensures response.code != UNAUTHORIZED ==> store.prefs == old(store.prefs)
  {
    var token := store.GetToken();
    if token.Some? {
      sent := request.(headers := request.headers + [Header("Authorization", "Bearer " + token.value)]);
    } else {
      sent := request;
    }
    response := proceed(sent);
    if response.code == UNAUTHORIZED {
      store.Clear();
    }
  }
}
