/** `AppService`: the older copy of the authentication logic, the one the
    controller uses. */
module AppService {
  import opened Common
  import opened Expiry
  import opened Space
  import opened TokenCache
  import SpaceService

  /** `authenticateToSpace`: the session's client id is the argument itself. */
  function AuthenticateToSpace(st: State, clientId: ClientId, now: int, o: Oracles): (s: Step<SpaceSession>)
    ensures clientId !in st.store ==> s == Step(Err(UnregisteredClientId), st.tokens, [])
    ensures s.result.Ok? ==>
      && clientId in st.store
      && s.result.value.clientId == clientId
      && s.result.value.serverUrl == st.store[clientId].serverUrl
    ensures |s.exchanges| <= 1
    ensures s.tokens - {clientId} == st.tokens - {clientId}
  {
    match QueryClient(st.store, clientId)
    case None => Step(Err(UnregisteredClientId), st.tokens, [])
    case Some(client) =>
      var t := GetSpaceToken(st.tokens, client, now, o);
      match t.result
      case Err(e) => Step(Err(e), t.tokens, t.exchanges)
      case Ok(token) => Step(Ok(SpaceSession(clientId, client.serverUrl, token)), t.tokens, t.exchanges)
  }

  /** The two copies build the same session: the record read back from the
      store already carries the id it was read under. */
  lemma SameAsSpaceService(st: State, clientId: ClientId, now: int, o: Oracles)
    ensures AuthenticateToSpace(st, clientId, now, o) == SpaceService.Authenticate(st, clientId, now, o)
  {
  }

  /** A registered client with a valid cached token is served from the cache. */
  lemma CacheHitNeedsNoExchange(st: State, clientId: ClientId, now: int, o: Oracles)
    requires clientId in st.store
    requires IsCacheHit(o, st.tokens, clientId, now)
    ensures AuthenticateToSpace(st, clientId, now, o) ==
      Step(Ok(SpaceSession(clientId, st.store[clientId].serverUrl, st.tokens[clientId])), st.tokens, [])
  {
  }

  /** A miss, an empty token or an expired one costs exactly one exchange,
      with the stored credentials, and only this client's entry changes. */
  lemma MissRenewsOnce(st: State, clientId: ClientId, now: int, o: Oracles)
    requires clientId in st.store
    requires clientId !in st.tokens || st.tokens[clientId] == ""
      || HasTokenExpired(o.decode, st.tokens[clientId], now) == Ok(true)
    ensures var s := AuthenticateToSpace(st, clientId, now, o);
      var request := ExchangeRequest(SpaceClient(clientId, st.store[clientId].clientSecret, st.store[clientId].serverUrl));
      && s.exchanges == [request]
      && s.result.Ok? == o.exchange(request).Ok?
      && (s.result.Ok? ==> s.result.value.accessToken == o.exchange(request).value
                           && s.tokens == st.tokens[clientId := s.result.value.accessToken])
  {
  }

  /** A second authentication within the token's validity exchanges nothing. */
  lemma SecondCallWithinValidityHitsCache(st: State, clientId: ClientId, now: int, later: int, o: Oracles)
    requires AuthenticateToSpace(st, clientId, now, o).result.Ok?
    requires AuthenticateToSpace(st, clientId, now, o).result.value.accessToken != ""
    requires HasTokenExpired(o.decode, AuthenticateToSpace(st, clientId, now, o).result.value.accessToken, later) == Ok(false)
    ensures var first := AuthenticateToSpace(st, clientId, now, o);
      var second := AuthenticateToSpace(State(st.store, first.tokens), clientId, later, o);
      second == Step(first.result, first.tokens, [])
  {
    var client := QueryClient(st.store, clientId).value;
    TokenReusedWhileValid(st.tokens, client, now, later, o);
  }

  /** What `storeSpaceClient` wrote is what the next authentication uses. */
  lemma StoredRegistrationIsUsed(st: State, client: SpaceClient, now: int, o: Oracles)
    ensures var s := AuthenticateToSpace(State(StoreClient(st.store, client), st.tokens), client.clientId, now, o);
      && (s.result.Ok? ==> s.result.value == SpaceSession(client.clientId, client.serverUrl, s.result.value.accessToken))
      && (s.exchanges != [] ==> s.exchanges == [ExchangeRequest(client)])
  {
  }
}
