/** `SpaceService`: authentication by client id and by registration record. */
module SpaceService {
  import opened Common
  import opened Expiry
  import opened Space
  import opened TokenCache

  /** `authenticate(client)`: a session for a registration the caller already holds. */
  function AuthenticateWithClient(tokens: Tokens, client: SpaceClient, now: int, o: Oracles): (s: Step<SpaceSession>)
    ensures |s.exchanges| <= 1
    ensures s.exchanges != [] ==> s.exchanges == [ExchangeRequest(client)]
    ensures s.tokens - {client.clientId} == tokens - {client.clientId}
    ensures s.result.Ok? ==> s.result.value.clientId == client.clientId && s.result.value.serverUrl == client.serverUrl
    ensures s.result.Ok? && s.exchanges == [] ==>
      IsCacheHit(o, tokens, client.clientId, now) && s.result.value.accessToken == tokens[client.clientId]
    ensures s.result.Ok? && s.exchanges != [] ==>
      o.exchange(ExchangeRequest(client)) == Ok(s.result.value.accessToken)
      && s.tokens == tokens[client.clientId := s.result.value.accessToken]
    // the token the cache yields always becomes a session
    ensures s.exchanges == [] <==> IsCacheHit(o, tokens, client.clientId, now) || IsUnreadable(o, tokens, client.clientId)
    ensures IsCacheHit(o, tokens, client.clientId, now) ==>
      s == Step(Ok(SpaceSession(client.clientId, client.serverUrl, tokens[client.clientId])), tokens, [])
    ensures IsUnreadable(o, tokens, client.clientId) ==>
      s == Step(Err(ExpirationMillis(o.decode, tokens[client.clientId]).error), tokens, [])
    ensures s.exchanges != [] ==> (s.result.Ok? <==> o.exchange(ExchangeRequest(client)).Ok?)
    ensures s.exchanges != [] && s.result.Err? ==>
      s.result.error == o.exchange(ExchangeRequest(client)).error && s.tokens == tokens
  {
    var t := GetSpaceToken(tokens, client, now, o);
    match t.result
    case Err(e) => Step(Err(e), t.tokens, t.exchanges)
    case Ok(token) => Step(Ok(SpaceSession(client.clientId, client.serverUrl, token)), t.tokens, t.exchanges)
  }

  /** `authenticate(clientId)`: look the registration up, then authenticate with it. */
  function Authenticate(st: State, clientId: ClientId, now: int, o: Oracles): (s: Step<SpaceSession>)
    ensures clientId !in st.store ==> s == Step(Err(UnregisteredClientId), st.tokens, [])
    ensures s.result.Ok? ==>
      && clientId in st.store
      && s.result.value.clientId == clientId
      && s.result.value.serverUrl == st.store[clientId].serverUrl
    ensures s.exchanges != [] ==>
      && clientId in st.store
      && s.exchanges == [ExchangeRequest(SpaceClient(clientId, st.store[clientId].clientSecret, st.store[clientId].serverUrl))]
    ensures s.tokens - {clientId} == st.tokens - {clientId}
    // a registered id authenticates exactly as its stored record does
    ensures clientId in st.store ==>
      s == AuthenticateWithClient(st.tokens, SpaceClient(clientId, st.store[clientId].clientSecret, st.store[clientId].serverUrl), now, o)
  {
    match QueryClient(st.store, clientId)
    case None => Step(Err(UnregisteredClientId), st.tokens, [])
    case Some(client) => AuthenticateWithClient(st.tokens, client, now, o)
  }

  /** The by-record overload trusts its record: for a client that was never
      stored it still exchanges, where the by-id overload fails without one. */
  lemma WithClientNeedsNoRegistration(st: State, client: SpaceClient, now: int, o: Oracles)
    requires client.clientId !in st.store
    requires client.clientId !in st.tokens
    ensures Authenticate(st, client.clientId, now, o) == Step(Err(UnregisteredClientId), st.tokens, [])
    ensures AuthenticateWithClient(st.tokens, client, now, o).exchanges == [ExchangeRequest(client)]
  {
  }
}
