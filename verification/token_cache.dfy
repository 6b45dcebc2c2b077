/** `getSpaceToken`: the per-client token cache and the client-credentials
    exchange that refills it. */
module TokenCache {
  import opened Common
  import opened Expiry
  import opened Space

  /** The form body of the exchange. */
  const GrantBody: string := "grant_type=client_credentials&scope=**"

  /** One client-credentials exchange: a POST with Basic authentication. */
  datatype TokenRequest = TokenRequest(url: string, username: string, password: string, form: string)

  /** The path of the token endpoint on a chat server. */
  const TokenPath: string := "/oauth/token"

  /** The exchange issued for a client: to its own server, with its own credentials. */
  function ExchangeRequest(client: SpaceClient): (r: TokenRequest)
    ensures |r.url| == |client.serverUrl| + |TokenPath|
    ensures r.url[..|client.serverUrl|] == client.serverUrl && r.url[|client.serverUrl|..] == TokenPath
    ensures r.username == client.clientId && r.password == client.clientSecret
    ensures r.form == GrantBody
  {
    TokenRequest(client.serverUrl + TokenPath, client.clientId, client.clientSecret, GrantBody)
  }

  /** The request identifies its client: two registrations that differ in
      server, id or secret never share an exchange, so no client's
      credentials are sent to another client's server. */
  lemma ExchangeRequestDeterminesClient(a: SpaceClient, b: SpaceClient)
    requires ExchangeRequest(a) == ExchangeRequest(b)
    ensures a == b
  {
    var ra, rb := ExchangeRequest(a), ExchangeRequest(b);
    assert a.serverUrl == ra.url[..|a.serverUrl|];
    assert |a.serverUrl| == |b.serverUrl|;
    assert b.serverUrl == rb.url[..|b.serverUrl|];
  }

  /** What the JWT decoder makes of a token, and what the token server
      answers to an exchange (its `access_token`, or the failure). */
  datatype Oracles = Oracles(decode: Decoder, exchange: TokenRequest -> Result<Token>)

  /** One authentication step: its result, the token map afterwards and the
      exchanges it performed, in order. */
  datatype Step<+T> = Step(result: Result<T>, tokens: Tokens, exchanges: seq<TokenRequest>)

  /** A cache hit: a non-empty token that has not expired at `now`. */
  predicate IsCacheHit(o: Oracles, tokens: Tokens, clientId: ClientId, now: int)
  {
    clientId in tokens && tokens[clientId] != "" && HasTokenExpired(o.decode, tokens[clientId], now) == Ok(false)
  }

  /** A cached token the cache refuses to renew: non-empty, yet its expiry cannot be read. */
  predicate IsUnreadable(o: Oracles, tokens: Tokens, clientId: ClientId)
  {
    clientId in tokens && tokens[clientId] != "" && ExpirationMillis(o.decode, tokens[clientId]).Err?
  }

  function GetSpaceToken(tokens: Tokens, client: SpaceClient, now: int, o: Oracles): (s: Step<Token>)
    ensures |s.exchanges| <= 1
    // entries of other clients are never touched
    ensures s.tokens - {client.clientId} == tokens - {client.clientId}
    // a hit returns the cached token, with no exchange and no change
    ensures IsCacheHit(o, tokens, client.clientId, now) ==> s == Step(Ok(tokens[client.clientId]), tokens, [])
    // a cached token is returned only when it has not expired
    ensures s.result.Ok? && s.exchanges == [] ==> IsCacheHit(o, tokens, client.clientId, now)
    // an unreadable cached token fails the call and is kept
    ensures IsUnreadable(o, tokens, client.clientId) ==>
      s == Step(Err(ExpirationMillis(o.decode, tokens[client.clientId]).error), tokens, [])
    // otherwise exactly one exchange, whose token replaces the entry
    ensures s.exchanges == [] <==> IsCacheHit(o, tokens, client.clientId, now) || IsUnreadable(o, tokens, client.clientId)
    ensures s.exchanges != [] ==> s.exchanges == [ExchangeRequest(client)] && s.result == o.exchange(ExchangeRequest(client))
    ensures s.exchanges != [] && s.result.Ok? ==> s.tokens == tokens[client.clientId := s.result.value]
    ensures s.result.Err? ==> s.tokens == tokens
  {
    var id := client.clientId;
    if id in tokens && tokens[id] != "" && HasTokenExpired(o.decode, tokens[id], now) != Ok(true) then
      match HasTokenExpired(o.decode, tokens[id], now)
      case Err(e) => Step(Err(e), tokens, [])
      case Ok(_) => Step(Ok(tokens[id]), tokens, [])
    else
      var request := ExchangeRequest(client);
      match o.exchange(request)
      case Err(e) => Step(Err(e), tokens, [request])
      case Ok(token) => Step(Ok(token), tokens[id := token], [request])
  }

  /** A token obtained by a call serves every later call during its validity. */
  lemma TokenReusedWhileValid(tokens: Tokens, client: SpaceClient, now: int, later: int, o: Oracles)
    requires GetSpaceToken(tokens, client, now, o).result.Ok?
    requires GetSpaceToken(tokens, client, now, o).result.value != ""
    requires HasTokenExpired(o.decode, GetSpaceToken(tokens, client, now, o).result.value, later) == Ok(false)
    ensures var first := GetSpaceToken(tokens, client, now, o);
      GetSpaceToken(first.tokens, client, later, o) == Step(first.result, first.tokens, [])
  {
  }

  /** An expired cached token is renewed with exactly one exchange. */
  lemma ExpiredTokenRenewedOnce(tokens: Tokens, client: SpaceClient, now: int, o: Oracles)
    requires client.clientId in tokens && tokens[client.clientId] != ""
    requires HasTokenExpired(o.decode, tokens[client.clientId], now) == Ok(true)
    ensures GetSpaceToken(tokens, client, now, o).exchanges == [ExchangeRequest(client)]
  {
  }

  /** An empty token (also what an answer without `access_token` leaves) is
      never served: every call exchanges again. */
  lemma EmptyTokenAlwaysRenewed(tokens: Tokens, client: SpaceClient, now: int, o: Oracles)
    requires client.clientId in tokens && tokens[client.clientId] == ""
    ensures GetSpaceToken(tokens, client, now, o).exchanges == [ExchangeRequest(client)]
  {
  }

  /** A cached token whose expiry cannot be read blocks the client for good:
      every later call fails the same way and nothing is ever exchanged. */
  lemma UnreadableTokenBlocksClient(tokens: Tokens, client: SpaceClient, now: int, later: int, o: Oracles)
    requires IsUnreadable(o, tokens, client.clientId)
    ensures var first := GetSpaceToken(tokens, client, now, o);
      && first.result.Err?
      && GetSpaceToken(first.tokens, client, later, o) == first
  {
  }
}
