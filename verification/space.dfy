/** The records both authentication services share: the registration of a
    client, the session handed to callers, and the state threaded through
    authentication (the registration store and the in-memory token map). */
module Space {
  import opened Common
  import opened Expiry

  type ClientId = string

  /** A registration as the services see it (`SpaceClient`). */
  datatype SpaceClient = SpaceClient(clientId: ClientId, clientSecret: string, serverUrl: string)

  /** An authenticated context for calls to the chat server (`SpaceSession`). */
  datatype SpaceSession = SpaceSession(clientId: ClientId, serverUrl: string, accessToken: Token)

  /** The stored document; its key is the client id, which is not a field. */
  datatype Document = Document(clientSecret: string, serverUrl: string)

  type Store = map<ClientId, Document>

  type Tokens = map<ClientId, Token>

  datatype State = State(store: Store, tokens: Tokens)

  /** `queryClient`: the stored record, completed with the key it was read under. */
  function QueryClient(store: Store, clientId: ClientId): (r: Option<SpaceClient>)
    ensures r.Some? <==> clientId in store
    ensures r.Some? ==> r.value.clientId == clientId
    ensures r.Some? ==> Document(r.value.clientSecret, r.value.serverUrl) == store[clientId]
  {
    if clientId in store then
      Some(SpaceClient(clientId, store[clientId].clientSecret, store[clientId].serverUrl))
    else
      None
  }

  /** `storeClient`: an upsert keyed by the client id. */
  function StoreClient(store: Store, client: SpaceClient): (r: Store)
    ensures r.Keys == store.Keys + {client.clientId}
    ensures QueryClient(r, client.clientId) == Some(client)
    ensures forall id :: id != client.clientId ==> QueryClient(r, id) == QueryClient(store, id)
  {
    store[client.clientId := Document(client.clientSecret, client.serverUrl)]
  }

  /** Storing the same client twice leaves one record holding the latest values. */
  lemma LastStoreWins(store: Store, first: SpaceClient, second: SpaceClient)
    requires first.clientId == second.clientId
    ensures StoreClient(StoreClient(store, first), second) == StoreClient(store, second)
    ensures |StoreClient(StoreClient(store, first), second)| == |StoreClient(store, first)|
  {
  }
}
