/** `AppController.dataFromSpace`: the webhook handler. It dispatches on the
    payload's `className`, stores registrations, and answers messages. */
module AppController {
  import opened Common
  import opened Expiry
  import opened Space
  import opened TokenCache
  import opened AppService
  import opened StackExchange
  import opened SiteToken
  import opened Utf16

  /** The fields of a webhook body the handler reads (`message.channelId`
      and `message.body.text` are flattened). */
  datatype Body = Body(
    className: string,
    clientId: string,
    clientSecret: string,
    serverUrl: string,
    channelId: string,
    text: string)

  datatype Env = Env(space: Oracles, search: SearchEnv)

  /** A message posted to a channel on behalf of a session. */
  datatype ChannelMessage = ChannelMessage(session: SpaceSession, channelId: string, text: string)

  /** What the handler's observable does: no observable at all
      (`undefined`), completes, or fails with an error. */
  datatype Response = Undefined | Completed | Failed(error: Error)

  /** The handling of one webhook: its reply, the state afterwards, and the
      token exchanges, search requests and channel messages it issued. */
  datatype Handled = Handled(
    response: Response,
    state: State,
    exchanges: seq<TokenRequest>,
    searches: seq<Request>,
    sent: seq<ChannelMessage>)

  /** The emoji shortcode that closes the fallback reply. */
  const RollingEyes: string := ":face_with_rolling_eyes:"

  /** The fixed reply sent when the search fails. It is written in pieces
      because the verifier reads characters only out of short literals, and
      `FallbackIsNotAnAnswer` needs its first one. */
  const FallbackText: string := "Unfortunately I didn't find " + "an answer for you " + RollingEyes

  predicate IsInit(body: Body) { body.className == "InitPayload" }

  predicate IsMessage(body: Body) { body.className == "MessagePayload" }

  function DataFromSpace(st: State, body: Body, now: int, env: Env): (h: Handled)
    // an unknown payload does nothing
    ensures !IsInit(body) && !IsMessage(body) ==> h == Handled(Undefined, st, [], [], [])
    // an installation only stores the registration
    ensures IsInit(body) ==>
      && h.response == Completed
      && h.state.tokens == st.tokens
      && QueryClient(h.state.store, body.clientId) == Some(SpaceClient(body.clientId, body.clientSecret, body.serverUrl))
      && (forall id :: id != body.clientId ==> QueryClient(h.state.store, id) == QueryClient(st.store, id))
      && h.exchanges == [] && h.searches == [] && h.sent == []
    // a message never changes the registrations; the token map and the
    // exchanges are authentication's, so a refreshed token is kept
    ensures IsMessage(body) ==> h.state.store == st.store
    ensures IsMessage(body) ==>
      var auth := AuthenticateToSpace(st, body.clientId, now, env.space);
      h.state.tokens == auth.tokens && h.exchanges == auth.exchanges
    ensures |h.exchanges| <= 1
    // at most one message, always to the originating channel
    ensures |h.sent| <= 1
    ensures h.sent != [] ==> IsMessage(body) && h.sent[0].channelId == body.channelId && h.response == Completed
    // authentication comes first; when it fails nothing else happens
    ensures h.searches != [] ==> IsMessage(body) && AuthenticateToSpace(st, body.clientId, now, env.space).result.Ok?
    ensures IsMessage(body) && AuthenticateToSpace(st, body.clientId, now, env.space).result.Err? ==>
      h.response == Failed(AuthenticateToSpace(st, body.clientId, now, env.space).result.error) && h.searches == [] && h.sent == []
    // the search is for the stripped text on the slug the text names
    ensures h.searches != [] ==> h.searches[0] == SearchAdvanced(QuestionQuery(StripSiteTokens(Encode(body.text)), ExtractSlug(Encode(body.text))))
  {
    if IsInit(body) then
      var client := SpaceClient(body.clientId, body.clientSecret, body.serverUrl);
      Handled(Completed, State(StoreClient(st.store, client), st.tokens), [], [], [])
    else if IsMessage(body) then
      var auth := AuthenticateToSpace(st, body.clientId, now, env.space);
      var st' := State(st.store, auth.tokens);
      match auth.result
      case Err(e) => Handled(Failed(e), st', auth.exchanges, [], [])
      case Ok(session) =>
        var units := Encode(body.text);
        var slug := ExtractSlug(units);
        var question := StripSiteTokens(units);
        var search := SearchAnswer(question, slug, env.search);
        match search.call
        case Threw(e) => Handled(Failed(e), st', auth.exchanges, search.requests, [])
        case Emitted(answer) =>
          var text := if answer.Ok? then answer.value else FallbackText;
          Handled(Completed, st', auth.exchanges, search.requests, [ChannelMessage(session, body.channelId, text)])
    else
      Handled(Undefined, st, [], [], [])
  }

  /** A message that authenticates: every search failure becomes the one
      fallback message, a found answer is posted as is, and an unknown slug
      fails the request with nothing sent, because `searchAnswer` throws
      before the fallback is attached. */
  lemma MessageOutcome(st: State, body: Body, now: int, env: Env)
    requires IsMessage(body)
    requires AuthenticateToSpace(st, body.clientId, now, env.space).result.Ok?
    ensures var h := DataFromSpace(st, body, now, env);
      var session := AuthenticateToSpace(st, body.clientId, now, env.space).result.value;
      var search := SearchAnswer(StripSiteTokens(Encode(body.text)), ExtractSlug(Encode(body.text)), env.search);
      && h.searches == search.requests
      && (search.call.Threw? ==> h.response == Failed(SiteNotFound) && h.sent == [])
      && (search.call.Emitted? && search.call.emission.Err? ==>
            h.response == Completed && h.sent == [ChannelMessage(session, body.channelId, FallbackText)])
      && (search.call.Emitted? && search.call.emission.Ok? ==>
            h.response == Completed && h.sent == [ChannelMessage(session, body.channelId, search.call.emission.value)])
  {
  }

  /** The fallback text is recognisable: no found answer reads the same. */
  lemma FallbackIsNotAnAnswer(site: Site, question: Question, answer: Answer, translate: string -> string)
    ensures Reply(site, question, answer, translate) != FallbackText
  {
    ReplyStartsWithHeader(site, question, answer, translate);
    assert Reply(site, question, answer, translate)[0] == Header(site.name)[0] == 'B';
    assert FallbackText[0] == 'U';
  }

  /** A message without a `site:` token is searched whole on the default site. */
  lemma PlainMessageSearchesDefaultSite(st: State, body: Body, now: int, env: Env)
    requires IsMessage(body)
    requires AuthenticateToSpace(st, body.clientId, now, env.space).result.Ok?
    requires forall m :: !IsMatch(Encode(body.text), m)
    requires exists site :: site in env.search.sites && site.slug == DefaultSlug
    ensures DataFromSpace(st, body, now, env).searches[0] == SearchAdvanced(QuestionQuery(Encode(body.text), DefaultSlug))
  {
  }

  /** A slug no main site carries fails the request: no search, no message. */
  lemma UnknownSlugSendsNothing(st: State, body: Body, now: int, env: Env)
    requires IsMessage(body)
    requires AuthenticateToSpace(st, body.clientId, now, env.space).result.Ok?
    requires forall site :: site in env.search.sites ==> site.slug != ExtractSlug(Encode(body.text))
    ensures var h := DataFromSpace(st, body, now, env);
      h.response == Failed(SiteNotFound) && h.searches == [] && h.sent == []
  {
  }

  /** A search that finds no question sends exactly the fallback, once, to
      the originating channel, and the request completes. */
  lemma NoQuestionSendsFallback(st: State, body: Body, now: int, env: Env, site: Site)
    requires IsMessage(body)
    requires AuthenticateToSpace(st, body.clientId, now, env.space).result.Ok?
    requires GetSiteBySlug(env.search.sites, ExtractSlug(Encode(body.text))) == Ok(site)
    requires env.search.questions(QuestionQuery(StripSiteTokens(Encode(body.text)), site.slug)) == Ok([])
    ensures var h := DataFromSpace(st, body, now, env);
      && h.response == Completed
      && |h.sent| == 1
      && h.sent[0].channelId == body.channelId
      && h.sent[0].text == FallbackText
  {
  }

  /** The token a message obtained serves the next message from the same
      client while it is valid: that one exchanges nothing. */
  lemma SecondMessageWithinValidityExchangesNothing(st: State, first: Body, second: Body, now: int, later: int, env: Env)
    requires IsMessage(first) && IsMessage(second) && first.clientId == second.clientId
    requires AuthenticateToSpace(st, first.clientId, now, env.space).result.Ok?
    requires AuthenticateToSpace(st, first.clientId, now, env.space).result.value.accessToken != ""
    requires HasTokenExpired(env.space.decode, AuthenticateToSpace(st, first.clientId, now, env.space).result.value.accessToken, later) == Ok(false)
    ensures DataFromSpace(DataFromSpace(st, first, now, env).state, second, later, env).exchanges == []
  {
    SecondCallWithinValidityHitsCache(st, first.clientId, now, later, env.space);
  }

  /** Installing twice keeps one record, with the latest values. */
  lemma ReinstallKeepsLatest(st: State, first: Body, second: Body, now: int, env: Env)
    requires IsInit(first) && IsInit(second) && first.clientId == second.clientId
    ensures var h := DataFromSpace(DataFromSpace(st, first, now, env).state, second, now, env);
      && h.state.store.Keys == st.store.Keys + {second.clientId}
      && QueryClient(h.state.store, second.clientId) == Some(SpaceClient(second.clientId, second.clientSecret, second.serverUrl))
  {
  }
}
