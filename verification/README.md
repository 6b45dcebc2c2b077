# A Dafny model of the Space chat-bot core

The bot answers webhooks from a JetBrains Space workspace. It looks up a
question on a StackExchange site and posts the best answer back to the
channel. This project models the three pieces of sequential logic in it and
proves properties about them:

- **Authentication and the token cache.** The sources are
  `src/space/space.service.ts` and its older copy `src/app.service.ts`, which
  is the copy the controller uses.
  - A registration store maps a client id to `(clientSecret, serverUrl)`.
  - An in-memory map holds one access token per client id.
  - `getSpaceToken` reuses a cached token while it is non-empty and
    unexpired. A cached token whose expiry cannot be read (undecodable, or
    without an `exp` claim) makes the call fail with no exchange. A missing,
    empty or expired token costs one client-credentials exchange, and the
    new token is stored.
  - Both services share one model of this logic (module `TokenCache`).
    Module `SpaceService` holds both `authenticate` overloads. Module
    `AppService` holds `authenticateToSpace`. A lemma shows the two copies
    build the same session.
- **The site catalogue and the reply** (`src/stack-exchante/stack-exchange.service.ts`):
  - the main-site filter;
  - lookup by slug;
  - the two searches, each of which takes the first item of its list;
  - the composition of the reply text.
- **The webhook handler** (`src/app.controller.ts`):
  - dispatch on `className`;
  - the `site:` token pattern `(?:^|\W)site:(\w+)(?:\W|$)`, written as an
    explicit scanner (module `SiteToken`). Its first match gives the slug,
    and its global replacement by a space gives the search text. A
    JavaScript string is a sequence of UTF-16 code units, and a pattern
    without the `u` flag matches it unit by unit. So the scanner reads the
    message's UTF-16 form (module `Utf16`). A character above U+FFFF is two
    non-word units there: as a separator it is consumed one unit at a time;
  - the error policy. A search observable that errors is replaced by the
    fallback text. An unknown slug throws before the fallback is attached,
    so it fails the request.

The model is functional. The store and the token map form an explicit
`State` that each call threads through and returns. The clock is a plain
parameter `now`, in milliseconds, of each call. These other outside parts are
arrow-typed fields of `TokenCache.Oracles` and `StackExchange.SearchEnv`:

- the JWT decoder;
- the token server;
- the two search endpoints;
- the HTML-to-Markdown translator.

Each call returns the token exchanges, search requests and channel messages
it issued, so the contracts can count them.

An installation only stores the registration. A message is parsed only
for its `site:` token. The answer body is posted whole.

## Model

| member | source | states |
|---|---|---|
| Expiry.ExpirationMillis | src/space/space.service.ts:27-33 | the expiry is `exp * 1000`; an undecodable token or an absent or zero `exp` fails, the latter with "Token has no expiration time!" |
| Expiry.HasTokenExpired | src/space/space.service.ts:22-25 | a token is expired exactly when `exp * 1000 < now`; decoding errors propagate |
| Expiry.ValidAtExpiryInstant | src/app.service.ts:22-25 | the comparison is strict: a token is still valid at `now == exp * 1000` and expired one millisecond later |
| Expiry.MissingExpFails | src/app.service.ts:27-31 | a payload without a usable `exp` makes the expiry check fail at every instant |
| Expiry.ExpiryIsPermanent | src/space/space.service.ts:22-25 | once a token has expired it stays expired at every later instant |
| Expiry.HasTokenExpiredAsWritten | src/space/space.service.ts:22-32 | the code's comparison goes through a Date; when it says expired, `exp * 1000 < now` holds |
| Expiry.AsWrittenAgreesInDateRange | src/space/space.service.ts:22-32 | for a valid `now` and an expiry not before the earliest time value, the code agrees with the intended rule |
| Expiry.AsWrittenAcceptsFarPastExpiry | src/space/space.service.ts:22-32 | a token with `exp = -8640000000001` is expired by the rule but passes the code's check |
| Space.QueryClient | src/space/space.service.ts:49-54 | the lookup succeeds exactly for stored ids and returns the stored secret and server URL, with the id it was read under |
| Space.StoreClient | src/space/space.service.ts:43-47 | storing is an upsert: the next lookup of that id returns the client just stored, and every other id reads as before |
| Space.LastStoreWins | src/app.service.ts:43-54 | storing the same id twice leaves one record with the latest values |
| TokenCache.ExchangeRequest | src/space/space.service.ts:97-101 | the exchange is posted to the client's own server URL followed by `/oauth/token`, authenticated with the client's id and secret, with the client-credentials grant for scope `**` |
| TokenCache.ExchangeRequestDeterminesClient | src/space/space.service.ts:97-101 | two different registrations never issue the same exchange, so credentials only go to their own server |
| TokenCache.GetSpaceToken | src/space/space.service.ts:92-105 | a non-empty unexpired cached token is returned with no exchange and no change; an unreadable one fails the call; otherwise exactly one exchange with the client's credentials, whose token replaces only this client's entry |
| TokenCache.TokenReusedWhileValid | src/space/space.service.ts:93-96 | a token obtained by one call serves every later call, with no exchange, for as long as it is unexpired |
| TokenCache.ExpiredTokenRenewedOnce | src/space/space.service.ts:97-104 | an expired cached token triggers exactly one exchange |
| TokenCache.EmptyTokenAlwaysRenewed | src/space/space.service.ts:93-94 | an empty cached token is never served: every call exchanges |
| TokenCache.UnreadableTokenBlocksClient | src/space/space.service.ts:93-96 | a cached token whose expiry cannot be read makes every later call fail the same way, and it is never replaced |
| SpaceService.AuthenticateWithClient | src/space/space.service.ts:72-75 | the session holds the record's client id and server URL, and the cached or freshly exchanged token; at most one exchange; other entries untouched. A valid cached token always becomes a session with no exchange. An unreadable one fails with its expiry error. After an exchange the call succeeds exactly when the exchange does, and a failed exchange's error is passed on with the cache unchanged |
| SpaceService.Authenticate | src/space/space.service.ts:60-70 | an unregistered id fails with "Unregistered clientId!" with no exchange and no change; a registered id authenticates exactly as the by-record overload does with its stored record; a session carries the id and the stored server URL |
| SpaceService.WithClientNeedsNoRegistration | src/space/space.service.ts:56-76 | the by-record overload exchanges even for a client that was never stored, where the by-id overload fails |
| AppService.AuthenticateToSpace | src/app.service.ts:56-68 | an unregistered id fails before any exchange; the session's client id is the argument and its server URL the stored one; other entries untouched |
| AppService.SameAsSpaceService | src/app.service.ts:63-64 | taking the id from the argument or from the record gives the same result, because the record read back carries its key |
| AppService.CacheHitNeedsNoExchange | src/app.service.ts:82-85 | a registered client with a valid cached token gets it with no exchange and no cache change |
| AppService.MissRenewsOnce | src/app.service.ts:86-93 | a miss, an empty token or an expired one costs exactly one exchange with the stored credentials; on success only this client's entry changes |
| AppService.SecondCallWithinValidityHitsCache | src/app.service.ts:81-94 | a second authentication within the token's validity returns the same session and exchanges nothing |
| AppService.StoredRegistrationIsUsed | src/app.service.ts:43-68 | after storing a client, authentication uses exactly its server URL and credentials |
| StackExchange.Sites | src/stack-exchante/stack-exchange.service.ts:31-38 | the catalogue holds a site for every `main_site` entry and nothing else, fields mapped name/site_url/api_site_parameter/audience |
| StackExchange.SitesOfConcat | src/stack-exchante/stack-exchange.service.ts:31-38 | the catalogue of a concatenation is the concatenation of the catalogues, so the raw order is kept |
| StackExchange.SitesOfOne | src/stack-exchante/stack-exchange.service.ts:32-33 | one entry contributes its mapped site exactly when it is a main site |
| StackExchange.FindBySlug | src/stack-exchante/stack-exchange.service.ts:43 | the search finds the first position whose slug matches, or reports that none does |
| StackExchange.GetSiteBySlug | src/stack-exchante/stack-exchange.service.ts:42-48 | it fails with "Site not found!" exactly when no site has the slug; otherwise it returns the first site with that slug |
| StackExchange.SearchRelevantQuestion | src/stack-exchante/stack-exchange.service.ts:71-79 | the question is the first item the search returns for the query on the site's slug; an empty list fails |
| StackExchange.SearchBestAnswer | src/stack-exchante/stack-exchange.service.ts:81-89 | the answer is the first item returned for the question on the site's slug; an empty list fails |
| StackExchange.SearchAnswer | src/stack-exchante/stack-exchange.service.ts:50-69 | an unknown slug throws with no request issued. Otherwise the question search comes first. When it fails, its error is emitted after that one request. When it finds a question, the answer lookup for that question's id on the same slug follows. Its error is emitted, or else the reply composed from the site, the question and the first answer |
| StackExchange.UnknownSlugAsksNothing | src/stack-exchante/stack-exchange.service.ts:51 | with an unknown slug the outcome does not depend on what the endpoints would answer |
| StackExchange.EmptyResultsEmitError | src/stack-exchante/stack-exchange.service.ts:71-77 | an empty question list makes the observable emit an error after the single search request |
| StackExchange.NoAnswerEmitsError | src/stack-exchante/stack-exchange.service.ts:81-89 | a question without answers makes the observable emit an error after both requests |
| StackExchange.Reply | src/stack-exchante/stack-exchange.service.ts:58-66 | read line by line, the reply is the lines of the header naming the site, a blank line, the lines of the question title, a blank line, the lines of the translated quoted body, a blank line and the lines of the source link `siteUrl/a/answerId`; when the site name, title, site URL and answer id hold no newline, the header, the title and the source link are one line each |
| StackExchange.ReplyStartsWithHeader | src/stack-exchante/stack-exchange.service.ts:59 | every reply opens with the header naming its site |
| SiteToken.WordRunEnd | src/app.controller.ts:29 | `\w+` is greedy: the run found is maximal |
| SiteToken.MatchAt | src/app.controller.ts:29 | what the scanner reports at a position is a match of the pattern starting there |
| SiteToken.MatchAtFinds | src/app.controller.ts:29 | every match of the pattern is reported, whole, at its start |
| SiteToken.MatchUnique | src/app.controller.ts:29 | at most one match starts at a position |
| SiteToken.FirstMatchFrom | src/app.controller.ts:29-30 | the scan reports the leftmost match at or after a position, or that there is none |
| SiteToken.WordText | src/app.controller.ts:29 | a captured run of word units is read back as the text whose UTF-16 form it is |
| SiteToken.ExtractSlug | src/app.controller.ts:29 | the slug is the captured word of the leftmost match, or `stackoverflow` when there is no match; it is always a non-empty word |
| SiteToken.ReplaceFrom | src/app.controller.ts:30 | the replacement never lengthens the text, and it leaves the text unchanged exactly when the scan finds no match from that position on |
| SiteToken.StripSiteTokens | src/app.controller.ts:30 | a message is searched unchanged exactly when it holds no `site:` token |
| SiteToken.ReplaceFromLeftmost | src/app.controller.ts:30 | from any position, the leftmost match at or after it, with its separators, becomes one blank unit; the text before it is kept and the replacement goes on from the match's end, so every later match of the global replacement is replaced too |
| SiteToken.StripReplacesFirstMatch | src/app.controller.ts:30 | the leftmost match, with its separators, becomes one blank unit, and the scan resumes after it |
| SiteToken.AdjacentTokensKeepSecond | src/app.controller.ts:29-30 | in `site:x` + one non-word unit + `site:y`, the slug is `x` and only the first token is removed: the unit separating them is consumed by the first match |
| SiteToken.TwoUnitSeparatorRemovesBoth | src/app.controller.ts:29-30 | in `site:x` + two non-word units + `site:y`, both tokens are replaced, each by one blank unit |
| SiteToken.AstralSeparatorRemovesBoth | src/app.controller.ts:29-30 | a character above U+FFFF between two tokens is two units, so both tokens are removed, leaving two blank units |
| SiteToken.TokenAfterTwoSeparators | src/app.controller.ts:29-30 | after two non-word units, a token's match opens with the second one: the first unit is kept in front of the blank |
| SiteToken.AstralBeforeTokenLeavesHighSurrogate | src/app.controller.ts:29-30 | a character above U+FFFF right before a token loses its low surrogate to the match, leaving its high surrogate alone before the blank |
| SiteToken.TokenInsideQuestion | src/app.controller.ts:29-30 | a token between two words yields its slug and leaves the two words joined by one blank unit |
| Utf16.EncodeChar | src/app.controller.ts:29-30 | a character below U+10000 is one unit; a character above is a high and a low surrogate that together stand for it |
| Utf16.DecodeEncode | src/app.controller.ts:29-30 | the UTF-16 form of a text decodes back to the text, so the scanner sees the whole message |
| Utf16.EncodeConcat | src/app.controller.ts:29-30 | the UTF-16 form of a concatenation is the concatenation of the forms |
| AppController.DataFromSpace | src/app.controller.ts:15-42 | an unknown `className` does nothing; an installation only upserts the registration; authentication precedes any search, and when it fails nothing is searched or sent; a message keeps the token map and reports the exchanges that authentication left, so at most one exchange; at most one message, to the originating channel |
| AppController.MessageOutcome | src/app.controller.ts:27-39 | a search error is replaced by the fallback text; a found answer is posted as is; an unknown slug fails the request with nothing sent |
| AppController.FallbackIsNotAnAnswer | src/app.controller.ts:35 | no composed reply equals the fallback text |
| AppController.PlainMessageSearchesDefaultSite | src/app.controller.ts:29-32 | a message with no `site:` token is searched whole on `stackoverflow` |
| AppController.UnknownSlugSendsNothing | src/app.controller.ts:29-33 | a slug no main site carries fails the request, with no search and no message |
| AppController.NoQuestionSendsFallback | src/app.controller.ts:32-37 | a search with no question sends the fallback text once to the originating channel and completes |
| AppController.SecondMessageWithinValidityExchangesNothing | src/app.controller.ts:27-28 | a token obtained while handling one message serves the next message from that client with no exchange, for as long as it is valid |
| AppController.ReinstallKeepsLatest | src/app.controller.ts:16-20 | installing twice keeps one record, holding the latest secret and server URL |

## Findings

| source | as written | input that shows it | evidently intended | confidence | as-written member | corrected member |
|---|---|---|---|---|---|---|
| src/space/space.service.ts:22-32 | `new Date(payload.exp * 1e3).getTime() < Date.now()`. The Date of an out-of-range time value is Invalid, `getTime()` is NaN, and `NaN < now` is false | a token with `exp = -8640000000001` at `now = 0` counts as unexpired, so the cache serves it | a token is expired exactly when `exp * 1000 < now` | low (only absurdly early expiries are affected); not executed | Expiry.HasTokenExpiredAsWritten, Expiry.AsWrittenAcceptsFarPastExpiry | Expiry.HasTokenExpired, used by TokenCache.GetSpaceToken |

## Left out

- Firestore: `storeClient` and `queryClient` are a map update and a map lookup. Store read and write failures and the `defer` laziness are not modelled.
- HTTP transport: `sendMessageToChannel`, `sendMessageToUser`, `sendMessageToSpaceChannel`, `post` and `request` are not modelled. A sent message is recorded as a `ChannelMessage` (session, channel, text). Failure to deliver it, which would fail the request, is not modelled.
- Search request details: the API base URL and the fixed query parameters (`order`, `sort`, `answers`, `filter`) are not modelled. A request carries only the query text or question id, and the site slug.
- `jwtDecode` is an oracle `Token -> Option<Claims>`. No JWT parsing and no signature checks.
- `exp`: only integer values are modelled. Fractional or non-numeric claims are out of scope, and so is floating-point rounding of `exp * 1e3`, which is exact throughout the range where the Date is valid.
- `NodeHtmlMarkdown.translate` is an uninterpreted `string -> string`.
- An exchange response without `access_token`: the code stores `undefined`. The model stores the empty token, which is equally falsy in the cache test. The session would carry `undefined` and the model carries the empty token.
- Question and answer ids are strings. The API returns numbers, and the code interpolates them into text.
- Malformed webhook bodies (a missing `message` or `body` field raising a TypeError) are not modelled. The body is a flat record of the fields the handler reads.
- Concurrent webhooks and renewal races on the token map are not modelled. Calls are sequential and the last writer wins.
- Logging (`console.error`) is not modelled.
- Lone surrogates: a message text is a sequence of Unicode characters, and the scanner reads its UTF-16 form. A JSON body that carries an unpaired surrogate escape has no such form and is not modelled.
- `src/main.ts` and `src/app.module.ts` (bootstrap and wiring) are not modelled. `src/app.controller.spec.ts` holds no assertions. The contents of `sites.json` are a parameter.
