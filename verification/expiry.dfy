/** The token expiry helpers shared by both authentication services
    (`hasTokenExpired` and `getTokenExpirationDate`). */
module Expiry {
  import opened Common

  type Token = string

  /** The part of a decoded JWT payload the bot reads. */
  datatype Claims = Claims(exp: Option<int>)

  /** The JWT decoder: None when the token does not decode at all. */
  type Decoder = Token -> Option<Claims>

  /** `!payload.exp` rejects both an absent claim and the number 0. */
  predicate HasUsableExp(c: Claims)
  {
    c.exp.Some? && c.exp.value != 0
  }

  /** The token's expiry in milliseconds since the epoch (`exp * 1e3`). */
  function ExpirationMillis(decode: Decoder, token: Token): (r: Result<int>)
    ensures r.Ok? <==> decode(token).Some? && HasUsableExp(decode(token).value)
    ensures r.Ok? ==> r.value == decode(token).value.exp.value * 1000
    ensures r.Ok? ==> r.value != 0 && r.value % 1000 == 0
    ensures decode(token).None? ==> r == Err(UndecodableToken)
    ensures decode(token).Some? && !HasUsableExp(decode(token).value) ==> r == Err(NoExpirationTime)
  {
    match decode(token)
    case None => Err(UndecodableToken)
    case Some(claims) =>
      if !HasUsableExp(claims) then Err(NoExpirationTime) else Ok(claims.exp.value * 1000)
  }

  /** Whether the token has expired at instant `now` (milliseconds): strictly
      before `now`, so a token whose expiry equals `now` is still valid. */
  function HasTokenExpired(decode: Decoder, token: Token, now: int): (r: Result<bool>)
    ensures r.Err? <==> ExpirationMillis(decode, token).Err?
    ensures r.Err? ==> r.error == ExpirationMillis(decode, token).error
    ensures r.Ok? ==> (r.value <==> decode(token).value.exp.value * 1000 < now)
  {
    match ExpirationMillis(decode, token)
    case Err(e) => Err(e)
    case Ok(ms) => Ok(ms < now)
  }

  /** The largest magnitude of a JavaScript time value (TimeClip). */
  const MaxTimeValue: int := 8_640_000_000_000_000

  /** `new Date(ms).getTime()`: the time value, or None for the NaN of an
      Invalid Date when `ms` is out of range. */
  function DateTime(ms: int): Option<int>
  {
    if -MaxTimeValue <= ms <= MaxTimeValue then Some(ms) else None
  }

  /** `hasTokenExpired` as the code computes it: the comparison goes through
      a Date, and `NaN < now` is false. */
  function HasTokenExpiredAsWritten(decode: Decoder, token: Token, now: int): (r: Result<bool>)
    ensures r.Err? <==> ExpirationMillis(decode, token).Err?
    ensures r.Ok? && r.value ==> decode(token).value.exp.value * 1000 < now
  {
    match ExpirationMillis(decode, token)
    case Err(e) => Err(e)
    case Ok(ms) =>
      match DateTime(ms)
      case None => Ok(false)
      case Some(t) => Ok(t < now)
  }

  /** Once expired, a token stays expired. */
  lemma ExpiryIsPermanent(decode: Decoder, token: Token, now: int, later: int)
    requires now <= later
    requires HasTokenExpired(decode, token, now) == Ok(true)
    ensures HasTokenExpired(decode, token, later) == Ok(true)
  {
  }

  /** A token is still valid at the very millisecond of its expiry. */
  lemma ValidAtExpiryInstant(decode: Decoder, token: Token, exp: int)
    requires decode(token) == Some(Claims(Some(exp)))
    requires exp != 0
    ensures HasTokenExpired(decode, token, exp * 1000) == Ok(false)
    ensures HasTokenExpired(decode, token, exp * 1000 + 1) == Ok(true)
  {
  }

  /** An absent or zero `exp` claim makes the check fail, whatever the time. */
  lemma MissingExpFails(decode: Decoder, token: Token, now: int)
    requires decode(token).Some? && !HasUsableExp(decode(token).value)
    ensures HasTokenExpired(decode, token, now) == Err(NoExpirationTime)
  {
  }

  /** With a valid `now`, the code agrees with the intended rule unless the
      expiry lies before the earliest time value. */
  lemma AsWrittenAgreesInDateRange(decode: Decoder, token: Token, now: int)
    requires -MaxTimeValue <= now <= MaxTimeValue
    requires ExpirationMillis(decode, token).Ok? ==> -MaxTimeValue <= ExpirationMillis(decode, token).value
    ensures HasTokenExpiredAsWritten(decode, token, now) == HasTokenExpired(decode, token, now)
  {
  }

  /** A token that expired before the earliest time value passes as unexpired. */
  lemma AsWrittenAcceptsFarPastExpiry()
    ensures var decode: Decoder := _ => Some(Claims(Some(-8_640_000_000_001)));
      && HasTokenExpired(decode, "t", 0) == Ok(true)
      && HasTokenExpiredAsWritten(decode, "t", 0) == Ok(false)
  {
  }
}
