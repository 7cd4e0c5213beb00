/** The process-wide access-token cache and the refresh-token exchange that fills it
    (the OAuth 2.0 refresh-token grant, section 6 of RFC 6749, against the token endpoint
    named by OpenID Connect Discovery 1.0, section 4). Times are milliseconds since the
    epoch, as `Date.now()` reports them. The network is an abstract `TokenReply`. */
module TokenCache {
  import opened Wrappers
  import opened JsNumbers
  import opened JsValues

  /** A cached token and the instant from which it must no longer be served. */
  datatype Entry = Entry(token: Value, expiresAt: Num)

  /** What the discovery request and the token request delivered. */
  datatype TokenReply =
    | DiscoveryFailed(reason: string)       // discovery unreachable, unparsable or without a usable endpoint
    | TokenRequestFailed(reason: string)    // the token request itself errored
    | TokenResponse(status: int, body: string)

  datatype TokenError =
    | DiscoveryError(reason: string)
    | TokenRequestError(reason: string)
    | TokenParseError                       // "Failed to parse token response"
    | TokenStatusError(status: int, body: string)  // "Token request failed: <status> <body>"
    | TokenDataMissing                      // reading `expires_in` of a `null` token document throws

  /** The sweep deletes an entry once `now >= expiresAt`. */
  predicate Expired(e: Entry, now: int) {
    GreaterEq(Fin(now as real), e.expiresAt)
  }

  /** The cache serves an entry while `now < expiresAt`. */
  predicate Live(e: Entry, now: int) {
    Less(Fin(now as real), e.expiresAt)
  }

  /** The cache after the sweep at `now`: expired entries are gone, every other entry is
      kept unchanged, and nothing is added. */
  function Swept(m: map<string, Entry>, now: int): (r: map<string, Entry>)
    ensures forall k :: k in r ==> k in m && r[k] == m[k] && !Expired(m[k], now)
    ensures forall k :: k in m && !Expired(m[k], now) ==> k in r
  {
    map k | k in m && !Expired(m[k], now) :: m[k]
  }

  /** The instant stored for a token: `replyAt + (expires_in - 300) * 1000`. */
  function ExpiryFor(expiresIn: Value, replyAt: int): Num {
    Add(Fin(replyAt as real), Mul(Sub(ToNumber(expiresIn), Fin(300.0)), Fin(1000.0)))
  }

  /** A numeric lifetime of `E` seconds gives a token that is served for `E - 300` seconds. */
  lemma {:induction false} ExpiryOfSeconds(e: real, replyAt: int)
    ensures ExpiryFor(Number(Fin(e)), replyAt) == Fin(replyAt as real + (e - 300.0) * 1000.0)
  {
  }

  /** The exchange of a refresh token for a cache entry. The token response is parsed
      before its status is looked at, so an unparsable error page is a parse failure. */
  function Issue(reply: TokenReply, parse: JsonParser, replyAt: int): Result<Entry, TokenError> {
    match reply
    case DiscoveryFailed(reason) => Failure(DiscoveryError(reason))
    case TokenRequestFailed(reason) => Failure(TokenRequestError(reason))
    case TokenResponse(status, body) =>
      match parse(body)
      case None => Failure(TokenParseError)
      case Some(data) =>
        if !(200 <= status < 300) then Failure(TokenStatusError(status, body))
        else if data == Null || data == Undefined then Failure(TokenDataMissing)
        else Success(Entry(Get(data, "access_token"), ExpiryFor(Get(data, "expires_in"), replyAt)))
  }

  /** `getAccessToken(refreshToken)` on a cache `m`: sweep at `now`, serve a live entry,
      otherwise exchange and store. Gives the outcome and the new cache. */
  function AccessToken(m: map<string, Entry>, refreshToken: string, now: int, replyAt: int,
                       reply: TokenReply, parse: JsonParser): (Result<Value, TokenError>, map<string, Entry>)
  {
    var swept := Swept(m, now);
    if refreshToken in swept && Live(swept[refreshToken], now) then
      (Success(swept[refreshToken].token), swept)
    else
      match Issue(reply, parse, replyAt)
      case Success(e) => (Success(e.token), swept[refreshToken := e])
      case Failure(err) => (Failure(err), swept)
  }

  class AccessTokenCache {
    /** Refresh token -> cached access token. */
    var entries: map<string, Entry>

    constructor ()
      ensures entries == map[]
    {
      entries := map[];
    }

    /** `cleanExpiredTokens`: deletes, one key at a time, every entry that has expired. */
    method Sweep(now: int)
      modifies this
      ensures entries == Swept(old(entries), now)
    {
      ghost var m0 := entries;
      var keys := entries.Keys;
      while keys != {}
        invariant keys <= m0.Keys
        invariant entries == map k | k in m0 && (k in keys || !Expired(m0[k], now)) :: m0[k]
        decreases keys
      {
        var k :| k in keys;
        if Expired(entries[k], now) {
          entries := map k' | k' in entries && k' != k :: entries[k'];
        }
        keys := keys - {k};
      }
    }

    /** `getAccessToken(refreshToken)`: sweep, then a cache hit or a refresh-token exchange. */
    method GetAccessToken(refreshToken: string, now: int, replyAt: int, reply: TokenReply, parse: JsonParser)
      returns (r: Result<Value, TokenError>)
      modifies this
      ensures (r, entries) == AccessToken(old(entries), refreshToken, now, replyAt, reply, parse)
    {
      Sweep(now);
      if refreshToken in entries && Live(entries[refreshToken], now) {
        return Success(entries[refreshToken].token);
      }
      var issued := Issue(reply, parse, replyAt);
      match issued
      case Success(e) =>
        entries := entries[refreshToken := e];
        r := Success(e.token);
      case Failure(err) =>
        r := Failure(err);
    }
  }

  // ---------------------------------------------------------------------------
  // Properties of the cache

  /** No entry survives a sweep once it has expired; a live entry is never swept. */
  lemma {:induction false} SweepKeepsExactlyUnexpired(m: map<string, Entry>, now: int, k: string)
    requires k in m
    ensures k in Swept(m, now) <==> !Expired(m[k], now)
    ensures Live(m[k], now) ==> k in Swept(m, now) && Swept(m, now)[k] == m[k]
  {
    var e := m[k];
    if Live(e, now) {
      assert !Expired(e, now);
    }
  }

  /** An entry whose expiry is NaN (a token reply without a numeric `expires_in`) is neither
      served nor ever swept: it stays in the cache until the same refresh token is re-issued. */
  lemma {:induction false} NaNExpiryLingers(m: map<string, Entry>, now: int, k: string)
    requires k in m && m[k].expiresAt == NaN
    ensures k in Swept(m, now) && !Live(m[k], now)
  {
  }

  /** Sweeping at a later time removes at least what an earlier sweep removed:
      sweeping at `t1` and then at `t2 >= t1` is the same as sweeping once at `t2`. */
  lemma {:induction false} SweepLater(m: map<string, Entry>, t1: int, t2: int)
    requires t1 <= t2
    ensures Swept(Swept(m, t1), t2) == Swept(m, t2)
  {
    forall k | k in m && Expired(m[k], t1) ensures Expired(m[k], t2) {
      GreaterEqMonotone(t1 as real, t2 as real, m[k].expiresAt);
    }
  }

  /** A cache hit returns the cached token whatever the network would have said, and only sweeps. */
  lemma {:induction false} CacheHit(m: map<string, Entry>, rt: string, now: int, replyAt: int, reply: TokenReply, parse: JsonParser)
    requires rt in m && Live(m[rt], now)
    ensures AccessToken(m, rt, now, replyAt, reply, parse) == (Success(m[rt].token), Swept(m, now))
  {
    SweepKeepsExactlyUnexpired(m, now, rt);
  }

  /** On a miss, a successful exchange stores exactly the new entry under the refresh token
      and returns its token; every other key is as the sweep left it. */
  lemma {:induction false} MissStores(m: map<string, Entry>, rt: string, now: int, replyAt: int, reply: TokenReply, parse: JsonParser)
    requires !(rt in m && Live(m[rt], now))
    requires Issue(reply, parse, replyAt).Success?
    ensures var e := Issue(reply, parse, replyAt).value;
            var (r, m') := AccessToken(m, rt, now, replyAt, reply, parse);
            && r == Success(e.token)
            && m' == Swept(m, now)[rt := e]
            && (forall k :: k != rt ==> (k in m' <==> k in Swept(m, now)))
  {
  }

  /** A failed exchange adds nothing: the cache is only swept, so there is no entry for the
      refresh token unless one was already there. */
  lemma {:induction false} FailureAddsNothing(m: map<string, Entry>, rt: string, now: int, replyAt: int, reply: TokenReply, parse: JsonParser)
    requires !(rt in m && Live(m[rt], now))
    requires Issue(reply, parse, replyAt).Failure?
    ensures var (r, m') := AccessToken(m, rt, now, replyAt, reply, parse);
            && r == Failure(Issue(reply, parse, replyAt).error)
            && m' == Swept(m, now)
            && (rt in m' ==> rt in m && m'[rt] == m[rt])
  {
  }

  /** A token body that does not parse is a parse failure whatever the status, and a parsed
      body with a status outside [200, 300) is a status failure carrying status and body. */
  lemma {:induction false} ParseBeforeStatus(status: int, body: string, parse: JsonParser, replyAt: int)
    ensures parse(body).None? ==> Issue(TokenResponse(status, body), parse, replyAt) == Failure(TokenParseError)
    ensures parse(body).Some? && !(200 <= status < 300) ==>
              Issue(TokenResponse(status, body), parse, replyAt) == Failure(TokenStatusError(status, body))
  {
  }

  /** Freshness: a token issued at `replyAt` with lifetime `E` seconds is served from the cache,
      whatever the network would say, at every `t` with `t < replyAt + (E - 300) * 1000`, and is
      swept and re-issued at every later `t`. The token document may carry any other fields
      (`token_type`, `refresh_token`, `scope`, ...). */
  lemma {:induction false} Freshness(m: map<string, Entry>, rt: string, now: int, replyAt: int, body: string,
                                     parse: JsonParser, fs: seq<(string, Value)>, at: Value, e: real,
                                     t: int, replyAt2: int, reply2: TokenReply)
    requires !(rt in m && Live(m[rt], now))
    requires parse(body) == Some(Obj(fs))
    requires Lookup(fs, "access_token") == at && Lookup(fs, "expires_in") == Number(Fin(e))
    ensures var m1 := AccessToken(m, rt, now, replyAt, TokenResponse(200, body), parse).1;
            var second := AccessToken(m1, rt, t, replyAt2, reply2, parse);
            && ((t as real) < replyAt as real + (e - 300.0) * 1000.0 ==> second == (Success(at), Swept(m1, t)))
            && ((t as real) >= replyAt as real + (e - 300.0) * 1000.0 ==>
                  && rt !in Swept(m1, t)
                  && second.0 == (match Issue(reply2, parse, replyAt2)
                                  case Success(e2) => Success(e2.token)
                                  case Failure(err) => Failure(err)))
  {
    var entry := Entry(at, ExpiryFor(Number(Fin(e)), replyAt));
    ExpiryOfSeconds(e, replyAt);
    assert Issue(TokenResponse(200, body), parse, replyAt) == Success(entry);
    var m1 := AccessToken(m, rt, now, replyAt, TokenResponse(200, body), parse).1;
    assert rt in m1 && m1[rt] == entry;
    if (t as real) < replyAt as real + (e - 300.0) * 1000.0 {
      CacheHit(m1, rt, t, replyAt2, reply2, parse);
    } else {
      SweepKeepsExactlyUnexpired(m1, t, rt);
    }
  }
}
