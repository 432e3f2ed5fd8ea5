/** The two expiring bearer-token caches of issue_maker.py.  In the source
    each is a pair of module globals (`gh_token`/`gh_token_expiry` and
    `spotify_token`/`spotify_token_expiry`) updated in place by its getter;
    here each pair is the state of one object.  The clock reading `now` and
    the parsed answer of the refresh request are parameters. */
module Tokens {
  import opened Wrappers

  /** A cached token is still served while its expiry, less the safety
      margin, lies strictly after `now`. */
  predicate Current(expiry: int, margin: int, now: int) {
    expiry - margin > now
  }

  /** The `expires_at` field of the answer: absent, present but not in
      `%Y-%m-%dT%H:%M:%S%z` form, or a timestamp already converted to seconds. */
  datatype Stamp = NoStamp | BadStamp | At(seconds: int)

  /** The parsed answer of the installation-token exchange: `token` (`None`
      when the key is absent) and `expires_at`. */
  datatype InstallationToken = InstallationToken(token: Option<string>, expiresAt: Stamp)

  /** The installation token used to file GitHub issues (3 minute margin). */
  class GithubToken {
    var token: string
    var expiry: int
    static const Margin := 180

    /** The module's initial values: an empty token that has already expired. */
    constructor ()
      ensures token == "" && expiry == 0
      ensures forall now: int | now >= -Margin :: !Current(expiry, Margin, now)
    {
      token, expiry := "", 0;
    }

    /** `get_github_token`.  `refreshed` tells whether the refresh request
        was issued.  The token is assigned before the expiry is parsed, so an
        answer with a token but no usable expiry leaves the new token beside
        the old expiry before the error escapes. */
    method Get(now: int, answer: InstallationToken) returns (r: Result<string>, refreshed: bool)
      modifies this
      ensures refreshed == !Current(old(expiry), Margin, now)
      ensures !refreshed ==> r == Ok(old(token)) && token == old(token) && expiry == old(expiry)
      ensures refreshed && answer.token.None? ==>
        r == Err(MissingKey("token")) && token == old(token) && expiry == old(expiry)
      ensures refreshed && answer.token.Some? && answer.expiresAt.NoStamp? ==>
        r == Err(MissingKey("expires_at")) && token == answer.token.value && expiry == old(expiry)
      ensures refreshed && answer.token.Some? && answer.expiresAt.BadStamp? ==>
        r == Err(BadTimestamp) && token == answer.token.value && expiry == old(expiry)
      ensures refreshed && answer.token.Some? && answer.expiresAt.At? ==>
        r == Ok(answer.token.value) && token == answer.token.value && expiry == answer.expiresAt.seconds
      ensures r.Ok? ==> r.value == token
    {
      if Current(expiry, Margin, now) {
        return Ok(token), false;
      }
      refreshed := true;
      if answer.token.None? {
        return Err(MissingKey("token")), refreshed;
      }
      token := answer.token.value;
      match answer.expiresAt
      case NoStamp =>
        return Err(MissingKey("expires_at")), refreshed;
      case BadStamp =>
        return Err(BadTimestamp), refreshed;
      case At(seconds) =>
        expiry := seconds;
        r := Ok(token);
    }
  }

  /** The client-credentials token used to query Spotify (5 minute margin,
      one hour of validity counted from the refresh). */
  class SpotifyToken {
    var token: string
    var expiry: int
    static const Margin := 300
    static const Lifetime := 3600

    constructor ()
      ensures token == "" && expiry == 0
      ensures forall now: int | now >= -Margin :: !Current(expiry, Margin, now)
    {
      token, expiry := "", 0;
    }

    /** `get_spotify_token`; `accessToken` is the `access_token` of the
        answer, `None` when the key is absent. */
    method Get(now: int, accessToken: Option<string>) returns (r: Result<string>, refreshed: bool)
      modifies this
      ensures refreshed == !Current(old(expiry), Margin, now)
      ensures !refreshed ==> r == Ok(old(token)) && token == old(token) && expiry == old(expiry)
      ensures refreshed && accessToken.None? ==>
        r == Err(MissingKey("access_token")) && token == old(token) && expiry == old(expiry)
      ensures refreshed && accessToken.Some? ==>
        r == Ok(accessToken.value) && token == accessToken.value && expiry == now + Lifetime
      ensures r.Ok? ==> r.value == token && Current(expiry, Margin, now)
    {
      if Current(expiry, Margin, now) {
        return Ok(token), false;
      }
      refreshed := true;
      if accessToken.None? {
        return Err(MissingKey("access_token")), refreshed;
      }
      token := accessToken.value;
      expiry := now + Lifetime;
      r := Ok(token);
    }
  }
}
