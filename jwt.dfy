/**
 * Token strings (pkg/utils/jwt.go): splitting the bearer header, the
 * expiry arithmetic of the access token, the `hex "." expiry` shape of the
 * refresh token and reading its expiry back. Signing, SHA-256 and the
 * environment are inputs: the signer is a function that can fail, the
 * digest is a byte sequence and each setting is the text of its variable.
 */
module Jwt {
  import opened Wrappers
  import opened GoStd
  import Middleware

  // ---------------------------------------------------------- bearer header

  /**
   * extractToken: the second field of the Authorization header split on
   * single spaces when there are exactly two fields, and "" otherwise.
   */
  function ExtractToken(header: string): (token: string)
    ensures ' ' !in token
    ensures token != "" ==> Count(header, ' ') == 1
  {
    var fields := Split(header, ' ');
    if |fields| == 2 then fields[1] else ""
  }

  /** "Bearer <token>" gives the token back. */
  lemma ExtractTokenBearer(scheme: string, token: string)
    requires ' ' !in scheme && ' ' !in token
    ensures ExtractToken(scheme + " " + token) == token
  {
    SplitWithout(token, ' ');
    SplitAround(scheme, token, ' ');
  }

  /** No space, or more than one (a doubled space included), gives "". */
  lemma ExtractTokenRejects(header: string)
    requires Count(header, ' ') != 1
    ensures ExtractToken(header) == ""
  {
  }

  /** A token that comes back is what follows the header's only space. */
  lemma ExtractTokenShape(header: string)
    requires ExtractToken(header) != ""
    ensures exists scheme :: ' ' !in scheme && header == scheme + " " + ExtractToken(header)
  {
    var fields := Split(header, ' ');
    JoinSplit(header, ' ');
    assert Join(fields[1..], ' ') == fields[1];
    assert header == fields[0] + " " + fields[1];
  }

  // ---------------------------------------------------------- access token

  /** A setting read with strconv.Atoi and its error ignored: 0 when it is not a number, the int64 bound when it is too large. */
  function Setting(text: string): (n: int)
    ensures IsInt64(n)
    ensures Atoi(text).err == Some(ErrSyntax) ==> n == 0
    ensures Atoi(text).err.None? ==> n == Atoi(text).value
  {
    Atoi(text).value
  }

  /** The access token's `expires` claim: now plus the configured minutes. */
  function AccessExpiry(now: int, minutesSetting: string): (expires: int)
    ensures Atoi(minutesSetting).err == Some(ErrSyntax) ==> expires == now
  {
    now + 60 * Setting(minutesSetting)
  }

  /** The claims generateNewAccessToken signs. */
  datatype AccessClaims = AccessClaims(id: string, expires: int)

  /** generateNewAccessToken: the claims for `id`, signed by `sign`, whose error is passed on. */
  function GenerateNewAccessToken(id: string, now: int, minutesSetting: string,
                                  sign: AccessClaims -> Result<string, string>): (token: Result<string, string>)
    ensures Atoi(minutesSetting).err.None? ==> token == sign(AccessClaims(id, now + 60 * Atoi(minutesSetting).value))
    ensures Atoi(minutesSetting).err == Some(ErrSyntax) ==> token == sign(AccessClaims(id, now))
  {
    sign(AccessClaims(id, AccessExpiry(now, minutesSetting)))
  }

  /**
   * A fresh access token issued at `now` with a configured number of
   * minutes is not expired up to and including its expiry second, and is
   * expired after it.
   */
  lemma AccessTokenLifetime(now: int, minutes: nat, t: int)
    requires IsInt64(minutes)
    ensures AccessExpiry(now, FormatInt(minutes)) == now + 60 * minutes
    ensures !Middleware.Expired(t, AccessExpiry(now, FormatInt(minutes))) <==> t <= now + 60 * minutes
  {
    ParseFormatInt(minutes, 10);
  }

  // --------------------------------------------------------- refresh token

  /** The refresh token's expiry: now plus the configured hours. */
  function RefreshExpiry(now: int, hoursSetting: string): (expires: int)
    ensures Atoi(hoursSetting).err == Some(ErrSyntax) ==> expires == now
  {
    now + 3600 * Setting(hoursSetting)
  }

  /** A refresh token issued at `now` with a configured number of hours expires 3600 seconds per hour later. */
  lemma RefreshTokenLifetime(now: int, hours: int)
    requires IsInt64(hours)
    ensures RefreshExpiry(now, FormatInt(hours)) == now + 3600 * hours
  {
    ParseFormatInt(hours, 10);
  }

  /**
   * GenerateNewRefreshToken: the hexadecimal digest, a dot, the decimal
   * expiry. `digest` is the SHA-256 sum of the refresh key and the time.
   */
  function GenerateNewRefreshToken(digest: seq<bv8>, now: int, hoursSetting: string): (token: string)
    ensures Count(token, '.') == 1
    ensures Split(token, '.') == [HexEncode(digest), FormatInt(RefreshExpiry(now, hoursSetting))]
  {
    var hex := HexEncode(digest);
    var expiry := FormatInt(RefreshExpiry(now, hoursSetting));
    assert '.' !in hex by {
      forall i | 0 <= i < |hex| ensures hex[i] != '.' {
        assert hex[i] in HexAlphabet;
      }
    }
    SplitWithout(expiry, '.');
    SplitAround(hex, expiry, '.');
    hex + "." + expiry
  }

  /**
   * ParseRefreshToken: ParseInt (base 0) of the field after the first '.';
   * a token without a '.' has no such field and the index panics.
   */
  function ParseRefreshToken(token: string): (r: Exec<Parsed>)
    ensures r.Panics? <==> '.' !in token
    ensures r.Returns? ==> IsInt64(r.value.value)
  {
    CountZero(token, '.');
    var fields := Split(token, '.');
    if |fields| < 2 then Panics else Returns(ParseInt(fields[1], 0))
  }

  /** Reading a generated refresh token gives back the expiry it was written with. */
  lemma RefreshTokenRoundTrip(digest: seq<bv8>, now: int, hoursSetting: string)
    requires IsInt64(RefreshExpiry(now, hoursSetting))
    ensures ParseRefreshToken(GenerateNewRefreshToken(digest, now, hoursSetting))
      == Returns(Parsed(RefreshExpiry(now, hoursSetting), None))
  {
    ParseFormatInt(RefreshExpiry(now, hoursSetting), 0);
  }

  // ----------------------------------------------------------------- pair

  datatype Tokens = Tokens(access: string, refresh: string)

  /** GenerateNewTokens: a pair only when both generators succeed, else the first error. */
  function GenerateNewTokens(access: Result<string, string>, refresh: Result<string, string>): (r: Result<Tokens, string>)
    ensures r.Ok? <==> access.Ok? && refresh.Ok?
    ensures r.Ok? ==> r.value == Tokens(access.value, refresh.value)
    ensures access.Err? ==> r == Err(access.error)
    ensures access.Ok? && refresh.Err? ==> r == Err(refresh.error)
  {
    if access.Err? then Err(access.error)
    else if refresh.Err? then Err(refresh.error)
    else Ok(Tokens(access.value, refresh.value))
  }
}
