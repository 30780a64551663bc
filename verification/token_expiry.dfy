/**
  `isTokenExpired`: the client-side decision whether the stored session has
  to be treated as expired.  `jwtDecode` is a parameter (its behaviour lives in
  a library), and so is the clock `now` (milliseconds).
 */
module TokenExpiry {
  import opened Wrappers

  /** What decoding an access token yields: a thrown error, or a payload whose
      `exp` claim (seconds since the epoch) may be missing. */
  datatype Decoded = DecodeError | Payload(exp: Option<int>)

  /** JavaScript truthiness of a `string | null`: null and '' are falsy. */
  predicate Present(token: Option<string>) {
    token.Some? && token.value != ""
  }

  /** Expired unless both tokens are present, the access token decodes, and
      its `exp` (scaled to milliseconds) is not strictly before `now`.  A missing
      `exp` makes the comparison `NaN < now`, which is false. */
  function IsTokenExpired(accessToken: Option<string>, refreshToken: Option<string>,
                          jwtDecode: string -> Decoded, now: int): (expired: bool)
    ensures !Present(accessToken) || !Present(refreshToken) ==> expired
    ensures Present(accessToken) && Present(refreshToken) && jwtDecode(accessToken.value).DecodeError? ==> expired
    ensures Present(accessToken) && Present(refreshToken) && jwtDecode(accessToken.value).Payload? ==>
      (expired <==> exists exp :: jwtDecode(accessToken.value).exp == Some(exp) && exp * 1000 < now)
  {
    if !Present(accessToken) || !Present(refreshToken) then true
    else
      match jwtDecode(accessToken.value)
      case DecodeError => true
      case Payload(None) => false
      case Payload(Some(exp)) => exp * 1000 < now
  }

  /** The refresh token is only checked for presence: any two present refresh
      tokens give the same answer. */
  lemma RefreshTokenContentsIgnored(accessToken: Option<string>, r1: string, r2: string,
                                    jwtDecode: string -> Decoded, now: int)
    requires r1 != "" && r2 != ""
    ensures IsTokenExpired(accessToken, Some(r1), jwtDecode, now)
         == IsTokenExpired(accessToken, Some(r2), jwtDecode, now)
  {
  }

  /** The `exp` comparison is strict: a token is still valid in the very
      millisecond its `exp` names, and expired one millisecond later; once expired
      it stays expired as the clock advances. */
  lemma ExpiryBoundary(accessToken: string, refreshToken: string, jwtDecode: string -> Decoded,
                       exp: int, now: int, later: int)
    requires accessToken != "" && refreshToken != ""
    requires jwtDecode(accessToken) == Payload(Some(exp))
    requires now <= later
    ensures !IsTokenExpired(Some(accessToken), Some(refreshToken), jwtDecode, exp * 1000)
    ensures IsTokenExpired(Some(accessToken), Some(refreshToken), jwtDecode, exp * 1000 + 1)
    ensures IsTokenExpired(Some(accessToken), Some(refreshToken), jwtDecode, now) ==>
            IsTokenExpired(Some(accessToken), Some(refreshToken), jwtDecode, later)
  {
  }
}
