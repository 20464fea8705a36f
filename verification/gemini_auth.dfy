/** How the native endpoints find the caller's own key: the `key` query
    parameter, then the `x-goog-api-key` header, then an `Authorization`
    header of the form "Bearer <key>". Checking the key against the
    configured one is `validate_api_key`, which is not part of this model and
    enters as the predicate `valid`. */
module GeminiAuth {
  import opened Wrappers
  import Strings

  const BearerPrefix: string := "Bearer "

  /** Both failures answer 401. */
  datatype AuthError = MissingKey | InvalidKey {
    function Status(): int {
      401
    }

    function Detail(): string {
      match this
      case MissingKey => "Missing API key. Use ?key=YOUR_KEY, x-goog-api-key header, or Authorization: Bearer YOUR_KEY"
      case InvalidKey => "Invalid API key"
    }
  }

  /** A truthy optional string: present and non-empty. */
  predicate Given(s: Option<string>) {
    s.Some? && |s.value| > 0
  }

  /** The key-selection rule once the bearer token has been cut out of the
      `Authorization` header (`bearer` is None when that header is missing or
      does not start with "Bearer "). */
  function Authenticate(key: Option<string>, googKey: Option<string>, bearer: Option<string>, valid: string -> bool): (r: Result<string, AuthError>)
    ensures r.Success? ==> |r.value| > 0 && valid(r.value)
    // precedence: the first non-empty source decides, later ones are not looked at
    ensures Given(key) ==> r == (if valid(key.value) then Success(key.value) else Failure(InvalidKey))
    ensures !Given(key) && Given(googKey) ==>
      r == (if valid(googKey.value) then Success(googKey.value) else Failure(InvalidKey))
    ensures !Given(key) && !Given(googKey) && Given(bearer) ==>
      r == (if valid(bearer.value) then Success(bearer.value) else Failure(InvalidKey))
    // no source at all yields the missing-key error
    ensures r == Failure(MissingKey) <==> !Given(key) && !Given(googKey) && !Given(bearer)
  {
    var candidate :=
      if Given(key) then key
      else if Given(googKey) then googKey
      else if bearer.Some? then bearer
      else None;
    if !Given(candidate) then Failure(MissingKey)
    else if !valid(candidate.value) then Failure(InvalidKey)
    else Success(candidate.value)
  }

  /** The token as the code cuts it: `authorization.replace("Bearer ", "")`,
      which removes every occurrence of "Bearer ", not only the leading one. */
  function BearerToken(authorization: Option<string>): (r: Option<string>)
    ensures r.Some? <==> authorization.Some? && Strings.StartsWith(authorization.value, BearerPrefix)
    ensures r.Some? ==> |r.value| <= |authorization.value| - |BearerPrefix|
    // the leading prefix is cut, and every later occurrence removed as well
    ensures r.Some? ==> r.value == Strings.RemoveAll(authorization.value[|BearerPrefix|..], BearerPrefix)
    // so the cut is the intended one exactly when the token holds no further prefix
    ensures r.Some? && !Strings.Contains(authorization.value[|BearerPrefix|..], BearerPrefix) ==>
      BearerPrefix + r.value == authorization.value
  {
    match authorization
    case Some(a) =>
      if Strings.StartsWith(a, BearerPrefix) then
        assert a[..|BearerPrefix|] == BearerPrefix;
        assert a == BearerPrefix + a[|BearerPrefix|..];
        Strings.RemoveAllOnlyWhenPresent(a[|BearerPrefix|..], BearerPrefix);
        Some(Strings.RemoveAll(a, BearerPrefix))
      else None
    case None => None
  }

  /** The token as evidently intended: everything after the leading
      "Bearer ". */
  function BearerTokenCorrected(authorization: Option<string>): (r: Option<string>)
    ensures r.Some? <==> authorization.Some? && Strings.StartsWith(authorization.value, BearerPrefix)
    ensures r.Some? ==> BearerPrefix + r.value == authorization.value
  {
    match authorization
    case Some(a) =>
      if Strings.StartsWith(a, BearerPrefix) then
        assert a == a[..|BearerPrefix|] + a[|BearerPrefix|..];
        Some(a[|BearerPrefix|..])
      else None
    case None => None
  }

  /** `get_gemini_api_key` as written. */
  function CallerKey(key: Option<string>, googKey: Option<string>, authorization: Option<string>, valid: string -> bool): (r: Result<string, AuthError>)
    ensures r.Success? ==> valid(r.value)
    // the query key wins, then the header key; neither is checked against the other
    ensures Given(key) ==> r == (if valid(key.value) then Success(key.value) else Failure(InvalidKey))
    ensures !Given(key) && Given(googKey) ==>
      r == (if valid(googKey.value) then Success(googKey.value) else Failure(InvalidKey))
    // then the bearer header, with every "Bearer " removed
    ensures !Given(key) && !Given(googKey) ==>
      var cut := if authorization.Some? && Strings.StartsWith(authorization.value, BearerPrefix)
        then Some(Strings.RemoveAll(authorization.value, BearerPrefix)) else None;
      && (!Given(cut) ==> r == Failure(MissingKey))
      && (Given(cut) ==> r == (if valid(cut.value) then Success(cut.value) else Failure(InvalidKey)))
  {
    Authenticate(key, googKey, BearerToken(authorization), valid)
  }

  /** `get_gemini_api_key` with the bearer token cut as intended. */
  function CallerKeyCorrected(key: Option<string>, googKey: Option<string>, authorization: Option<string>, valid: string -> bool): (r: Result<string, AuthError>)
    ensures r.Success? ==> valid(r.value)
    ensures Given(key) ==> r == (if valid(key.value) then Success(key.value) else Failure(InvalidKey))
    ensures !Given(key) && Given(googKey) ==>
      r == (if valid(googKey.value) then Success(googKey.value) else Failure(InvalidKey))
    // then the bearer header, with only the leading "Bearer " removed
    ensures !Given(key) && !Given(googKey) ==>
      var cut := if authorization.Some? && Strings.StartsWith(authorization.value, BearerPrefix)
        then Some(authorization.value[|BearerPrefix|..]) else None;
      && (!Given(cut) ==> r == Failure(MissingKey))
      && (Given(cut) ==> r == (if valid(cut.value) then Success(cut.value) else Failure(InvalidKey)))
    ensures !Given(key) && !Given(googKey) && r.Success? ==>
      authorization.Some? && BearerPrefix + r.value == authorization.value
  {
    Authenticate(key, googKey, BearerTokenCorrected(authorization), valid)
  }

  /** The two cuts agree unless the token itself contains "Bearer ". */
  lemma BearerCutsAgree(authorization: string)
    requires Strings.StartsWith(authorization, BearerPrefix)
    requires !Strings.Contains(authorization[|BearerPrefix|..], BearerPrefix)
    ensures BearerToken(Some(authorization)) == BearerTokenCorrected(Some(authorization))
  {
    Strings.RemoveAllAbsent(authorization[|BearerPrefix|..], BearerPrefix);
  }

  /** A token that contains "Bearer " loses it: the header
      "Bearer aBearer b" authenticates as "ab" rather than "aBearer b". */
  lemma BearerReplaceCutsInsideToken()
    ensures BearerToken(Some("Bearer aBearer b")) == Some("ab")
    ensures BearerTokenCorrected(Some("Bearer aBearer b")) == Some("aBearer b")
  {
    var s, t := "Bearer aBearer b", "aBearer b";
    assert s[..7] == BearerPrefix && s[7..] == t;
    assert t[..7] != BearerPrefix by { assert t[0] != BearerPrefix[0]; }
    assert t[1..][..7] == BearerPrefix && t[1..][7..] == "b";
    assert Strings.RemoveAll("b", BearerPrefix) == "b";
    assert Strings.RemoveAll(t[1..], BearerPrefix) == "b";
    assert Strings.RemoveAll(t, BearerPrefix) == "ab";
  }
}
