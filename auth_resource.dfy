/**
 * The redirect endpoint of the authorization-code grant (section 4.1.2 of RFC 6749): Discord
 * sends the browser back with either an authorization `code` or an `error`, and the endpoint
 * answers with an error or with a redirect that hands the internal token to the front end.
 * An absent query parameter is `None`.
 */
module AuthResources {
  import opened Wrappers
  import opened Text
  import opened Ids
  import opened Users
  import opened DiscordUsers
  import opened DiscordAuth

  const Unauthorized401: int := 401
  const BadRequest400: int := 400
  const TemporaryRedirect307: int := 307
  const DeniedPrefix: string := "Authorization denied: "
  const MissingCodeMessage: string := "Missing authorization code"
  const FrontendCallback: string := "http://localhost:3000/auth/callback?token="

  /** A plain-text answer with a status, or a redirect to a location. */
  datatype CallbackResponse =
    | Plain(status: int, entity: string)
    | Redirect(status: int, location: string)

  /** The callback's answer, and the user table after it; a sign-in failure propagates. */
  datatype CallbackOutcome = CallbackOutcome(users: seq<UserRecord>, response: Result<CallbackResponse, DiscordFailure>)

  /** `handleCallback(code, error)`: the error first, then a missing code, then the sign-in. */
  function HandleCallback(users: seq<UserRecord>, code: Option<string>, error: Option<string>,
                          exchange: string -> Result<DiscordToken, DiscordFailure>,
                          userInfo: string -> Result<DiscordUser, DiscordFailure>,
                          sign: (string, Option<string>, Option<string>) -> string, newId: Id)
    : (o: CallbackOutcome)
    ensures o.response.Ok? && o.response.value.Plain? ==> o.users == users
    ensures o.response.Err? ==> o.users == users
  {
    if error.Some? then CallbackOutcome(users, Ok(Plain(Unauthorized401, DeniedPrefix + error.value)))
    else if code.None? then CallbackOutcome(users, Ok(Plain(BadRequest400, MissingCodeMessage)))
    else
      var signIn := SignedIn(users, code.value, exchange, userInfo, sign, newId);
      match signIn.result
      case Err(e) => CallbackOutcome(users, Err(e))
      case Ok(auth) => CallbackOutcome(signIn.users, Ok(Redirect(TemporaryRedirect307, FrontendCallback + auth.token)))
  }

  // ---------------------------------------------------------------- properties

  /** A reported error is answered with 401 and the error text, whatever the code, and nothing changes. */
  lemma ErrorTakesPrecedence(users: seq<UserRecord>, code: Option<string>, error: string,
                             exchange: string -> Result<DiscordToken, DiscordFailure>,
                             userInfo: string -> Result<DiscordUser, DiscordFailure>,
                             sign: (string, Option<string>, Option<string>) -> string, newId: Id)
    ensures HandleCallback(users, code, Some(error), exchange, userInfo, sign, newId) ==
      CallbackOutcome(users, Ok(Plain(Unauthorized401, DeniedPrefix + error)))
  {
  }

  /** Without an error and without a code the answer is 400 with a fixed message. */
  lemma MissingCodeRejected(users: seq<UserRecord>,
                            exchange: string -> Result<DiscordToken, DiscordFailure>,
                            userInfo: string -> Result<DiscordUser, DiscordFailure>,
                            sign: (string, Option<string>, Option<string>) -> string, newId: Id)
    ensures HandleCallback(users, None, None, exchange, userInfo, sign, newId) ==
      CallbackOutcome(users, Ok(Plain(BadRequest400, MissingCodeMessage)))
  {
  }

  /**
   * The sign-in runs only for a present code without an error, and then the callback is that
   * sign-in: every present code qualifies, the empty one included.
   */
  lemma SignInOnlyWithCode(users: seq<UserRecord>, code: Option<string>, error: Option<string>,
                           exchange: string -> Result<DiscordToken, DiscordFailure>,
                           userInfo: string -> Result<DiscordUser, DiscordFailure>,
                           sign: (string, Option<string>, Option<string>) -> string, newId: Id)
    ensures HandleCallback(users, code, error, exchange, userInfo, sign, newId).users != users ==>
      error.None? && code.Some?
    ensures error.None? && code.Some? ==>
      var s := SignedIn(users, code.value, exchange, userInfo, sign, newId);
      HandleCallback(users, code, error, exchange, userInfo, sign, newId).users == s.users &&
      HandleCallback(users, code, error, exchange, userInfo, sign, newId).response.Err? == s.result.Err?
  {
  }

  /** A successful callback redirects to the front end with exactly the issued token appended. */
  lemma RedirectCarriesToken(users: seq<UserRecord>, code: string,
                             exchange: string -> Result<DiscordToken, DiscordFailure>,
                             userInfo: string -> Result<DiscordUser, DiscordFailure>,
                             sign: (string, Option<string>, Option<string>) -> string, newId: Id)
    requires SignedIn(users, code, exchange, userInfo, sign, newId).result.Ok?
    ensures var r := HandleCallback(users, Some(code), None, exchange, userInfo, sign, newId).response;
      && r.Ok? && r.value.Redirect? && r.value.status == TemporaryRedirect307
      && StartsWith(r.value.location, FrontendCallback)
      && r.value.location[|FrontendCallback|..] == SignedIn(users, code, exchange, userInfo, sign, newId).result.value.token
  {
    var token := SignedIn(users, code, exchange, userInfo, sign, newId).result.value.token;
    assert (FrontendCallback + token)[..|FrontendCallback|] == FrontendCallback;
    assert (FrontendCallback + token)[|FrontendCallback|..] == token;
  }
}
