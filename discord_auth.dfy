/**
 * Sign-in with Discord (the authorization-code grant of section 4.1 of RFC 6749): the code is
 * exchanged for a Discord access token, the account is looked up with it, the matching user
 * row is created or refreshed, and an internal token is issued for it.
 *
 * The two calls to Discord and the token signer are parameters: `exchange` stands for the
 * client's code exchange (with the configured client id, secret and redirect URI),
 * `userInfo` for the account lookup by authorization header, and `sign` for
 * `JwtService.generateToken(userId, username, email)`.
 */
module DiscordAuth {
  import opened Wrappers
  import opened Text
  import opened Ids
  import opened Users
  import opened DiscordUsers

  /** Discord's token response; any field may be missing. */
  datatype DiscordToken = DiscordToken(
    accessToken: Option<string>,
    tokenType: Option<string>,
    expiresIn: Option<int>,
    refreshToken: Option<string>,
    scope: Option<string>)

  /** An exception thrown by the Discord client: a refused exchange or a failed lookup. */
  datatype DiscordFailure = DiscordFailure(message: string)

  datatype AuthResponse = AuthResponse(
    token: string,
    userId: string,
    username: Option<string>,
    email: Option<string>,
    avatarUrl: Option<string>)

  /** The Discord id column is unique: no two users share a non-null Discord id. */
  predicate UniqueDiscordIds(users: seq<UserRecord>) {
    forall i, j :: 0 <= i < j < |users| && users[i].discordId.Some? ==> users[i].discordId != users[j].discordId
  }

  /** The id generator's value is not yet taken. */
  predicate FreshId(users: seq<UserRecord>, newId: Id) {
    forall u :: u in users ==> u.id != newId
  }

  /** `updateExistingUser`: the Discord name, the avatar URL and the e-mail are taken from Discord. */
  function Refreshed(u: UserRecord, d: DiscordUser): (r: UserRecord)
    ensures r.(discordUsername := u.discordUsername, avatarUrl := u.avatarUrl, email := u.email) == u
    ensures r.discordUsername == Some(FullUsername(d)) && r.avatarUrl == AvatarUrl(d) && r.email == d.email
  {
    u.(discordUsername := Some(FullUsername(d)), avatarUrl := AvatarUrl(d), email := d.email)
  }

  /** `createNewUser`: a user with no name, no role and no reputation yet. */
  function NewUser(d: DiscordUser, newId: Id): (r: UserRecord)
    ensures r.id == newId && r.discordId == d.id && r.username == d.username && r.email == d.email
    ensures r.name.None? && r.role.None? && r.reputationScore == 0
    ensures r.discordUsername == Some(FullUsername(d)) && r.avatarUrl == AvatarUrl(d)
  {
    UserRecord(newId, None, d.username, d.email, 0, d.id, Some(FullUsername(d)), AvatarUrl(d), None)
  }

  datatype Upserted = Upserted(users: seq<UserRecord>, user: UserRecord)

  /** `createOrUpdateUser`: refresh the user with this Discord id, or append a new one. */
  function Upsert(users: seq<UserRecord>, d: DiscordUser, newId: Id): (r: Upserted)
    ensures |r.users| >= |users|
  {
    match IndexOfDiscordId(users, d.id)
    case Some(i) => Upserted(users[i := Refreshed(users[i], d)], Refreshed(users[i], d))
    case None => Upserted(users + [NewUser(d, newId)], NewUser(d, newId))
  }

  /** `generateAuthResponse`: the signed token and the user's public id, name, e-mail and avatar. */
  function ResponseFor(u: UserRecord, sign: (string, Option<string>, Option<string>) -> string)
    : (r: AuthResponse)
    ensures Ids.FromString(r.userId) == Some(u.id)
    ensures r.token == sign(r.userId, u.username, u.email)
  {
    FromStringToString(u.id);
    AuthResponse(sign(ToString(u.id), u.username, u.email), ToString(u.id), u.username, u.email, u.avatarUrl)
  }

  /** `tokenType + " " + accessToken`. */
  function AuthorizationHeader(t: DiscordToken): (h: string)
    ensures StartsWith(h, Show(t.tokenType)) && EndsWith(h, Show(t.accessToken))
    ensures |h| == |Show(t.tokenType)| + 1 + |Show(t.accessToken)| && h[|Show(t.tokenType)|] == ' '
  {
    Show(t.tokenType) + " " + Show(t.accessToken)
  }

  datatype SignIn = SignIn(users: seq<UserRecord>, result: Result<AuthResponse, DiscordFailure>)

  /** `authenticate(code)`: exchange, look up, upsert, respond; a failed step ends the sign-in. */
  function SignedIn(users: seq<UserRecord>, code: string,
                    exchange: string -> Result<DiscordToken, DiscordFailure>,
                    userInfo: string -> Result<DiscordUser, DiscordFailure>,
                    sign: (string, Option<string>, Option<string>) -> string, newId: Id): (o: SignIn)
    ensures o.result.Err? ==> o.users == users
  {
    match exchange(code)
    case Err(e) => SignIn(users, Err(e))
    case Ok(token) =>
      match userInfo(AuthorizationHeader(token))
      case Err(e) => SignIn(users, Err(e))
      case Ok(d) =>
        var u := Upsert(users, d, newId);
        SignIn(u.users, Ok(ResponseFor(u.user, sign)))
  }

  // ---------------------------------------------------------------- properties

  /** The upsert keeps ids and Discord ids unique. */
  lemma UpsertKeepsInvariants(users: seq<UserRecord>, d: DiscordUser, newId: Id)
    requires DistinctIds(users) && UniqueDiscordIds(users) && FreshId(users, newId)
    ensures DistinctIds(Upsert(users, d, newId).users)
    ensures UniqueDiscordIds(Upsert(users, d, newId).users)
  {
    var r := Upsert(users, d, newId);
    if IndexOfDiscordId(users, d.id).None? {
      assert r.users == users + [NewUser(d, newId)];
      forall i, j | 0 <= i < j < |r.users|
        ensures r.users[i].id != r.users[j].id
        ensures r.users[i].discordId.Some? ==> r.users[i].discordId != r.users[j].discordId
      {
        if j == |users| {
          assert r.users[i] == users[i] && users[i] in users;
        }
      }
    }
  }

  /** Where the signed-in user sits in the table afterwards. */
  lemma UpsertPosition(users: seq<UserRecord>, d: DiscordUser, newId: Id) returns (k: nat)
    ensures k < |Upsert(users, d, newId).users|
    ensures Upsert(users, d, newId).users[k] == Upsert(users, d, newId).user
    ensures k < |users| <==> IndexOfDiscordId(users, d.id).Some?
  {
    match IndexOfDiscordId(users, d.id)
    case Some(i) => k := i;
    case None => k := |users|;
  }

  /** Afterwards exactly one stored user carries the signed-in Discord id. */
  lemma UpsertExactlyOne(users: seq<UserRecord>, d: DiscordUser, newId: Id) returns (k: nat)
    requires UniqueDiscordIds(users) && d.id.Some?
    ensures k < |Upsert(users, d, newId).users|
    ensures Upsert(users, d, newId).users[k] == Upsert(users, d, newId).user
    ensures Upsert(users, d, newId).user.discordId == d.id
    ensures forall j :: 0 <= j < |Upsert(users, d, newId).users| && j != k ==>
      Upsert(users, d, newId).users[j].discordId != d.id
  {
    k := UpsertPosition(users, d, newId);
    var r := Upsert(users, d, newId);
    forall j | 0 <= j < |r.users| && j != k
      ensures r.users[j].discordId != d.id
    {
      if j > k {
        assert users[k].discordId == d.id;
      }
    }
  }

  /**
   * An existing user is refreshed in place: only the Discord name, the avatar URL and the
   * e-mail change; id, name, username, reputation, Discord id and role stay, and no other
   * row changes.
   */
  lemma UpsertRefreshesExisting(users: seq<UserRecord>, d: DiscordUser, newId: Id, i: nat)
    requires IndexOfDiscordId(users, d.id) == Some(i)
    ensures Upsert(users, d, newId).users == users[i := Upsert(users, d, newId).user]
    ensures var u := Upsert(users, d, newId).user;
      && u.id == users[i].id && u.name == users[i].name && u.username == users[i].username
      && u.reputationScore == users[i].reputationScore && u.discordId == users[i].discordId
      && u.role == users[i].role
      && u.discordUsername == Some(FullUsername(d)) && u.avatarUrl == AvatarUrl(d) && u.email == d.email
  {
  }

  /**
   * A new user is appended under the generated id with the Discord id, user name, full name,
   * e-mail and avatar URL, reputation 0, and neither a display name nor a role.
   */
  lemma UpsertCreatesNew(users: seq<UserRecord>, d: DiscordUser, newId: Id)
    requires IndexOfDiscordId(users, d.id).None?
    ensures Upsert(users, d, newId).users == users + [Upsert(users, d, newId).user]
    ensures var u := Upsert(users, d, newId).user;
      && u.id == newId && u.discordId == d.id && u.username == d.username
      && u.discordUsername == Some(FullUsername(d)) && u.email == d.email && u.avatarUrl == AvatarUrl(d)
      && u.reputationScore == 0 && u.name.None? && u.role.None?
  {
  }

  /** Signing in again with the same Discord account changes nothing. */
  lemma UpsertIdempotent(users: seq<UserRecord>, d: DiscordUser, newId: Id, laterId: Id)
    requires UniqueDiscordIds(users) && d.id.Some?
    ensures Upsert(Upsert(users, d, newId).users, d, laterId) == Upsert(users, d, newId)
  {
    var r := Upsert(users, d, newId);
    var k := UpsertExactlyOne(users, d, newId);
    IndexIsOnlyMatch(r.users, d.id, k);
  }

  /** The only row carrying a Discord id is the one the lookup finds. */
  lemma {:induction false} IndexIsOnlyMatch(users: seq<UserRecord>, discordId: Option<int>, k: nat)
    requires discordId.Some? && k < |users| && users[k].discordId == discordId
    requires forall j :: 0 <= j < |users| && j != k ==> users[j].discordId != discordId
    ensures IndexOfDiscordId(users, discordId) == Some(k)
  {
    if k > 0 {
      assert users[0].discordId != discordId;
      assert forall j :: 0 <= j < |users[1..]| && j != k - 1 ==> users[1..][j] == users[j + 1];
      IndexIsOnlyMatch(users[1..], discordId, k - 1);
    }
  }

  /** An account without a Discord id matches no row, so every such sign-in adds a user. */
  lemma NullDiscordIdAlwaysAdds(users: seq<UserRecord>, d: DiscordUser, newId: Id)
    requires d.id.None?
    ensures Upsert(users, d, newId).users == users + [NewUser(d, newId)]
  {
  }

  /** A failed exchange or lookup stops the sign-in before the user table is touched. */
  lemma SignInFailsEarly(users: seq<UserRecord>, code: string,
                         exchange: string -> Result<DiscordToken, DiscordFailure>,
                         userInfo: string -> Result<DiscordUser, DiscordFailure>,
                         sign: (string, Option<string>, Option<string>) -> string, newId: Id)
    ensures exchange(code).Err? ==>
      SignedIn(users, code, exchange, userInfo, sign, newId) == SignIn(users, Err(exchange(code).error))
    ensures exchange(code).Ok? && userInfo(AuthorizationHeader(exchange(code).value)).Err? ==>
      SignedIn(users, code, exchange, userInfo, sign, newId) ==
        SignIn(users, Err(userInfo(AuthorizationHeader(exchange(code).value)).error))
  {
  }

  /**
   * A successful sign-in answers for the stored user with that Discord account: the response's
   * id finds that row, whose user name, e-mail and avatar the response carries.
   */
  lemma SignInAnswersForStoredUser(users: seq<UserRecord>, code: string,
                                   exchange: string -> Result<DiscordToken, DiscordFailure>,
                                   userInfo: string -> Result<DiscordUser, DiscordFailure>,
                                   sign: (string, Option<string>, Option<string>) -> string, newId: Id,
                                   o: SignIn)
    requires DistinctIds(users) && UniqueDiscordIds(users) && FreshId(users, newId)
    requires o == SignedIn(users, code, exchange, userInfo, sign, newId) && o.result.Ok?
    ensures Ids.FromString(o.result.value.userId).Some?
    ensures var u := FindById(o.users, Ids.FromString(o.result.value.userId).value);
      && u.Some? && u.value.username == o.result.value.username
      && u.value.email == o.result.value.email && u.value.avatarUrl == o.result.value.avatarUrl
  {
    var d := userInfo(AuthorizationHeader(exchange(code).value)).value;
    var r := Upsert(users, d, newId);
    UpsertKeepsInvariants(users, d, newId);
    var k := UpsertPosition(users, d, newId);
    FindByIdUnique(r.users, k);
  }

  /** The sign-in service over the shared user table. */
  class DiscordAuthService {
    const userRepository: UserRepository

    predicate Valid()
      reads this, userRepository
    {
      userRepository.Valid() && UniqueDiscordIds(userRepository.users)
    }

    constructor (userRepository: UserRepository)
      requires userRepository.Valid() && UniqueDiscordIds(userRepository.users)
      ensures Valid() && this.userRepository == userRepository
    {
      this.userRepository := userRepository;
    }

    /** `authenticate(code)`, run as one transaction. */
    method Authenticate(code: string,
                        exchange: string -> Result<DiscordToken, DiscordFailure>,
                        userInfo: string -> Result<DiscordUser, DiscordFailure>,
                        sign: (string, Option<string>, Option<string>) -> string, newId: Id)
      returns (r: Result<AuthResponse, DiscordFailure>)
      requires Valid() && FreshId(userRepository.users, newId)
      modifies userRepository
      ensures Valid()
      ensures userRepository.users == SignedIn(old(userRepository.users), code, exchange, userInfo, sign, newId).users
      ensures r == SignedIn(old(userRepository.users), code, exchange, userInfo, sign, newId).result
    {
      var token := exchange(code);
      if token.Err? {
        return Err(token.error);
      }
      var discordUser := userInfo(AuthorizationHeader(token.value));
      if discordUser.Err? {
        return Err(discordUser.error);
      }
      var user := CreateOrUpdateUser(discordUser.value, newId);
      var response := GenerateAuthResponse(user, sign);
      return Ok(response);
    }

    /** `createOrUpdateUser`: look the account up by its Discord id. */
    method CreateOrUpdateUser(d: DiscordUser, newId: Id) returns (user: UserRecord)
      requires Valid() && FreshId(userRepository.users, newId)
      modifies userRepository
      ensures Valid()
      ensures userRepository.users == Upsert(old(userRepository.users), d, newId).users
      ensures user == Upsert(old(userRepository.users), d, newId).user
    {
      var existing := IndexOfDiscordId(userRepository.users, d.id);
      if existing.Some? {
        user := UpdateExistingUser(existing.value, d);
      } else {
        user := CreateNewUser(d, newId);
      }
    }

    /** `updateExistingUser`: three fields set on the loaded row, which is then written back. */
    method UpdateExistingUser(index: nat, d: DiscordUser) returns (user: UserRecord)
      requires Valid() && index < |userRepository.users|
      modifies userRepository
      ensures Valid()
      ensures user == Refreshed(old(userRepository.users[index]), d)
      ensures userRepository.users == old(userRepository.users)[index := user]
    {
      user := userRepository.users[index];
      user := user.(discordUsername := Some(FullUsername(d)));
      user := user.(avatarUrl := AvatarUrl(d));
      user := user.(email := d.email);
      userRepository.PersistAt(index, user);
    }

    /**
     * `createNewUser`: a fresh row filled field by field and persisted under the generated id.
     * The unique Discord id column admits it only when no row has that Discord id yet.
     */
    method CreateNewUser(d: DiscordUser, newId: Id) returns (user: UserRecord)
      requires Valid() && FreshId(userRepository.users, newId)
      requires IndexOfDiscordId(userRepository.users, d.id).None?
      modifies userRepository
      ensures Valid()
      ensures user == NewUser(d, newId)
      ensures userRepository.users == old(userRepository.users) + [user]
    {
      user := UserRecord(newId, None, None, None, 0, None, None, None, None);
      user := user.(discordId := d.id);
      user := user.(username := d.username);
      user := user.(discordUsername := Some(FullUsername(d)));
      user := user.(email := d.email);
      user := user.(avatarUrl := AvatarUrl(d));
      UpsertKeepsInvariants(userRepository.users, d, newId);
      userRepository.PersistNew(user);
    }

    /** `generateAuthResponse`: changes nothing. */
    method GenerateAuthResponse(user: UserRecord, sign: (string, Option<string>, Option<string>) -> string)
      returns (r: AuthResponse)
      ensures r == ResponseFor(user, sign)
      ensures Ids.FromString(r.userId) == Some(user.id)
      ensures r.token == sign(r.userId, user.username, user.email)
      ensures r.username == user.username && r.email == user.email && r.avatarUrl == user.avatarUrl
    {
      var userId := ToString(user.id);
      var jwt := sign(userId, user.username, user.email);
      r := AuthResponse("", "", None, None, None);
      r := r.(token := jwt);
      r := r.(userId := userId);
      r := r.(username := user.username);
      r := r.(email := user.email);
      r := r.(avatarUrl := user.avatarUrl);
      FromStringToString(user.id);
    }
  }
}
