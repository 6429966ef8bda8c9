/** Stored users and the lookups the services make on them. */
module Users {
  import opened Wrappers
  import opened Ids
  import opened Roles

  /**
   * A row of the user table. Reference-typed columns may be null. `role` is read by the
   * services although the entity class does not declare it.
   */
  datatype UserRecord = UserRecord(
    id: Id,
    name: Option<string>,
    username: Option<string>,
    email: Option<string>,
    reputationScore: int,
    discordId: Option<int>,
    discordUsername: Option<string>,
    avatarUrl: Option<string>,
    role: Option<Role>)

  /** The primary key is unique. */
  predicate DistinctIds(users: seq<UserRecord>) {
    forall i, j :: 0 <= i < j < |users| ==> users[i].id != users[j].id
  }

  /** `findById`: the row with that id, or null. */
  function FindById(users: seq<UserRecord>, id: Id): (r: Option<UserRecord>)
    ensures r.Some? ==> r.value in users && r.value.id == id
    ensures r.None? <==> forall u :: u in users ==> u.id != id
  {
    if users == [] then None
    else if users[0].id == id then Some(users[0])
    else FindById(users[1..], id)
  }

  /**
   * `findByDiscordId`: the position of the first row whose Discord id equals the given one.
   * The query compares with SQL `=`, so a null Discord id matches no row.
   */
  function IndexOfDiscordId(users: seq<UserRecord>, discordId: Option<int>): (r: Option<nat>)
    ensures r.Some? ==> discordId.Some? && r.value < |users| && users[r.value].discordId == discordId
    ensures r.Some? ==> forall i :: 0 <= i < r.value ==> users[i].discordId != discordId
    ensures r.None? ==> discordId.None? || forall i :: 0 <= i < |users| ==> users[i].discordId != discordId
  {
    if discordId.None? || users == [] then None
    else if users[0].discordId == discordId then Some(0)
    else
      var rest := IndexOfDiscordId(users[1..], discordId);
      if rest.None? then None else Some(rest.value + 1)
  }

  /** In a table with unique ids, the row found by id is the only one with that id. */
  lemma {:induction false} FindByIdUnique(users: seq<UserRecord>, i: nat)
    requires DistinctIds(users)
    requires i < |users|
    ensures FindById(users, users[i].id) == Some(users[i])
  {
    if i > 0 {
      assert users[0].id != users[i].id;
      assert users[1..][i - 1] == users[i];
      FindByIdUnique(users[1..], i - 1);
    }
  }

  /** The user table: one shared store that the feedback service reads and sign-in writes. */
  class UserRepository {
    var users: seq<UserRecord>

    predicate Valid()
      reads this
    {
      DistinctIds(users)
    }

    constructor (users: seq<UserRecord>)
      requires DistinctIds(users)
      ensures Valid() && this.users == users
    {
      this.users := users;
    }

    /** `persistAndFlush` of a loaded user: the row is written back in place. */
    method PersistAt(index: nat, u: UserRecord)
      requires Valid() && index < |users| && u.id == users[index].id
      modifies this
      ensures Valid()
      ensures users == old(users)[index := u]
    {
      users := users[index := u];
    }

    /** `persistAndFlush` of a new user: the row is appended under its generated id. */
    method PersistNew(u: UserRecord)
      requires Valid() && forall v :: v in users ==> v.id != u.id
      modifies this
      ensures Valid()
      ensures users == old(users) + [u]
    {
      users := users + [u];
    }
  }
}
