/**
 * The `/api/v1/users` endpoints: the query-parameter defaults they apply before handing
 * over to the leaderboard. An absent query parameter is `None`.
 */
module UserResources {
  import opened Wrappers
  import opened Paging
  import opened Users
  import opened Leaderboard

  const DefaultPageSize: int := 10

  /** `page != null ? page : 1`. */
  function PageOrDefault(page: Option<int>): (p: int)
    ensures page.None? ==> p == 1
    ensures page.Some? ==> p == page.value
  {
    if page.Some? then page.value else 1
  }

  /** `size != null ? Math.min(size, 100) : 10`. */
  function PageSizeOrDefault(size: Option<int>): (n: int)
    ensures n <= MaxPageSize
    ensures size.None? ==> n == DefaultPageSize
    ensures size.Some? && size.value <= MaxPageSize ==> n == size.value
  {
    if size.None? then DefaultPageSize
    else if size.value < MaxPageSize then size.value
    else MaxPageSize
  }

  /** `limit != null ? limit : 10`: a present limit is passed on unclamped. */
  function LimitOrDefault(limit: Option<int>): (n: int)
    ensures limit.None? ==> n == DefaultPageSize
    ensures limit.Some? ==> n == limit.value
  {
    if limit.Some? then limit.value else DefaultPageSize
  }

  /** `GET /leaderboard?page&pageSize`. */
  function GetLeaderboardEndpoint(users: seq<UserRecord>, page: Option<int>, size: Option<int>)
    : (r: Result<PaginatedLeaderboardResponse, LeaderboardError>)
    requires FetchFitsInt(PageOrDefault(page), PageSizeOrDefault(size))
    ensures r.Ok? ==> 1 <= r.value.pageSize <= MaxPageSize && r.value.currentPage >= 1
  {
    GetLeaderboard(users, PageOrDefault(page), PageSizeOrDefault(size))
  }

  /** `GET /leaderboard/top?limit`. */
  function GetTopUsersEndpoint(users: seq<UserRecord>, limit: Option<int>): (r: seq<LeaderboardEntry>)
    ensures |r| <= MaxPageSize
  {
    GetTopUsers(users, LimitOrDefault(limit))
  }

  /**
   * The page size a leaderboard request is served with: 10 when absent, the requested size
   * when it lies in [1, 100], 100 above that and 1 below it (the resource caps, the service
   * clamps). The page is 1 when absent or below 1.
   */
  lemma LeaderboardParameters(users: seq<UserRecord>, page: Option<int>, size: Option<int>)
    requires FetchFitsInt(PageOrDefault(page), PageSizeOrDefault(size))
    requires GetLeaderboardEndpoint(users, page, size).Ok?
    ensures var r := GetLeaderboardEndpoint(users, page, size).value;
      && (size.None? ==> r.pageSize == 10)
      && (size.Some? && 1 <= size.value <= MaxPageSize ==> r.pageSize == size.value)
      && (size.Some? && size.value > MaxPageSize ==> r.pageSize == MaxPageSize)
      && (size.Some? && size.value < 1 ==> r.pageSize == 1)
      && (page.None? ==> r.currentPage == 1)
      && (page.Some? && page.value >= 1 ==> r.currentPage == page.value)
      && (page.Some? && page.value < 1 ==> r.currentPage == 1)
  {
  }

  /** Without parameters the first ten ranked users are listed, as with `limit=10`. */
  lemma TopUsersDefault(users: seq<UserRecord>)
    ensures GetTopUsersEndpoint(users, None) == GetTopUsers(users, 10)
    ensures |GetTopUsersEndpoint(users, None)| == if |users| < 10 then |users| else 10
  {
  }

  /**
   * A present limit reaches the service unchanged, so the number listed is the limit clamped
   * to [1, 100] (and at most the number of users).
   */
  lemma TopUsersLimitClamped(users: seq<UserRecord>, limit: int)
    ensures GetTopUsersEndpoint(users, Some(limit)) == GetTopUsers(users, limit)
    ensures limit < 1 && |users| >= 1 ==> |GetTopUsersEndpoint(users, Some(limit))| == 1
    ensures limit > MaxPageSize && |users| >= MaxPageSize ==>
      |GetTopUsersEndpoint(users, Some(limit))| == MaxPageSize
    ensures 1 <= limit <= |users| && limit <= MaxPageSize ==>
      |GetTopUsersEndpoint(users, Some(limit))| == limit
  {
  }
}
