/**
 * The user leaderboard: users ranked by reputation score, served one page at a time
 * (`getLeaderboard`) or as a top list (`getTopUsers`). Nothing here changes the user table.
 */
module Leaderboard {
  import opened Wrappers
  import opened Ids
  import opened Paging
  import opened Sorting
  import opened Users

  /** One ranked user as the leaderboard shows it. */
  datatype LeaderboardEntry = LeaderboardEntry(
    userId: string,
    username: Option<string>,
    displayName: Option<string>,
    reputationScore: int,
    avatarUrl: Option<string>)

  datatype PaginatedLeaderboardResponse = PaginatedLeaderboardResponse(
    entries: seq<LeaderboardEntry>,
    currentPage: int,
    pageSize: int,
    totalUsers: nat,
    totalPages: nat)

  /**
   * `ArrayList.subList(from, to)` throws `IllegalArgumentException` when `from > to`. Its
   * `IndexOutOfBoundsException` cases (`from < 0`, `to > size`) cannot arise while the offsets
   * fit in an `int`.
   */
  datatype LeaderboardError = FromIndexAfterToIndex(fromIndex: int, toIndex: int)

  function Reputation(u: UserRecord): int {
    u.reputationScore
  }

  /** `ORDER BY reputationScore DESC`: every user, highest score first. */
  function Ranking(users: seq<UserRecord>): (r: seq<UserRecord>)
    ensures |r| == |users| && multiset(r) == multiset(users)
    ensures forall i, j :: 0 <= i < j < |r| ==> r[i].reputationScore >= r[j].reputationScore
  {
    var r := SortDirected(users, Reputation, false);
    assert forall i :: 0 <= i < |r| ==> Reputation(r[i]) == r[i].reputationScore;
    r
  }

  /** `findTopByReputation(limit)`: the first page, of `limit` rows, of the ranking. */
  function FindTopByReputation(users: seq<UserRecord>, limit: int): (r: seq<UserRecord>)
    requires limit >= 1
    ensures |r| == if limit < |users| then limit else |users|
    ensures r == Ranking(users)[..|r|]
  {
    var ranked := Ranking(users);
    if limit < |ranked| then ranked[..limit] else ranked
  }

  /** `toLeaderboardEntry`: the public id text, username, name as display name, score and avatar. */
  function ToEntry(u: UserRecord): (e: LeaderboardEntry)
    ensures Ids.FromString(e.userId) == Some(u.id)
  {
    FromStringToString(u.id);
    LeaderboardEntry(ToString(u.id), u.username, u.name, u.reputationScore, u.avatarUrl)
  }

  function Entries(users: seq<UserRecord>): (r: seq<LeaderboardEntry>)
    ensures |r| == |users|
    ensures forall i :: 0 <= i < |r| ==> r[i] == ToEntry(users[i])
  {
    seq(|users|, i requires 0 <= i < |users| => ToEntry(users[i]))
  }

  /**
   * The number of rows fetched, `(page - 1) * size + size`, is a Java `int`: the page request
   * is modelled only where that product does not overflow.
   */
  predicate FetchFitsInt(pageNumber: int, pageSize: int) {
    Offset(NormalizePage(pageNumber), NormalizeSize(pageSize)) + NormalizeSize(pageSize) <= MaxInt
  }

  /**
   * `getLeaderboard(pageNumber, pageSize)`: clamp the page to at least 1 and the size to
   * [1, 100], fetch the first `page * size` ranked users, and cut out
   * `[(page - 1) * size, min(page * size, fetched))`.
   */
  function GetLeaderboard(users: seq<UserRecord>, pageNumber: int, pageSize: int)
    : (r: Result<PaginatedLeaderboardResponse, LeaderboardError>)
    requires FetchFitsInt(pageNumber, pageSize)
    ensures r.Ok? ==> r.value.currentPage == NormalizePage(pageNumber)
    ensures r.Ok? ==> r.value.pageSize == NormalizeSize(pageSize)
    ensures r.Ok? ==> |r.value.entries| <= r.value.pageSize
    ensures r.Ok? ==> r.value.totalUsers == |users|
    ensures r.Ok? ==> r.value.totalPages == CeilDiv(|users|, r.value.pageSize)
  {
    var page := NormalizePage(pageNumber);
    var size := NormalizeSize(pageSize);
    var startIndex := Offset(page, size);
    var fetched := FindTopByReputation(users, startIndex + size);
    var endIndex := if startIndex + size < |fetched| then startIndex + size else |fetched|;
    if startIndex > endIndex then Err(FromIndexAfterToIndex(startIndex, endIndex))
    else
      Ok(PaginatedLeaderboardResponse(Entries(fetched[startIndex..endIndex]), page, size,
                                      |users|, CeilDiv(|users|, size)))
  }

  /** `getTopUsers(limit)`: clamp the limit to [1, 100] and list that many ranked users. */
  function GetTopUsers(users: seq<UserRecord>, limit: int): (r: seq<LeaderboardEntry>)
    ensures |r| <= MaxPageSize
    ensures |r| == if NormalizeSize(limit) < |users| then NormalizeSize(limit) else |users|
  {
    Entries(FindTopByReputation(users, NormalizeSize(limit)))
  }

  // ---------------------------------------------------------------- properties

  /**
   * A page fails exactly when it starts past the last user; the error names the page's
   * offset and the user count. A page that starts right at the end is empty, not an error.
   */
  lemma LeaderboardOkIff(users: seq<UserRecord>, pageNumber: int, pageSize: int)
    requires FetchFitsInt(pageNumber, pageSize)
    ensures GetLeaderboard(users, pageNumber, pageSize).Ok? <==>
      Offset(NormalizePage(pageNumber), NormalizeSize(pageSize)) <= |users|
    ensures GetLeaderboard(users, pageNumber, pageSize).Err? ==>
      GetLeaderboard(users, pageNumber, pageSize).error ==
        FromIndexAfterToIndex(Offset(NormalizePage(pageNumber), NormalizeSize(pageSize)), |users|)
  {
  }

  /**
   * Fetching the first `page * size` ranked users and slicing agrees with cutting the page
   * out of the whole ranking.
   */
  lemma LeaderboardIsPageOfRanking(users: seq<UserRecord>, pageNumber: int, pageSize: int,
                                   r: PaginatedLeaderboardResponse)
    requires FetchFitsInt(pageNumber, pageSize)
    requires GetLeaderboard(users, pageNumber, pageSize) == Ok(r)
    ensures r.entries == Entries(PageSlice(Ranking(users), r.currentPage, r.pageSize))
  {
    var page := NormalizePage(pageNumber);
    var size := NormalizeSize(pageSize);
    var startIndex := Offset(page, size);
    var fetched := FindTopByReputation(users, startIndex + size);
    var endIndex := if startIndex + size < |fetched| then startIndex + size else |fetched|;
    assert r.entries == Entries(fetched[startIndex..endIndex]);
    PrefixWindowIsPage(Ranking(users), fetched, page, size);
    assert endIndex == |fetched|;
  }

  /**
   * A prefix that holds the first offset + size items (or all of them), read from the offset on,
   * is the page cut out of the whole sequence.
   */
  lemma PrefixWindowIsPage<T>(all: seq<T>, prefix: seq<T>, page: int, size: int)
    requires page >= 1 && size >= 1
    requires |prefix| == (if Offset(page, size) + size < |all| then Offset(page, size) + size else |all|)
    requires prefix == all[..|prefix|]
    requires Offset(page, size) <= |prefix|
    ensures |prefix| <= Offset(page, size) + size
    ensures prefix[Offset(page, size)..] == PageSlice(all, page, size)
  {
  }

  /** Entries keep the ranking's order: reputation never rises down the page. */
  lemma LeaderboardOrdered(users: seq<UserRecord>, pageNumber: int, pageSize: int,
                           r: PaginatedLeaderboardResponse)
    requires FetchFitsInt(pageNumber, pageSize)
    requires GetLeaderboard(users, pageNumber, pageSize) == Ok(r)
    ensures forall i, j :: 0 <= i < j < |r.entries| ==>
      r.entries[i].reputationScore >= r.entries[j].reputationScore
  {
    LeaderboardIsPageOfRanking(users, pageNumber, pageSize, r);
    PageOfRankingOrdered(Ranking(users), r.currentPage, r.pageSize);
  }

  lemma PageOfRankingOrdered(ranked: seq<UserRecord>, page: int, size: int)
    requires page >= 1 && size >= 1
    requires forall i, j :: 0 <= i < j < |ranked| ==> ranked[i].reputationScore >= ranked[j].reputationScore
    ensures forall i, j :: 0 <= i < j < |PageSlice(ranked, page, size)| ==>
      Entries(PageSlice(ranked, page, size))[i].reputationScore >=
      Entries(PageSlice(ranked, page, size))[j].reputationScore
  {
    var slice := PageSlice(ranked, page, size);
    var offset := Offset(page, size);
    forall i, j | 0 <= i < j < |slice|
      ensures Entries(slice)[i].reputationScore >= Entries(slice)[j].reputationScore
    {
      assert slice[i] == ranked[offset + i] && slice[j] == ranked[offset + j];
    }
  }

  /** A served page has entries exactly when its number is within the page count. */
  lemma LeaderboardPageNonEmptyIff(users: seq<UserRecord>, pageNumber: int, pageSize: int,
                                   r: PaginatedLeaderboardResponse)
    requires FetchFitsInt(pageNumber, pageSize)
    requires GetLeaderboard(users, pageNumber, pageSize) == Ok(r)
    ensures |r.entries| > 0 <==> r.currentPage <= r.totalPages
  {
    LeaderboardIsPageOfRanking(users, pageNumber, pageSize, r);
    PageNonEmptyIff(Ranking(users), r.currentPage, r.pageSize);
  }

  /** No users means no pages, and then only a first page can be served (empty). */
  lemma EmptyLeaderboard(pageNumber: int, pageSize: int)
    requires FetchFitsInt(pageNumber, pageSize)
    ensures GetLeaderboard([], pageNumber, pageSize).Ok? <==> NormalizePage(pageNumber) == 1
    ensures GetLeaderboard([], pageNumber, pageSize).Ok? ==>
      GetLeaderboard([], pageNumber, pageSize).value.entries == [] &&
      GetLeaderboard([], pageNumber, pageSize).value.totalPages == 0
  {
    var page := NormalizePage(pageNumber);
    var size := NormalizeSize(pageSize);
    if page > 1 {
      MulMonotone(1, page - 1, size);
    }
  }

  /** The top list is the first leaderboard page of the same (clamped) size. */
  lemma TopUsersIsFirstPage(users: seq<UserRecord>, limit: int)
    ensures FetchFitsInt(1, limit)
    ensures GetLeaderboard(users, 1, limit).Ok?
    ensures GetTopUsers(users, limit) == GetLeaderboard(users, 1, limit).value.entries
  {
    var size := NormalizeSize(limit);
    assert NormalizePage(1) == 1 && Offset(1, size) == 0;
    var fetched := FindTopByReputation(users, size);
    assert fetched == FindTopByReputation(users, Offset(1, size) + size);
    var endIndex := if size < |fetched| then size else |fetched|;
    assert endIndex == |fetched| && fetched[0..endIndex] == fetched;
  }

  /** Every listed user scores at least as high as every user left off the list. */
  lemma TopUsersOutrankTheRest(users: seq<UserRecord>, limit: int, u: UserRecord)
    requires u in users && u !in FindTopByReputation(users, NormalizeSize(limit))
    ensures forall i :: 0 <= i < |GetTopUsers(users, limit)| ==>
      GetTopUsers(users, limit)[i].reputationScore >= u.reputationScore
  {
    var ranked := Ranking(users);
    var top := FindTopByReputation(users, NormalizeSize(limit));
    assert u in multiset(ranked);
    var k :| 0 <= k < |ranked| && ranked[k] == u;
    forall i | 0 <= i < |top|
      ensures GetTopUsers(users, limit)[i].reputationScore >= u.reputationScore
    {
      assert top[i] == ranked[i];
    }
  }
}
