/**
 * The `/api/v1/feedback` endpoints that do more than delegate: the listing's query-parameter
 * defaults, the authentication guard of the update, and the author of a created feedback.
 * The caller's identity is the subject of the bearer token, `None` when there is no token or
 * the token has no subject.
 */
module FeedbackResources {
  import opened Wrappers
  import opened Ids
  import opened Paging
  import opened FeedbackEntities
  import opened Validation
  import opened Errors
  import opened FeedbackSpec
  import FeedbackProperties

  const DefaultListPageSize: int := 10
  const MaxListPageSize: int := 20
  const DefaultSortOrder: string := "newest"
  const AuthenticationRequiredMessage: string := "Authentication required to update feedback"

  /** `page != null ? page : 1`. */
  function ListPage(page: Option<int>): (p: int)
    ensures page.None? ==> p == 1
    ensures page.Some? ==> p == page.value
  {
    if page.Some? then page.value else 1
  }

  /** `size != null ? Math.min(size, 20) : 10`. */
  function ListPageSize(size: Option<int>): (n: int)
    ensures n <= MaxListPageSize
    ensures size.None? ==> n == DefaultListPageSize
    ensures size.Some? && size.value <= MaxListPageSize ==> n == size.value
  {
    if size.None? then DefaultListPageSize
    else if size.value < MaxListPageSize then size.value
    else MaxListPageSize
  }

  /** `sort != null ? sort : "newest"`. */
  function ListSortOrder(sort: Option<string>): (order: string)
    ensures sort.Some? ==> order == sort.value
    ensures sort.None? ==> !Text.EqualsIgnoreCase("oldest", order)
  {
    if sort.Some? then sort.value
    else
      assert !Text.CharEqualsIgnoreCase("oldest"[0], DefaultSortOrder[0]);
      DefaultSortOrder
  }

  /** `GET /?page&pageSize&sortBy`. */
  function ListAll(s: Store, page: Option<int>, size: Option<int>, sort: Option<string>)
    : (r: PaginatedFeedbackResponse)
    requires WellFormed(s)
    ensures 1 <= r.size <= MaxListPageSize && r.page >= 1
    ensures |r.items| <= MaxListPageSize
  {
    ListFeedback(s, ListPage(page), ListPageSize(size), Some(ListSortOrder(sort)))
  }

  /** `POST /`: the token's subject is passed as the author. */
  function Create(s: Store, subject: Option<string>, c: CreateFeedbackCommand, newId: Id, now: Instant)
    : (o: Outcome<FeedbackResponse>)
    requires WellFormed(s) && newId !in s.feedbacks
    ensures WellFormed(o.store)
  {
    CreateFeedback(s, c, subject, newId, now)
  }

  /**
   * `PATCH /{id}`: without a subject the request fails before the service is reached; otherwise
   * the subject is parsed as the caller's id, then the path id, and the authorised update runs.
   */
  function Update(s: Store, subject: Option<string>, idText: string, c: UpdateFeedbackCommand)
    : (o: Outcome<FeedbackResponse>)
    requires WellFormed(s)
    ensures WellFormed(o.store)
    ensures o.result.Err? ==> o.store == s
  {
    if subject.None? then Fail(s, Unauthorized(AuthenticationRequiredMessage))
    else
      match Ids.FromString(subject.value)
      case None => Fail(s, InvalidId(subject.value))
      case Some(callerId) =>
        match Ids.FromString(idText)
        case None => Fail(s, InvalidId(idText))
        case Some(id) => UpdateFeedbackAsUser(s, id, c, callerId)
  }

  // ---------------------------------------------------------------- properties

  /**
   * The page size a listing is served with: 10 when absent, the requested size when it lies
   * in [1, 20], 20 above that and 1 below it. The page is 1 when absent or below 1.
   */
  lemma ListAllParameters(s: Store, page: Option<int>, size: Option<int>, sort: Option<string>)
    requires WellFormed(s)
    ensures var r := ListAll(s, page, size, sort);
      && (size.None? ==> r.size == 10)
      && (size.Some? && 1 <= size.value <= MaxListPageSize ==> r.size == size.value)
      && (size.Some? && size.value > MaxListPageSize ==> r.size == MaxListPageSize)
      && (size.Some? && size.value < 1 ==> r.size == 1)
      && (page.None? ==> r.page == 1)
      && (page.Some? && page.value >= 1 ==> r.page == page.value)
      && (page.Some? && page.value < 1 ==> r.page == 1)
  {
  }

  /** Without `sortBy`, and with any value other than "oldest" up to case, the newest come first. */
  lemma ListAllNewestFirst(s: Store, page: Option<int>, size: Option<int>, sort: Option<string>)
    requires WellFormed(s)
    requires sort.None? || !Text.EqualsIgnoreCase("oldest", sort.value)
    ensures var r := ListAll(s, page, size, sort);
      forall i, j :: 0 <= i < j < |r.items| ==> r.items[i].createdAt >= r.items[j].createdAt
  {
    var sortOrder := Some(ListSortOrder(sort));
    assert !IsOldestFirst(sortOrder);
    FeedbackProperties.ListOrdered(s, ListPage(page), ListPageSize(size), sortOrder, ListAll(s, page, size, sort));
  }

  /**
   * A request without a subject is refused with the fixed message whatever it carries, and
   * nothing changes; the domain mapper turns the refusal into a 500.
   */
  lemma UpdateRequiresSubject(s: Store, idText: string, c: UpdateFeedbackCommand, now: Instant)
    requires WellFormed(s)
    ensures Update(s, None, idText, c) == Outcome(s, Err(Unauthorized(AuthenticationRequiredMessage)))
    ensures MapDomainException(Unauthorized(AuthenticationRequiredMessage), now).status == InternalServerError
  {
  }

  /** With a parseable subject and id, the endpoint is the authorised update by that caller. */
  lemma UpdateDelegates(s: Store, subject: string, idText: string, c: UpdateFeedbackCommand)
    requires WellFormed(s)
    requires Ids.FromString(subject).Some? && Ids.FromString(idText).Some?
    ensures Update(s, Some(subject), idText, c) ==
      UpdateFeedbackAsUser(s, Ids.FromString(idText).value, c, Ids.FromString(subject).value)
  {
  }

  /** A malformed subject is reported before the path id is looked at. */
  lemma UpdateSubjectParsedFirst(s: Store, subject: string, idText: string, c: UpdateFeedbackCommand)
    requires WellFormed(s)
    requires Ids.FromString(subject).None?
    ensures Update(s, Some(subject), idText, c) == Outcome(s, Err(InvalidId(subject)))
  {
  }

  /** A created feedback is attributed to the caller: its author's public id is the token's subject. */
  lemma CreateAuthorIsCaller(s: Store, subject: Option<string>, c: CreateFeedbackCommand, newId: Id, now: Instant)
    requires WellFormed(s) && newId !in s.feedbacks
    requires Create(s, subject, c, newId, now).result.Ok?
    ensures subject.Some?
    ensures newId in Create(s, subject, c, newId, now).store.feedbacks
    ensures Create(s, subject, c, newId, now).store.feedbacks[newId].authorId.Some?
    ensures ToString(Create(s, subject, c, newId, now).store.feedbacks[newId].authorId.value) == subject.value
  {
    var o := Create(s, subject, c, newId, now);
    assert o == CreateFeedback(s, c, subject, newId, now);
    FeedbackProperties.CreateFeedbackRow(s, c, subject, newId, now, o);
    ToStringFromString(subject.value);
  }
}
