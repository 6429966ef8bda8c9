/**
 * What each operation of the feedback application service does, stated on an abstract view of
 * the tables it works on. Every operation is one transaction: it either fails with a
 * `ServiceError` and leaves the tables as they were, or succeeds with a new state and a response.
 */
module FeedbackSpec {
  import opened Wrappers
  import opened Text
  import opened Ids
  import opened Sorting
  import opened Paging
  import VD = VoteDirections
  import opened Roles
  import opened Users
  import opened FeedbackEntities
  import opened CommentEntities
  import opened Validation
  import opened Errors

  /** A row of the category table. */
  datatype CategoryRecord = CategoryRecord(id: Id, name: string)

  /**
   * The tables the service reads and writes. The `...Order` sequences are the tables' row order,
   * which is the order an unsorted query returns.
   */
  datatype Store = Store(
    feedbacks: map<Id, FeedbackRecord>,
    feedbackOrder: seq<Id>,
    comments: map<Id, CommentRecord>,
    commentOrder: seq<Id>,
    categories: map<Id, CategoryRecord>,
    users: seq<UserRecord>)

  predicate Distinct(s: seq<Id>) {
    forall i, j :: 0 <= i < j < |s| ==> s[i] != s[j]
  }

  /** Every feedback row sits under its own primary key, and the row order lists each row once. */
  predicate FeedbackTable(rows: map<Id, FeedbackRecord>, order: seq<Id>) {
    && (forall k :: k in rows ==> rows[k].id == Some(k))
    && Distinct(order) && (forall k :: k in rows ==> k in order) && (forall k :: k in order ==> k in rows)
    && |rows| == |order|
  }

  /** Every comment row sits under its own primary key, and the row order lists each row once. */
  predicate CommentTable(rows: map<Id, CommentRecord>, order: seq<Id>) {
    && (forall k :: k in rows ==> rows[k].id == Some(k))
    && Distinct(order) && (forall k :: k in rows ==> k in order) && (forall k :: k in order ==> k in rows)
  }

  predicate WellFormed(s: Store) {
    FeedbackTable(s.feedbacks, s.feedbackOrder) && CommentTable(s.comments, s.commentOrder) && DistinctIds(s.users)
  }

  /** The outcome of one transaction. */
  datatype Outcome<T> = Outcome(store: Store, result: Result<T, ServiceError>)

  function Fail<T>(s: Store, e: ServiceError): (o: Outcome<T>)
    ensures o.store == s && o.result == Err(e)
  {
    Outcome(s, Err(e))
  }

  /** `FeedbackResponse` as `toResponse` fills it. */
  datatype FeedbackResponse = FeedbackResponse(
    id: string,
    title: string,
    description: string,
    sentiment: Option<string>,
    upvotes: nat,
    comments: nat,
    status: FeedbackStatus,
    categoryName: Option<string>,
    authorName: Option<string>,
    createdAt: Instant,
    archived: bool)

  datatype CommentAuthorResponse = CommentAuthorResponse(id: string, name: Option<string>)

  datatype CommentResponse = CommentResponse(
    id: string,
    author: CommentAuthorResponse,
    text: string,
    isDeveloperResponse: bool,
    upvotes: nat,
    createdAt: Option<Instant>,
    updatedAt: Option<Instant>)

  datatype PaginatedFeedbackResponse = PaginatedFeedbackResponse(
    items: seq<FeedbackResponse>,
    page: int,
    size: int,
    totalItems: nat,
    totalPages: nat)

  /** The default message of `NotNull` on a method parameter. */
  const NotNullMessage: string := "must not be null"
  const UpdateDeniedMessage: string := "Only the feedback author or an admin can update this feedback"

  /** The user every comment is attributed to, whoever sends it. */
  const FixedCommentAuthorId: Id := 117457749108987389
  /** The id the "user not found" failure of `addComment` names instead. */
  const ReportedCommentAuthorId: Id := 1

  function CategoryName(s: Store, categoryId: Option<Id>): Option<string> {
    if categoryId.Some? && categoryId.value in s.categories then Some(s.categories[categoryId.value].name) else None
  }

  /** The `name` of the referenced user; null for no user. */
  function UserName(s: Store, userId: Option<Id>): Option<string> {
    if userId.None? then None
    else
      var u := FindById(s.users, userId.value);
      if u.None? then None else u.value.name
  }

  /** `toResponse`: the id in its canonical text, the relations by name, downvotes not exposed. */
  function ToResponse(s: Store, id: Id, f: FeedbackRecord): (r: FeedbackResponse)
    ensures |r.id| == IdLength
    ensures r.categoryName.Some? ==> f.categoryId.Some? && f.categoryId.value in s.categories
    ensures r.authorName.Some? ==> f.authorId.Some? && FindById(s.users, f.authorId.value).Some?
  {
    FeedbackResponse(ToString(id), f.title, f.description, f.sentiment, f.upvotes, f.comments, f.status,
                     CategoryName(s, f.categoryId), UserName(s, f.authorId), f.createdAt, f.archived)
  }

  /** `toCommentResponse`. */
  function ToCommentResponse(s: Store, id: Id, c: CommentRecord): (r: CommentResponse)
    ensures |r.id| == IdLength && |r.author.id| == IdLength
    ensures r.author.name.Some? ==> FindById(s.users, c.authorId).Some?
  {
    CommentResponse(ToString(id), CommentAuthorResponse(ToString(c.authorId), UserName(s, Some(c.authorId))),
                    c.text, c.isDeveloperResponse, c.upvotes, c.createdAt, c.updatedAt)
  }

  /** A response names its row by the row's public id, which parses back to that id. */
  lemma ResponseIdsParse(s: Store, id: Id, f: FeedbackRecord, commentId: Id, c: CommentRecord)
    ensures Ids.FromString(ToResponse(s, id, f).id) == Some(id)
    ensures Ids.FromString(ToCommentResponse(s, commentId, c).id) == Some(commentId)
    ensures Ids.FromString(ToCommentResponse(s, commentId, c).author.id) == Some(c.authorId)
  {
    FromStringToString(id);
    FromStringToString(commentId);
    FromStringToString(c.authorId);
  }

  /** The store with a new feedback row at the end of the table. */
  function InsertFeedback(s: Store, id: Id, f: FeedbackRecord): Store {
    s.(feedbacks := s.feedbacks[id := f], feedbackOrder := s.feedbackOrder + [id])
  }

  /** The store with one feedback row replaced. */
  function PutFeedback(s: Store, id: Id, f: FeedbackRecord): Store {
    s.(feedbacks := s.feedbacks[id := f])
  }

  /** The store with a new comment row at the end of the table. */
  function InsertComment(s: Store, id: Id, c: CommentRecord): Store {
    s.(comments := s.comments[id := c], commentOrder := s.commentOrder + [id])
  }

  /** The store with one comment row replaced. */
  function PutComment(s: Store, id: Id, c: CommentRecord): Store {
    s.(comments := s.comments[id := c])
  }

  /** Inserting a row under a fresh key, at the end of the table, keeps the store well formed. */
  lemma InsertFeedbackKeepsWellFormed(s: Store, id: Id, f: FeedbackRecord)
    requires WellFormed(s) && id !in s.feedbacks && f.id == Some(id)
    ensures WellFormed(InsertFeedback(s, id, f))
  {
    var order := s.feedbackOrder + [id];
    assert id !in s.feedbackOrder;
    assert forall i :: 0 <= i < |s.feedbackOrder| ==> order[i] == s.feedbackOrder[i];
  }

  /** Replacing a row under its own key keeps the store well formed. */
  lemma PutFeedbackKeepsWellFormed(s: Store, id: Id, f: FeedbackRecord)
    requires WellFormed(s) && id in s.feedbacks && f.id == Some(id)
    ensures WellFormed(PutFeedback(s, id, f))
  {
    assert s.feedbacks[id := f].Keys == s.feedbacks.Keys;
  }

  /** Inserting a comment row under a fresh key keeps the store well formed. */
  lemma InsertCommentKeepsWellFormed(s: Store, id: Id, c: CommentRecord)
    requires WellFormed(s) && id !in s.comments && c.id == Some(id)
    ensures WellFormed(InsertComment(s, id, c))
  {
    var order := s.commentOrder + [id];
    assert id !in s.commentOrder;
    assert forall i :: 0 <= i < |s.commentOrder| ==> order[i] == s.commentOrder[i];
  }

  /** Replacing a comment row under its own key keeps the store well formed. */
  lemma PutCommentKeepsWellFormed(s: Store, id: Id, c: CommentRecord)
    requires WellFormed(s) && id in s.comments && c.id == Some(id)
    ensures WellFormed(PutComment(s, id, c))
  {
    assert s.comments[id := c].Keys == s.comments.Keys;
  }

  // ---------------------------------------------------------------- create

  /** The row `createFeedback` persists: a new entity with the category and the caller as author. */
  function Created(title: string, description: string, categoryId: Option<Id>, authorId: Id, newId: Id,
                   now: Instant): FeedbackRecord
  {
    NewFeedback(title, description, now).(id := Some(newId), categoryId := categoryId, authorId := Some(authorId))
  }

  /**
   * `createFeedback(command, userId)`: validation, then the category, then the caller's id and
   * user row. Sentiment and tags of the command are not copied. `newId` is the generated id.
   */
  function CreateFeedback(s: Store, c: CreateFeedbackCommand, userId: Option<string>, newId: Id,
                          now: Instant): (o: Outcome<FeedbackResponse>)
    requires WellFormed(s) && newId !in s.feedbacks
    ensures WellFormed(o.store)
    ensures o.result.Err? ==> o.store == s
  {
    var violations := CreateViolations(c) + (if userId.None? then [Violation(CreateUserIdPath, NotNullMessage)] else []);
    if violations != [] then Fail(s, ValidationFailed(violations))
    else if c.categoryId.Some? && c.categoryId.value !in s.categories then
      Fail(s, CategoryNotFound(c.categoryId.value))
    else
      match Ids.FromString(userId.value)
      case None => Fail(s, InvalidId(userId.value))
      case Some(uid) =>
        if FindById(s.users, uid).None? then Fail(s, UserNotFound(uid))
        else
          var f := Created(c.title.value, c.description.value, c.categoryId, uid, newId, now);
          InsertFeedbackKeepsWellFormed(s, newId, f);
          var t := InsertFeedback(s, newId, f);
          Outcome(t, Ok(ToResponse(t, newId, f)))
  }

  // ---------------------------------------------------------------- update

  /** The lookups an update makes, in the source's order: the category, then the author. */
  function UpdateLookupError(s: Store, c: UpdateFeedbackCommand): (e: Option<ServiceError>)
    ensures e.None? <==>
      (c.categoryId.None? || c.categoryId.value in s.categories) &&
      (c.authorId.None? || FindById(s.users, c.authorId.value).Some?)
  {
    if c.categoryId.Some? && c.categoryId.value !in s.categories then Some(CategoryNotFound(c.categoryId.value))
    else if c.authorId.Some? && FindById(s.users, c.authorId.value).None? then Some(UserNotFound(c.authorId.value))
    else None
  }

  /** Every editable field overwritten from the command; a null relation id clears the relation. */
  function Updated(f: FeedbackRecord, c: UpdateFeedbackCommand): FeedbackRecord
    requires c.title.Some? && c.description.Some? && c.status.Some?
  {
    f.(title := c.title.value, description := c.description.value, status := c.status.value,
       categoryId := c.categoryId, authorId := c.authorId, sentiment := c.sentiment, tags := c.tags)
  }

  /**
   * The part both update overloads share once the feedback is found and the caller may edit it.
   * The command puts no cap on sentiment and tags, so the entity's own constraints can still
   * reject the edited row when the transaction flushes it; the commit then rolls back.
   */
  function ApplyUpdate(s: Store, id: Id, c: UpdateFeedbackCommand): (o: Outcome<FeedbackResponse>)
    requires WellFormed(s) && id in s.feedbacks && UpdateViolations(c) == []
    ensures WellFormed(o.store)
    ensures o.result.Err? ==> o.store == s
    ensures o.result.Ok? ==> o.store == PutFeedback(s, id, Updated(s.feedbacks[id], c))
    ensures o.result.Ok? ==> ValidFeedback(Updated(s.feedbacks[id], c))
  {
    match UpdateLookupError(s, c)
    case Some(e) => Fail(s, e)
    case None =>
      var f := Updated(s.feedbacks[id], c);
      var rejected := FeedbackEntityViolations(f);
      if rejected != [] then Fail(s, EntityConstraintsViolated(rejected))
      else
        PutFeedbackKeepsWellFormed(s, id, f);
        var t := PutFeedback(s, id, f);
        Outcome(t, Ok(ToResponse(t, id, f)))
  }

  /** `updateFeedback(id, command)`: no authorization check. */
  function UpdateFeedback(s: Store, id: Id, c: UpdateFeedbackCommand): (o: Outcome<FeedbackResponse>)
    requires WellFormed(s)
    ensures WellFormed(o.store)
    ensures o.result.Err? ==> o.store == s
  {
    var violations := UpdateViolations(c);
    if violations != [] then Fail(s, ValidationFailed(violations))
    else if id !in s.feedbacks then Fail(s, FeedbackNotFound(ToString(id)))
    else ApplyUpdate(s, id, c)
  }

  /** The author of the feedback, or an ADMIN, may edit it; unattributed feedback is admin-only. */
  predicate MayUpdate(f: FeedbackRecord, caller: UserRecord)
    ensures MayUpdate(f, caller) <==> f.authorId == Some(caller.id) || caller.role == Some(Admin)
    ensures caller.role == Some(Moderator) && f.authorId != Some(caller.id) ==> !MayUpdate(f, caller)
  {
    (f.authorId.Some? && f.authorId.value == caller.id) || HasAdminRole(caller.role)
  }

  /** `updateFeedback(id, command, currentUserId)`: feedback, then caller, then the policy, then the update. */
  function UpdateFeedbackAsUser(s: Store, id: Id, c: UpdateFeedbackCommand, callerId: Id): (o: Outcome<FeedbackResponse>)
    requires WellFormed(s)
    ensures WellFormed(o.store)
    ensures o.result.Err? ==> o.store == s
  {
    var violations := UpdateViolations(c);
    if violations != [] then Fail(s, ValidationFailed(violations))
    else if id !in s.feedbacks then Fail(s, FeedbackNotFound(ToString(id)))
    else
      match FindById(s.users, callerId)
      case None => Fail(s, UserNotFound(callerId))
      case Some(caller) =>
        if !MayUpdate(s.feedbacks[id], caller) then Fail(s, Unauthorized(UpdateDeniedMessage))
        else ApplyUpdate(s, id, c)
  }

  // ---------------------------------------------------------------- single-row operations

  /** `getFeedback`. */
  function GetFeedback(s: Store, id: Id): (r: Result<FeedbackResponse, ServiceError>)
    ensures r.Ok? <==> id in s.feedbacks
    ensures r.Err? ==> r.error == FeedbackNotFound(ToString(id))
    ensures r.Ok? ==> r.value == ToResponse(s, id, s.feedbacks[id])
  {
    if id !in s.feedbacks then Err(FeedbackNotFound(ToString(id))) else Ok(ToResponse(s, id, s.feedbacks[id]))
  }

  /** The row order without one id. */
  function Without(order: seq<Id>, id: Id): (r: seq<Id>)
    ensures forall k :: k in r <==> k in order && k != id
    ensures Distinct(order) ==> Distinct(r)
    ensures Distinct(order) && id in order ==> |r| == |order| - 1
    ensures id !in order ==> r == order
  {
    if order == [] then []
    else
      var rest := Without(order[1..], id);
      assert Distinct(order) ==> Distinct(order[1..]) && order[0] !in order[1..];
      if order[0] == id then rest else [order[0]] + rest
  }

  /** `deleteFeedback`: removes exactly that row. */
  function DeleteFeedback(s: Store, id: Id): (o: Outcome<()>)
    requires WellFormed(s)
    ensures WellFormed(o.store)
    ensures o.result.Err? ==> o.store == s
  {
    if id !in s.feedbacks then Fail(s, FeedbackNotFound(ToString(id)))
    else
      var t := s.(feedbacks := s.feedbacks - {id}, feedbackOrder := Without(s.feedbackOrder, id));
      Outcome(t, Ok(()))
  }

  /** `archiveFeedback(String id)`: the id arrives as text, and a missing row is reported with that text. */
  function ArchiveFeedback(s: Store, idText: string): (o: Outcome<FeedbackResponse>)
    requires WellFormed(s)
    ensures WellFormed(o.store)
    ensures o.result.Err? ==> o.store == s
  {
    match Ids.FromString(idText)
    case None => Fail(s, InvalidId(idText))
    case Some(id) =>
      if id !in s.feedbacks then Fail(s, FeedbackNotFound(idText))
      else
        var f := Archived(s.feedbacks[id]);
        PutFeedbackKeepsWellFormed(s, id, f);
        var t := PutFeedback(s, id, f);
        Outcome(t, Ok(ToResponse(t, id, f)))
  }

  /**
   * `reopenFeedback`: applies the corrected reopen, `Reopened`, which also clears `archived`. The
   * entity's `reopen()` as written, which leaves `archived` alone, is `ReopenedAsWritten`.
   */
  function ReopenFeedback(s: Store, id: Id): (o: Outcome<FeedbackResponse>)
    requires WellFormed(s)
    ensures WellFormed(o.store)
    ensures o.result.Err? ==> o.store == s
  {
    if id !in s.feedbacks then Fail(s, FeedbackNotFound(ToString(id)))
    else
      var f := Reopened(s.feedbacks[id]);
      PutFeedbackKeepsWellFormed(s, id, f);
      var t := PutFeedback(s, id, f);
      Outcome(t, Ok(ToResponse(t, id, f)))
  }

  // ---------------------------------------------------------------- listing

  /** The feedback rows in the given order, each with its key. */
  function Rows(s: Store, order: seq<Id>): (r: seq<(Id, FeedbackRecord)>)
    requires forall k :: k in order ==> k in s.feedbacks
    ensures |r| == |order|
    ensures forall i :: 0 <= i < |r| ==> r[i] == (order[i], s.feedbacks[order[i]])
  {
    seq(|order|, i requires 0 <= i < |order| => (order[i], s.feedbacks[order[i]]))
  }

  function CreatedAtKey(row: (Id, FeedbackRecord)): int {
    row.1.createdAt
  }

  /** `"oldest".equalsIgnoreCase(sortOrder)`: true only for a present value equal to "oldest" up to case. */
  predicate IsOldestFirst(sortOrder: Option<string>) {
    sortOrder.Some? && EqualsIgnoreCase("oldest", sortOrder.value)
  }

  /** All rows, ordered by creation time in the requested direction. */
  function SortedRows(s: Store, sortOrder: Option<string>): (r: seq<(Id, FeedbackRecord)>)
    requires WellFormed(s)
    ensures |r| == |s.feedbacks|
    ensures multiset(r) == multiset(Rows(s, s.feedbackOrder))
    ensures IsOldestFirst(sortOrder) ==> forall i, j :: 0 <= i < j < |r| ==> r[i].1.createdAt <= r[j].1.createdAt
    ensures !IsOldestFirst(sortOrder) ==> forall i, j :: 0 <= i < j < |r| ==> r[i].1.createdAt >= r[j].1.createdAt
  {
    var r := SortDirected(Rows(s, s.feedbackOrder), CreatedAtKey, IsOldestFirst(sortOrder));
    assert forall i :: 0 <= i < |r| ==> CreatedAtKey(r[i]) == r[i].1.createdAt;
    r
  }

  /** `getAllFeedbacksPaginated`: clamp page and size, sort by creation time, cut out one page. */
  function ListFeedback(s: Store, pageNumber: int, pageSize: int, sortOrder: Option<string>): (r: PaginatedFeedbackResponse)
    requires WellFormed(s)
    ensures r.page == NormalizePage(pageNumber) && r.size == NormalizeSize(pageSize)
    ensures |r.items| <= r.size
    ensures r.totalItems == |s.feedbacks| && r.totalPages == CeilDiv(|s.feedbacks|, r.size)
    ensures |r.items| == |PageSlice(SortedRows(s, sortOrder), r.page, r.size)|
    ensures forall i :: 0 <= i < |r.items| ==>
      r.items[i] == ToResponse(s, PageSlice(SortedRows(s, sortOrder), r.page, r.size)[i].0,
                               PageSlice(SortedRows(s, sortOrder), r.page, r.size)[i].1)
  {
    var page := NormalizePage(pageNumber);
    var size := NormalizeSize(pageSize);
    PaginatedFeedbackResponse(Responses(s, PageSlice(SortedRows(s, sortOrder), page, size)),
                              page, size, |s.feedbacks|, CeilDiv(|s.feedbacks|, size))
  }

  /** `stream().map(this::toResponse)`: one response per row, in row order. */
  function Responses(s: Store, rows: seq<(Id, FeedbackRecord)>): (r: seq<FeedbackResponse>)
    ensures |r| == |rows|
    ensures forall i :: 0 <= i < |r| ==> r[i] == ToResponse(s, rows[i].0, rows[i].1)
  {
    if rows == [] then [] else [ToResponse(s, rows[0].0, rows[0].1)] + Responses(s, rows[1..])
  }

  // ---------------------------------------------------------------- comments

  /** `findByFeedbackId`: the comment rows of one feedback, in table order. */
  function CommentsOf(s: Store, order: seq<Id>, feedbackId: Id): (r: seq<(Id, CommentRecord)>)
    requires forall k :: k in order ==> k in s.comments
    ensures forall i :: 0 <= i < |r| ==> r[i].0 in order && r[i].1 == s.comments[r[i].0] && r[i].1.feedbackId == feedbackId
    ensures forall k :: k in order && s.comments[k].feedbackId == feedbackId ==> (k, s.comments[k]) in r
  {
    if order == [] then []
    else
      var rest := CommentsOf(s, order[1..], feedbackId);
      var k := order[0];
      if s.comments[k].feedbackId == feedbackId then [(k, s.comments[k])] + rest else rest
  }

  /** `getCommentsByFeedbackId`. */
  function GetComments(s: Store, feedbackId: Id): (r: Result<seq<CommentResponse>, ServiceError>)
    requires WellFormed(s)
    ensures r.Err? <==> feedbackId !in s.feedbacks
    ensures r.Err? ==> r.error == FeedbackNotFound(ToString(feedbackId))
  {
    if feedbackId !in s.feedbacks then Err(FeedbackNotFound(ToString(feedbackId)))
    else
      var rows := CommentsOf(s, s.commentOrder, feedbackId);
      Ok(seq(|rows|, i requires 0 <= i < |rows| => ToCommentResponse(s, rows[i].0, rows[i].1)))
  }

  /** The row `addComment` persists: the request's text, the fixed author, then the persist callback. */
  function AddedComment(text: string, feedbackId: Id, newId: Id, now: Instant): CommentRecord {
    Persisted(NewComment(text, feedbackId, FixedCommentAuthorId), newId, now)
  }

  /** `addComment`: the feedback first, then the fixed author; the feedback's comment count goes up by one. */
  function AddComment(s: Store, feedbackId: Id, request: CreateCommentRequest, newId: Id, now: Instant)
    : (o: Outcome<CommentResponse>)
    requires WellFormed(s) && newId !in s.comments
    ensures WellFormed(o.store)
    ensures o.result.Err? ==> o.store == s
  {
    var violations := CommentViolations(request);
    if violations != [] then Fail(s, ValidationFailed(violations))
    else if feedbackId !in s.feedbacks then Fail(s, FeedbackNotFound(ToString(feedbackId)))
    else if FindById(s.users, FixedCommentAuthorId).None? then Fail(s, UserNotFound(ReportedCommentAuthorId))
    else
      var c := AddedComment(request.text.value, feedbackId, newId, now);
      CommentAddedKeepsWellFormed(s, feedbackId, newId, c);
      var u := CommentAdded(s, feedbackId, newId, c);
      Outcome(u, Ok(ToCommentResponse(u, newId, c)))
  }

  /** The tables after a comment is added: its feedback counts one more comment, and the comment row is appended. */
  function CommentAdded(s: Store, feedbackId: Id, newId: Id, c: CommentRecord): Store
    requires feedbackId in s.feedbacks
  {
    var f := s.feedbacks[feedbackId];
    InsertComment(PutFeedback(s, feedbackId, f.(comments := f.comments + 1)), newId, c)
  }

  /** The tables after a comment is added, field by field: one more comment row, one counter up by one. */
  lemma CommentAddedTables(s: Store, feedbackId: Id, newId: Id, c: CommentRecord)
    requires feedbackId in s.feedbacks
    ensures CommentAdded(s, feedbackId, newId, c) ==
      Store(s.feedbacks[feedbackId := s.feedbacks[feedbackId].(comments := s.feedbacks[feedbackId].comments + 1)],
            s.feedbackOrder, s.comments[newId := c], s.commentOrder + [newId], s.categories, s.users)
  {
  }

  lemma CommentAddedKeepsWellFormed(s: Store, feedbackId: Id, newId: Id, c: CommentRecord)
    requires WellFormed(s) && feedbackId in s.feedbacks && newId !in s.comments && c.id == Some(newId)
    ensures WellFormed(CommentAdded(s, feedbackId, newId, c))
  {
    var f := s.feedbacks[feedbackId];
    PutFeedbackKeepsWellFormed(s, feedbackId, f.(comments := f.comments + 1));
    InsertCommentKeepsWellFormed(PutFeedback(s, feedbackId, f.(comments := f.comments + 1)), newId, c);
  }

  // ---------------------------------------------------------------- votes

  /** `voteFeedback`: the feedback is looked up before the direction is parsed. */
  function VoteFeedback(s: Store, id: Id, direction: Option<string>): (o: Outcome<FeedbackResponse>)
    requires WellFormed(s)
    ensures WellFormed(o.store)
    ensures o.result.Err? ==> o.store == s
  {
    if direction.None? then Fail(s, ValidationFailed([Violation(VoteFeedbackDirectionPath, NotNullMessage)]))
    else if id !in s.feedbacks then Fail(s, FeedbackNotFound(ToString(id)))
    else
      match VD.FromString(direction)
      case Err(message) => Fail(s, InvalidDirection(message))
      case Ok(d) =>
        var f := Voted(s.feedbacks[id], d);
        PutFeedbackKeepsWellFormed(s, id, f);
        var t := PutFeedback(s, id, f);
        Outcome(t, Ok(ToResponse(t, id, f)))
  }

  /**
   * The stored comment after a vote. The update callback runs at commit only when the counter
   * really changed, so a removal at zero leaves `updatedAt` alone.
   */
  function StoredAfterVote(c: CommentRecord, d: VD.VoteDirection, now: Instant): (r: CommentRecord)
    ensures r.upvotes == CommentVoted(c, d).upvotes
    ensures r.updatedAt == (if CommentVoted(c, d).upvotes != c.upvotes then Some(now) else c.updatedAt)
  {
    var v := CommentVoted(c, d);
    if v.upvotes != c.upvotes then Touched(v, now) else v
  }

  /**
   * `voteComment`: feedback, comment, ownership, then the direction. The response is built
   * before the transaction commits, so it shows the counter but not the new `updatedAt`.
   */
  function VoteComment(s: Store, feedbackId: Id, commentId: Id, direction: Option<string>, now: Instant)
    : (o: Outcome<CommentResponse>)
    requires WellFormed(s)
    ensures WellFormed(o.store)
    ensures o.result.Err? ==> o.store == s
  {
    if direction.None? then Fail(s, ValidationFailed([Violation(VoteCommentDirectionPath, NotNullMessage)]))
    else if feedbackId !in s.feedbacks then Fail(s, FeedbackNotFound(ToString(feedbackId)))
    else if commentId !in s.comments then Fail(s, CommentNotFound(commentId))
    else if s.comments[commentId].feedbackId != feedbackId then Fail(s, CommentMismatch)
    else
      match VD.FromString(direction)
      case Err(message) => Fail(s, InvalidDirection(message))
      case Ok(d) =>
        var c := s.comments[commentId];
        PutCommentKeepsWellFormed(s, commentId, StoredAfterVote(c, d, now));
        var t := PutComment(s, commentId, StoredAfterVote(c, d, now));
        Outcome(t, Ok(ToCommentResponse(s, commentId, CommentVoted(c, d))))
  }
}
