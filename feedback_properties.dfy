/**
 * What the feedback service promises, stated over the transaction functions of `FeedbackSpec`
 * (and so, through the service methods' postconditions, over the service itself).
 */
module FeedbackProperties {
  import opened Wrappers
  import opened Text
  import opened Ids
  import opened Paging
  import VD = VoteDirections
  import opened Roles
  import opened Users
  import opened FeedbackEntities
  import opened CommentEntities
  import opened Validation
  import opened Errors
  import opened FeedbackSpec

  // ---------------------------------------------------------------- create

  /** `createFeedback` succeeds exactly when the command is valid, the caller is known and the category exists. */
  lemma CreateFeedbackOkIff(s: Store, c: CreateFeedbackCommand, userId: Option<string>, newId: Id, now: Instant)
    requires WellFormed(s) && newId !in s.feedbacks
    ensures CreateFeedback(s, c, userId, newId, now).result.Ok? <==>
      && CreateViolations(c) == [] && userId.Some?
      && (c.categoryId.None? || c.categoryId.value in s.categories)
      && Ids.FromString(userId.value).Some? && FindById(s.users, Ids.FromString(userId.value).value).Some?
  {
  }

  /**
   * A created feedback is PENDING, active, has no votes or comments, is attributed to the caller
   * and carries the requested category; the command's sentiment and tags are dropped. It is
   * appended to the table and no other row changes.
   */
  lemma CreateFeedbackRow(s: Store, c: CreateFeedbackCommand, userId: Option<string>, newId: Id, now: Instant,
                          o: Outcome<FeedbackResponse>)
    requires WellFormed(s) && newId !in s.feedbacks
    requires o == CreateFeedback(s, c, userId, newId, now) && o.result.Ok?
    ensures userId.Some? && c.title.Some? && c.description.Some? && Ids.FromString(userId.value).Some?
    ensures newId in o.store.feedbacks && o.store.feedbackOrder == s.feedbackOrder + [newId]
    ensures o.store.feedbacks[newId].status == Pending && !o.store.feedbacks[newId].archived
    ensures o.store.feedbacks[newId].upvotes == 0 && o.store.feedbacks[newId].downvotes == 0
    ensures o.store.feedbacks[newId].comments == 0 && o.store.feedbacks[newId].createdAt == now
    ensures o.store.feedbacks[newId].sentiment.None? && o.store.feedbacks[newId].tags.None?
    ensures o.store.feedbacks[newId].title == c.title.value
    ensures o.store.feedbacks[newId].description == c.description.value
    ensures o.store.feedbacks[newId].categoryId == c.categoryId
    ensures o.store.feedbacks[newId].authorId == Ids.FromString(userId.value)
    ensures forall k :: k in s.feedbacks ==> k in o.store.feedbacks && o.store.feedbacks[k] == s.feedbacks[k]
    ensures o.store.comments == s.comments && o.store.users == s.users
    ensures Ids.FromString(o.result.value.id) == Some(newId)
  {
    FromStringToString(newId);
  }

  /** An unknown category is reported before the caller's id is even parsed. */
  lemma CreateFeedbackCategoryFirst(s: Store, c: CreateFeedbackCommand, userId: string, newId: Id, now: Instant)
    requires WellFormed(s) && newId !in s.feedbacks
    requires CreateViolations(c) == [] && c.categoryId.Some? && c.categoryId.value !in s.categories
    ensures CreateFeedback(s, c, Some(userId), newId, now).result == Err(CategoryNotFound(c.categoryId.value))
    ensures CreateFeedback(s, c, Some(userId), newId, now).store == s
  {
  }

  // ---------------------------------------------------------------- update

  /**
   * An update succeeds exactly when the command is valid, the row exists, both referenced rows
   * exist, and the sentiment and tags fit the entity's caps.
   */
  lemma UpdateFeedbackOkIff(s: Store, id: Id, c: UpdateFeedbackCommand)
    requires WellFormed(s)
    ensures UpdateFeedback(s, id, c).result.Ok? <==>
      && ValidTitle(c.title) && ValidDescription(c.description) && c.status.Some? && id in s.feedbacks
      && (c.categoryId.None? || c.categoryId.value in s.categories)
      && (c.authorId.None? || FindById(s.users, c.authorId.value).Some?)
      && SizeWithin(c.sentiment, 0, 50) && SizeWithin(c.tags, 0, 500)
  {
  }

  /**
   * A command that passes validation but carries a sentiment over 50 or tags over 500 UTF-16 units
   * is rejected by the entity's constraints once the lookups pass: nothing is written, and no
   * exception mapper turns the rollback into an HTTP status.
   */
  lemma UpdateRejectsOversizedFields(s: Store, id: Id, c: UpdateFeedbackCommand)
    requires WellFormed(s) && UpdateViolations(c) == [] && id in s.feedbacks && UpdateLookupError(s, c).None?
    requires !SizeWithin(c.sentiment, 0, 50) || !SizeWithin(c.tags, 0, 500)
    ensures UpdateFeedback(s, id, c).store == s
    ensures UpdateFeedback(s, id, c).result.Err?
    ensures var e := UpdateFeedback(s, id, c).result.error;
      && e.EntityConstraintsViolated? && StatusOf(e).None?
      && (!SizeWithin(c.sentiment, 0, 50) ==> Violation("sentiment", SentimentSizeMessage) in e.violations)
      && (!SizeWithin(c.tags, 0, 500) ==> Violation("tags", TagsSizeMessage) in e.violations)
  {
    var rejected := FeedbackEntityViolations(Updated(s.feedbacks[id], c));
    assert rejected != [];
    assert UpdateFeedback(s, id, c) == ApplyUpdate(s, id, c) == Fail(s, EntityConstraintsViolated(rejected));
  }

  /**
   * A successful update overwrites every editable column with the command's value — an absent
   * category, author, sentiment or tags clears it — and keeps the counters, the archived flag,
   * the creation time and every other row.
   */
  lemma UpdateFeedbackOverwrites(s: Store, id: Id, c: UpdateFeedbackCommand, o: Outcome<FeedbackResponse>)
    requires WellFormed(s) && o == UpdateFeedback(s, id, c) && o.result.Ok?
    ensures id in s.feedbacks && id in o.store.feedbacks
    ensures c.title.Some? && c.description.Some? && c.status.Some?
    ensures o.store.feedbacks[id].title == c.title.value && o.store.feedbacks[id].description == c.description.value
    ensures o.store.feedbacks[id].status == c.status.value
    ensures o.store.feedbacks[id].categoryId == c.categoryId && o.store.feedbacks[id].authorId == c.authorId
    ensures o.store.feedbacks[id].sentiment == c.sentiment && o.store.feedbacks[id].tags == c.tags
    ensures o.store.feedbacks[id].upvotes == s.feedbacks[id].upvotes
    ensures o.store.feedbacks[id].downvotes == s.feedbacks[id].downvotes
    ensures o.store.feedbacks[id].comments == s.feedbacks[id].comments
    ensures o.store.feedbacks[id].archived == s.feedbacks[id].archived
    ensures o.store.feedbacks[id].createdAt == s.feedbacks[id].createdAt
    ensures forall k :: k in s.feedbacks && k != id ==> k in o.store.feedbacks && o.store.feedbacks[k] == s.feedbacks[k]
    ensures o.store.feedbackOrder == s.feedbackOrder && o.store.comments == s.comments
  {
    assert UpdateViolations(c) == [] && id in s.feedbacks && o == ApplyUpdate(s, id, c);
  }

  /**
   * The author and every ADMIN may update; anybody else is refused with nothing changed, and
   * a feedback without author is open to admins only. A permitted update is the plain update.
   */
  lemma UpdateAsUserPolicy(s: Store, id: Id, c: UpdateFeedbackCommand, callerId: Id, caller: UserRecord)
    requires WellFormed(s) && UpdateViolations(c) == [] && id in s.feedbacks
    requires FindById(s.users, callerId) == Some(caller)
    ensures MayUpdate(s.feedbacks[id], caller) <==> s.feedbacks[id].authorId == Some(callerId) || caller.role == Some(Admin)
    ensures MayUpdate(s.feedbacks[id], caller) ==> UpdateFeedbackAsUser(s, id, c, callerId) == UpdateFeedback(s, id, c)
    ensures !MayUpdate(s.feedbacks[id], caller) ==>
      UpdateFeedbackAsUser(s, id, c, callerId) == Outcome(s, Err(Unauthorized(UpdateDeniedMessage)))
  {
    AdminExactly(caller.role);
  }

  /** A caller missing from the user table is refused, whatever the feedback's author. */
  lemma UpdateAsUnknownUser(s: Store, id: Id, c: UpdateFeedbackCommand, callerId: Id)
    requires WellFormed(s) && UpdateViolations(c) == [] && id in s.feedbacks
    requires forall u :: u in s.users ==> u.id != callerId
    ensures UpdateFeedbackAsUser(s, id, c, callerId) == Outcome(s, Err(UserNotFound(callerId)))
  {
  }

  // ---------------------------------------------------------------- delete, archive, reopen

  /** Deleting removes exactly that feedback row; its comment rows stay in their table. */
  lemma DeleteRemovesRow(s: Store, id: Id, o: Outcome<()>)
    requires WellFormed(s) && o == DeleteFeedback(s, id)
    ensures o.result.Ok? <==> id in s.feedbacks
    ensures o.result.Ok? ==> o.store.feedbacks == s.feedbacks - {id} && o.store.comments == s.comments
    ensures o.result.Ok? ==> id !in o.store.feedbackOrder && |o.store.feedbackOrder| == |s.feedbackOrder| - 1
    ensures o.result.Err? ==> o.store == s && o.result.error == FeedbackNotFound(ToString(id))
  {
  }

  /** Archiving sets the flag and nothing else; archiving the archived item again changes nothing. */
  lemma ArchiveIdempotent(s: Store, idText: string, id: Id, o: Outcome<FeedbackResponse>)
    requires WellFormed(s) && o == ArchiveFeedback(s, idText) && Ids.FromString(idText) == Some(id) && id in s.feedbacks
    ensures o.result.Ok? && id in o.store.feedbacks && o.store.feedbacks[id].archived
    ensures o.store.feedbacks[id].(archived := s.feedbacks[id].archived) == s.feedbacks[id]
    ensures ArchiveFeedback(o.store, idText) == o
  {
    ArchiveOnlySetsFlag(s.feedbacks[id]);
    assert o.store.feedbacks[id := Archived(o.store.feedbacks[id])] == o.store.feedbacks;
  }

  /** Reopening makes the item active, moves COMPLETED back to PENDING, and a second reopen changes nothing. */
  lemma ReopenIdempotent(s: Store, id: Id, o: Outcome<FeedbackResponse>)
    requires WellFormed(s) && o == ReopenFeedback(s, id) && id in s.feedbacks
    ensures o.result.Ok? && id in o.store.feedbacks && !o.store.feedbacks[id].archived
    ensures o.store.feedbacks[id].status == (if s.feedbacks[id].status == Completed then Pending else s.feedbacks[id].status)
    ensures ReopenFeedback(o.store, id) == o
  {
    ReopenStatusRule(s.feedbacks[id]);
    FeedbackEntities.ReopenIdempotent(s.feedbacks[id]);
    assert o.store.feedbacks[id := Reopened(o.store.feedbacks[id])] == o.store.feedbacks;
  }

  // ---------------------------------------------------------------- listing

  /** A page has items exactly when its (clamped) number is at most the reported page count. */
  lemma ListPageNonEmptyIff(s: Store, pageNumber: int, pageSize: int, sortOrder: Option<string>)
    requires WellFormed(s)
    ensures |ListFeedback(s, pageNumber, pageSize, sortOrder).items| > 0 <==>
      NormalizePage(pageNumber) <= ListFeedback(s, pageNumber, pageSize, sortOrder).totalPages
  {
    PageNonEmptyIff(SortedRows(s, sortOrder), NormalizePage(pageNumber), NormalizeSize(pageSize));
  }

  /** Rows run by creation time: ascending when `oldestFirst`, descending otherwise. */
  predicate RowsInOrder(rows: seq<(Id, FeedbackRecord)>, oldestFirst: bool) {
    forall i, j :: 0 <= i < j < |rows| ==>
      if oldestFirst then rows[i].1.createdAt <= rows[j].1.createdAt else rows[i].1.createdAt >= rows[j].1.createdAt
  }

  /** Responses run by creation time: ascending when `oldestFirst`, descending otherwise. */
  predicate ItemsInOrder(items: seq<FeedbackResponse>, oldestFirst: bool) {
    forall i, j :: 0 <= i < j < |items| ==>
      if oldestFirst then items[i].createdAt <= items[j].createdAt else items[i].createdAt >= items[j].createdAt
  }

  /** A page cut out of rows ordered by creation time keeps that order. */
  lemma SliceKeepsOrder(sorted: seq<(Id, FeedbackRecord)>, page: int, size: int, oldestFirst: bool)
    requires page >= 1 && size >= 1 && RowsInOrder(sorted, oldestFirst)
    ensures RowsInOrder(PageSlice(sorted, page, size), oldestFirst)
  {
    var slice := PageSlice(sorted, page, size);
    var offset := Offset(page, size);
    if slice != [] {
      assert forall i :: 0 <= i < |slice| ==> slice[i] == sorted[offset + i];
    }
  }

  /** Responses built row by row carry the rows' creation times, so they keep the rows' order. */
  lemma ResponsesKeepOrder(s: Store, rows: seq<(Id, FeedbackRecord)>, items: seq<FeedbackResponse>, oldestFirst: bool)
    requires |items| == |rows| && RowsInOrder(rows, oldestFirst)
    requires forall i :: 0 <= i < |items| ==> items[i] == ToResponse(s, rows[i].0, rows[i].1)
    ensures ItemsInOrder(items, oldestFirst)
  {
    assert forall i :: 0 <= i < |items| ==> items[i].createdAt == rows[i].1.createdAt;
  }

  /** Within a page, items run oldest first if "oldest" (in any case) is asked for, newest first otherwise. */
  lemma ListOrdered(s: Store, pageNumber: int, pageSize: int, sortOrder: Option<string>, r: PaginatedFeedbackResponse)
    requires WellFormed(s) && r == ListFeedback(s, pageNumber, pageSize, sortOrder)
    ensures IsOldestFirst(sortOrder) ==>
      forall i, j :: 0 <= i < j < |r.items| ==> r.items[i].createdAt <= r.items[j].createdAt
    ensures !IsOldestFirst(sortOrder) ==>
      forall i, j :: 0 <= i < j < |r.items| ==> r.items[i].createdAt >= r.items[j].createdAt
  {
    var oldestFirst := IsOldestFirst(sortOrder);
    var sorted := SortedRows(s, sortOrder);
    assert RowsInOrder(sorted, oldestFirst);
    SliceKeepsOrder(sorted, r.page, r.size, oldestFirst);
    ResponsesKeepOrder(s, PageSlice(sorted, r.page, r.size), r.items, oldestFirst);
  }

  /** No order, or any order other than "oldest", lists newest first. */
  lemma ListDefaultsToNewest()
    ensures !IsOldestFirst(None) && !IsOldestFirst(Some("newest"))
  {
    assert !CharEqualsIgnoreCase("oldest"[0], "newest"[0]);
  }

  /**
   * The casings of "oldest" that Java's `equalsIgnoreCase` accepts: each letter in either case, and
   * for the 's' also the long s (U+017F), so "oldeſt" lists oldest first as well.
   */
  lemma OldestFirstCasings(sortOrder: string)
    ensures IsOldestFirst(Some(sortOrder)) <==>
      && |sortOrder| == 6
      && sortOrder[0] in {'o', 'O'} && sortOrder[1] in {'l', 'L'} && sortOrder[2] in {'d', 'D'}
      && sortOrder[3] in {'e', 'E'} && sortOrder[4] in {'s', 'S', '\U{17F}'} && sortOrder[5] in {'t', 'T'}
    ensures IsOldestFirst(Some("olde\U{17F}t")) && IsOldestFirst(Some("OLDEST"))
  {
    var oldest := "oldest";
    assert oldest[0] == 'o' && oldest[1] == 'l' && oldest[2] == 'd';
    assert oldest[3] == 'e' && oldest[4] == 's' && oldest[5] == 't';
  }

  /** Every row of the table has a place in the sorted listing. */
  lemma SortedContainsRow(s: Store, sortOrder: Option<string>, id: Id) returns (j: nat)
    requires WellFormed(s) && id in s.feedbacks
    ensures j < |SortedRows(s, sortOrder)| && SortedRows(s, sortOrder)[j] == (id, s.feedbacks[id])
  {
    var rows := Rows(s, s.feedbackOrder);
    var sorted := SortedRows(s, sortOrder);
    var i :| 0 <= i < |s.feedbackOrder| && s.feedbackOrder[i] == id;
    assert rows[i] == (id, s.feedbacks[id]);
    assert (id, s.feedbacks[id]) in multiset(sorted);
    j :| 0 <= j < |sorted| && sorted[j] == (id, s.feedbacks[id]);
  }

  /** The row at sorted position `j` is item `j - offset` of the page whose slots cover `j`. */
  lemma ListedAt(s: Store, page: int, size: int, sortOrder: Option<string>, j: nat)
    requires WellFormed(s) && page >= 1 && 1 <= size <= MaxPageSize
    requires j < |SortedRows(s, sortOrder)| && Offset(page, size) <= j < Offset(page, size) + size
    ensures j - Offset(page, size) < |ListFeedback(s, page, size, sortOrder).items|
    ensures ListFeedback(s, page, size, sortOrder).items[j - Offset(page, size)]
      == ToResponse(s, SortedRows(s, sortOrder)[j].0, SortedRows(s, sortOrder)[j].1)
  {
    var sorted := SortedRows(s, sortOrder);
    var slice := PageSlice(sorted, page, size);
    assert slice[j - Offset(page, size)] == sorted[j];
  }

  /** Each row appears on some page within the page count. */
  lemma ListCoversEveryRow(s: Store, size: int, sortOrder: Option<string>, id: Id)
    requires WellFormed(s) && id in s.feedbacks && 1 <= size <= MaxPageSize
    ensures exists page ::
      (1 <= page <= CeilDiv(|s.feedbacks|, size) &&
       ToResponse(s, id, s.feedbacks[id]) in ListFeedback(s, page, size, sortOrder).items)
  {
    var sorted := SortedRows(s, sortOrder);
    var j := SortedContainsRow(s, sortOrder, id);
    var page := j / size + 1;
    PageSliceCovers(sorted, size, j);
    PageNonEmptyIff(sorted, page, size);
    ListedAt(s, page, size, sortOrder, j);
  }

  /** The rows of a table with a duplicate-free order are themselves duplicate-free. */
  lemma {:induction false} RowsOnce(s: Store, order: seq<Id>, x: (Id, FeedbackRecord))
    requires Distinct(order) && forall k :: k in order ==> k in s.feedbacks
    ensures multiset(Rows(s, order))[x] <= 1
  {
    if order != [] {
      var rest := order[1..];
      assert Distinct(rest);
      RowsOnce(s, rest, x);
      assert Rows(s, order) == [Rows(s, order)[0]] + Rows(s, rest);
      if Rows(s, order)[0] == x {
        assert forall k :: 0 <= k < |rest| ==> Rows(s, rest)[k].0 == order[k + 1] != order[0];
        assert x !in Rows(s, rest);
      }
    }
  }

  /** An element at two positions of a sequence occurs at least twice in it. */
  lemma TwoPositions<T>(q: seq<T>, a: nat, b: nat)
    requires a < b < |q| && q[a] == q[b]
    ensures multiset(q)[q[a]] >= 2
  {
    assert q == q[..b] + q[b..];
    assert q[a] in q[..b] && q[b] in q[b..];
  }

  /** Two slots of the same size-`size` paging grid that hold the same index are the same page and slot. */
  lemma SameSlot(p1: int, p2: int, size: int, i1: int, i2: int)
    requires p1 >= 1 && p2 >= 1 && size >= 1 && 0 <= i1 < size && 0 <= i2 < size
    requires Offset(p1, size) + i1 == Offset(p2, size) + i2
    ensures p1 == p2
  {
    if p1 < p2 {
      MulMonotone(p1, p2 - 1, size);
    } else if p2 < p1 {
      MulMonotone(p2, p1 - 1, size);
    }
  }

  /** A response found on a page built row by row is the response of a row inside that page's window. */
  lemma PositionInPage(s: Store, rows: seq<(Id, FeedbackRecord)>, page: int, size: int, items: seq<FeedbackResponse>,
                       target: FeedbackResponse) returns (a: nat)
    requires page >= 1 && size >= 1 && |items| == |PageSlice(rows, page, size)| && target in items
    requires forall k :: 0 <= k < |items| ==>
      items[k] == ToResponse(s, PageSlice(rows, page, size)[k].0, PageSlice(rows, page, size)[k].1)
    ensures Offset(page, size) <= a < Offset(page, size) + size && a < |rows|
    ensures ToResponse(s, rows[a].0, rows[a].1) == target
  {
    var i :| 0 <= i < |items| && items[i] == target;
    a := Offset(page, size) + i;
    assert PageSlice(rows, page, size)[i] == rows[a];
  }

  /** Where a listed row sits in the sorted table: its page's offset plus its slot. */
  lemma SortedPosition(s: Store, size: int, sortOrder: Option<string>, id: Id, page: int) returns (a: nat)
    requires WellFormed(s) && id in s.feedbacks && 1 <= size <= MaxPageSize && page >= 1
    requires ToResponse(s, id, s.feedbacks[id]) in ListFeedback(s, page, size, sortOrder).items
    ensures a < |SortedRows(s, sortOrder)| && SortedRows(s, sortOrder)[a] == (id, s.feedbacks[id])
    ensures Offset(page, size) <= a < Offset(page, size) + size
  {
    var sorted := SortedRows(s, sortOrder);
    var r := ListFeedback(s, page, size, sortOrder);
    assert r.page == page && r.size == size;
    a := PositionInPage(s, sorted, r.page, r.size, r.items, ToResponse(s, id, s.feedbacks[id]));
    SortedRowIsStored(s, sortOrder, a);
    ResponseNamesRow(s, sorted[a], id);
  }

  /** Every row of the sorted listing is a stored row under its own id. */
  lemma SortedRowIsStored(s: Store, sortOrder: Option<string>, a: nat)
    requires WellFormed(s) && a < |SortedRows(s, sortOrder)|
    ensures SortedRows(s, sortOrder)[a].0 in s.feedbacks
    ensures SortedRows(s, sortOrder)[a].1 == s.feedbacks[SortedRows(s, sortOrder)[a].0]
  {
    var sorted := SortedRows(s, sortOrder);
    var rows := Rows(s, s.feedbackOrder);
    assert sorted[a] in multiset(rows) by {
      assert sorted[a] in multiset(sorted);
    }
    var k :| 0 <= k < |rows| && rows[k] == sorted[a];
  }

  /** A stored row whose response carries the id text of `id` is the row of `id`. */
  lemma ResponseNamesRow(s: Store, row: (Id, FeedbackRecord), id: Id)
    requires id in s.feedbacks && row.0 in s.feedbacks && row.1 == s.feedbacks[row.0]
    requires ToResponse(s, row.0, row.1) == ToResponse(s, id, s.feedbacks[id])
    ensures row == (id, s.feedbacks[id])
  {
    ToStringInjective(row.0, id);
  }

  /** The sorted listing holds each row at one position only. */
  lemma SortedRowsOnce(s: Store, sortOrder: Option<string>, a: nat, b: nat)
    requires WellFormed(s) && a < |SortedRows(s, sortOrder)| && b < |SortedRows(s, sortOrder)|
    requires SortedRows(s, sortOrder)[a] == SortedRows(s, sortOrder)[b]
    ensures a == b
  {
    var sorted := SortedRows(s, sortOrder);
    RowsOnce(s, s.feedbackOrder, sorted[a]);
    if a < b {
      TwoPositions(sorted, a, b);
    } else if b < a {
      TwoPositions(sorted, b, a);
    }
  }

  /** No row is listed on two different pages. */
  lemma ListRowOnOnePage(s: Store, size: int, sortOrder: Option<string>, id: Id, p1: int, p2: int)
    requires WellFormed(s) && id in s.feedbacks && 1 <= size <= MaxPageSize && p1 >= 1 && p2 >= 1
    requires ToResponse(s, id, s.feedbacks[id]) in ListFeedback(s, p1, size, sortOrder).items
    requires ToResponse(s, id, s.feedbacks[id]) in ListFeedback(s, p2, size, sortOrder).items
    ensures p1 == p2
  {
    var a := SortedPosition(s, size, sortOrder, id, p1);
    var b := SortedPosition(s, size, sortOrder, id, p2);
    SortedRowsOnce(s, sortOrder, a, b);
    var i1, i2 := a - Offset(p1, size), b - Offset(p2, size);
    SameSlot(p1, p2, size, i1, i2);
  }

  // ---------------------------------------------------------------- comments

  /** The comments listed for a feedback are exactly the comment rows that reference it. */
  lemma GetCommentsExactly(s: Store, feedbackId: Id, r: Result<seq<CommentResponse>, ServiceError>)
    requires WellFormed(s) && feedbackId in s.feedbacks && r == GetComments(s, feedbackId)
    ensures r.Ok?
    ensures forall x :: x in r.value ==>
      exists k :: k in s.comments && s.comments[k].feedbackId == feedbackId && x == ToCommentResponse(s, k, s.comments[k])
    ensures forall k :: k in s.comments && s.comments[k].feedbackId == feedbackId ==>
      ToCommentResponse(s, k, s.comments[k]) in r.value
  {
    var rows := CommentsOf(s, s.commentOrder, feedbackId);
    forall x | x in r.value
      ensures exists k :: k in s.comments && s.comments[k].feedbackId == feedbackId && x == ToCommentResponse(s, k, s.comments[k])
    {
      var i :| 0 <= i < |r.value| && r.value[i] == x;
      assert x == ToCommentResponse(s, rows[i].0, rows[i].1);
    }
    forall k | k in s.comments && s.comments[k].feedbackId == feedbackId
      ensures ToCommentResponse(s, k, s.comments[k]) in r.value
    {
      var i :| 0 <= i < |rows| && rows[i] == (k, s.comments[k]);
      assert r.value[i] == ToCommentResponse(s, k, s.comments[k]);
    }
  }

  /** `addComment` succeeds exactly when the text is valid, the feedback exists and the fixed author's row exists. */
  lemma AddCommentOkIff(s: Store, feedbackId: Id, request: CreateCommentRequest, newId: Id, now: Instant)
    requires WellFormed(s) && newId !in s.comments
    ensures AddComment(s, feedbackId, request, newId, now).result.Ok? <==>
      ValidCommentText(request.text) && feedbackId in s.feedbacks && FindById(s.users, FixedCommentAuthorId).Some?
  {
  }

  /**
   * A new comment carries the request's text and the fixed author whoever asked, starts with no
   * upvotes and no developer flag, is stamped with the commit time and is appended to the table.
   */
  lemma AddCommentNewRow(s: Store, feedbackId: Id, request: CreateCommentRequest, newId: Id, now: Instant,
                         o: Outcome<CommentResponse>)
    requires WellFormed(s) && newId !in s.comments
    requires o == AddComment(s, feedbackId, request, newId, now) && o.result.Ok?
    ensures request.text.Some?
    ensures newId in o.store.comments && o.store.commentOrder == s.commentOrder + [newId]
    ensures o.store.comments[newId].text == request.text.value
    ensures o.store.comments[newId].feedbackId == feedbackId
    ensures o.store.comments[newId].authorId == FixedCommentAuthorId
    ensures o.store.comments[newId].upvotes == 0 && !o.store.comments[newId].isDeveloperResponse
    ensures o.store.comments[newId].createdAt == Some(now) && o.store.comments[newId].updatedAt == Some(now)
    ensures forall k :: k in s.comments ==> k in o.store.comments && o.store.comments[k] == s.comments[k]
    ensures Ids.FromString(o.result.value.author.id) == Some(FixedCommentAuthorId)
    ensures Ids.FromString(o.result.value.id) == Some(newId)
  {
    var c := AddedComment(request.text.value, feedbackId, newId, now);
    ResponseIdsParse(o.store, newId, s.feedbacks[feedbackId], newId, c);
  }

  /** Adding a comment counts it on its feedback and changes no other feedback row. */
  lemma AddCommentCountsIt(s: Store, feedbackId: Id, request: CreateCommentRequest, newId: Id, now: Instant,
                           o: Outcome<CommentResponse>)
    requires WellFormed(s) && newId !in s.comments
    requires o == AddComment(s, feedbackId, request, newId, now) && o.result.Ok?
    ensures feedbackId in s.feedbacks && feedbackId in o.store.feedbacks
    ensures o.store.feedbacks[feedbackId].comments == s.feedbacks[feedbackId].comments + 1
    ensures o.store.feedbacks[feedbackId].(comments := s.feedbacks[feedbackId].comments) == s.feedbacks[feedbackId]
    ensures o.store.feedbacks == s.feedbacks[feedbackId := o.store.feedbacks[feedbackId]]
    ensures o.store.feedbackOrder == s.feedbackOrder
  {
  }

  /**
   * A missing feedback is reported before the author is looked up; a missing author row is
   * reported under id 1, not under the id that was looked up.
   */
  lemma AddCommentLookupOrder(s: Store, feedbackId: Id, request: CreateCommentRequest, newId: Id, now: Instant)
    requires WellFormed(s) && newId !in s.comments && CommentViolations(request) == []
    ensures feedbackId !in s.feedbacks ==>
      AddComment(s, feedbackId, request, newId, now) == Outcome(s, Err(FeedbackNotFound(ToString(feedbackId))))
    ensures feedbackId in s.feedbacks && FindById(s.users, FixedCommentAuthorId).None? ==>
      AddComment(s, feedbackId, request, newId, now) == Outcome(s, Err(UserNotFound(ReportedCommentAuthorId)))
    ensures ReportedCommentAuthorId != FixedCommentAuthorId
  {
  }

  // ---------------------------------------------------------------- votes

  /** The feedback is looked up before the direction is parsed, so an unknown id wins over a bad direction. */
  lemma VoteFeedbackLookupFirst(s: Store, id: Id, direction: string)
    requires WellFormed(s) && id !in s.feedbacks
    ensures VoteFeedback(s, id, Some(direction)) == Outcome(s, Err(FeedbackNotFound(ToString(id))))
  {
  }

  /** A direction that does not parse is refused with the parser's message and nothing changes. */
  lemma VoteFeedbackBadDirection(s: Store, id: Id, direction: string, message: string)
    requires WellFormed(s) && id in s.feedbacks && VD.FromString(Some(direction)) == Err(message)
    ensures VoteFeedback(s, id, Some(direction)) == Outcome(s, Err(InvalidDirection(message)))
  {
  }

  /**
   * A vote moves only the feedback's vote counters — UP and DOWN add one to their own counter,
   * NONE takes one from each without going below zero — and the response shows the new counts.
   */
  lemma VoteFeedbackEffects(s: Store, id: Id, direction: string, d: VD.VoteDirection, o: Outcome<FeedbackResponse>)
    requires WellFormed(s) && id in s.feedbacks && VD.FromString(Some(direction)) == Ok(d)
    requires o == VoteFeedback(s, id, Some(direction))
    ensures o.result.Ok? && id in o.store.feedbacks
    ensures o.store.feedbacks[id].(upvotes := s.feedbacks[id].upvotes, downvotes := s.feedbacks[id].downvotes)
      == s.feedbacks[id]
    ensures d == VD.Up ==>
      o.store.feedbacks[id].upvotes == s.feedbacks[id].upvotes + 1 && o.store.feedbacks[id].downvotes == s.feedbacks[id].downvotes
    ensures d == VD.Down ==>
      o.store.feedbacks[id].downvotes == s.feedbacks[id].downvotes + 1 && o.store.feedbacks[id].upvotes == s.feedbacks[id].upvotes
    ensures d == VD.NoVote ==>
      o.store.feedbacks[id].upvotes == Decrement(s.feedbacks[id].upvotes)
      && o.store.feedbacks[id].downvotes == Decrement(s.feedbacks[id].downvotes)
    ensures forall k :: k in s.feedbacks && k != id ==> k in o.store.feedbacks && o.store.feedbacks[k] == s.feedbacks[k]
    ensures o.store.comments == s.comments && o.store.feedbackOrder == s.feedbackOrder
    ensures o.result.value.upvotes == o.store.feedbacks[id].upvotes
  {
    VoteTouchesOnlyCounters(s.feedbacks[id], d);
  }

  /** A comment is voted on only through its own feedback. */
  lemma VoteCommentOwnership(s: Store, feedbackId: Id, commentId: Id, direction: string, now: Instant)
    requires WellFormed(s) && feedbackId in s.feedbacks && commentId in s.comments
    requires s.comments[commentId].feedbackId != feedbackId
    ensures VoteComment(s, feedbackId, commentId, Some(direction), now) == Outcome(s, Err(CommentMismatch))
  {
  }

  /**
   * A comment vote changes only that comment's upvotes (UP adds one, DOWN and NONE take one away,
   * never below zero) and, when the count moved, its update time. The response shows the new
   * count but the update time from before.
   */
  lemma VoteCommentEffects(s: Store, feedbackId: Id, commentId: Id, direction: string, d: VD.VoteDirection,
                           now: Instant, o: Outcome<CommentResponse>)
    requires WellFormed(s) && feedbackId in s.feedbacks && commentId in s.comments
    requires s.comments[commentId].feedbackId == feedbackId && VD.FromString(Some(direction)) == Ok(d)
    requires o == VoteComment(s, feedbackId, commentId, Some(direction), now)
    ensures o.result.Ok? && commentId in o.store.comments
    ensures d == VD.Up ==> o.store.comments[commentId].upvotes == s.comments[commentId].upvotes + 1
    ensures d != VD.Up ==> o.store.comments[commentId].upvotes == Decrement(s.comments[commentId].upvotes)
    ensures o.store.comments[commentId].updatedAt ==
      if o.store.comments[commentId].upvotes != s.comments[commentId].upvotes then Some(now)
      else s.comments[commentId].updatedAt
    ensures o.store.comments[commentId].(upvotes := s.comments[commentId].upvotes,
                                         updatedAt := s.comments[commentId].updatedAt) == s.comments[commentId]
    ensures forall k :: k in s.comments && k != commentId ==> k in o.store.comments && o.store.comments[k] == s.comments[k]
    ensures o.store.feedbacks == s.feedbacks && o.store.commentOrder == s.commentOrder
    ensures o.result.value.upvotes == o.store.comments[commentId].upvotes
    ensures o.result.value.updatedAt == s.comments[commentId].updatedAt
  {
  }

  // ---------------------------------------------------------------- the comment counter

  /** How many of the comment rows listed in `order` reference feedback `feedbackId`. */
  function CommentCount(comments: map<Id, CommentRecord>, order: seq<Id>, feedbackId: Id): nat
    decreases |order|
  {
    if order == [] then 0
    else
      var k := order[|order| - 1];
      CommentCount(comments, order[..|order| - 1], feedbackId)
      + (if k in comments && comments[k].feedbackId == feedbackId then 1 else 0)
  }

  /** Every feedback's `comments` counter equals the number of its comment rows. */
  predicate CountsAgree(s: Store) {
    forall id :: id in s.feedbacks ==> s.feedbacks[id].comments == CommentCount(s.comments, s.commentOrder, id)
  }

  /** Rows under keys outside `order` do not count. */
  lemma {:induction false} CountIgnoresUnlisted(comments: map<Id, CommentRecord>, order: seq<Id>, k: Id,
                                                c: CommentRecord, feedbackId: Id)
    requires k !in order
    ensures CommentCount(comments[k := c], order, feedbackId) == CommentCount(comments, order, feedbackId)
    decreases |order|
  {
    if order != [] {
      CountIgnoresUnlisted(comments, order[..|order| - 1], k, c, feedbackId);
    }
  }

  /** Replacing a row by one for the same feedback leaves every count alone. */
  lemma {:induction false} CountKeepsSameFeedback(comments: map<Id, CommentRecord>, order: seq<Id>, k: Id,
                                                  c: CommentRecord, feedbackId: Id)
    requires k in comments && comments[k].feedbackId == c.feedbackId
    ensures CommentCount(comments[k := c], order, feedbackId) == CommentCount(comments, order, feedbackId)
    decreases |order|
  {
    if order != [] {
      CountKeepsSameFeedback(comments, order[..|order| - 1], k, c, feedbackId);
    }
  }

  /** Appending a key counts its row once. */
  lemma CountAppend(comments: map<Id, CommentRecord>, order: seq<Id>, k: Id, feedbackId: Id)
    ensures CommentCount(comments, order + [k], feedbackId)
      == CommentCount(comments, order, feedbackId) + (if k in comments && comments[k].feedbackId == feedbackId then 1 else 0)
  {
    assert (order + [k])[..|order|] == order;
  }

  /** A feedback no row references has a count of zero. */
  lemma {:induction false} CountUnreferenced(comments: map<Id, CommentRecord>, order: seq<Id>, feedbackId: Id)
    requires forall k :: k in comments ==> comments[k].feedbackId != feedbackId
    ensures CommentCount(comments, order, feedbackId) == 0
    decreases |order|
  {
    if order != [] {
      CountUnreferenced(comments, order[..|order| - 1], feedbackId);
    }
  }

  /** The tables after a comment is added keep every counter equal to the number of comment rows. */
  lemma CommentAddedKeepsCounts(s: Store, feedbackId: Id, newId: Id, c: CommentRecord)
    requires WellFormed(s) && CountsAgree(s) && feedbackId in s.feedbacks && newId !in s.comments
    requires c.feedbackId == feedbackId
    ensures CountsAgree(CommentAdded(s, feedbackId, newId, c))
  {
    var t := CommentAdded(s, feedbackId, newId, c);
    assert newId !in s.commentOrder;
    forall id | id in t.feedbacks
      ensures t.feedbacks[id].comments == CommentCount(t.comments, t.commentOrder, id)
    {
      CountAppend(s.comments[newId := c], s.commentOrder, newId, id);
      CountIgnoresUnlisted(s.comments, s.commentOrder, newId, c, id);
    }
  }

  /** Adding a comment keeps every counter equal to the number of comment rows. */
  lemma AddCommentKeepsCounts(s: Store, feedbackId: Id, request: CreateCommentRequest, newId: Id, now: Instant)
    requires WellFormed(s) && CountsAgree(s) && newId !in s.comments
    ensures CountsAgree(AddComment(s, feedbackId, request, newId, now).store)
  {
    if CommentViolations(request) == [] && feedbackId in s.feedbacks && FindById(s.users, FixedCommentAuthorId).Some? {
      CommentAddedKeepsCounts(s, feedbackId, newId, AddedComment(request.text.value, feedbackId, newId, now));
    }
  }

  /** A comment vote keeps every counter equal to the number of comment rows. */
  lemma VoteCommentKeepsCounts(s: Store, feedbackId: Id, commentId: Id, direction: Option<string>, now: Instant)
    requires WellFormed(s) && CountsAgree(s)
    ensures CountsAgree(VoteComment(s, feedbackId, commentId, direction, now).store)
  {
    var o := VoteComment(s, feedbackId, commentId, direction, now);
    if o.result.Ok? {
      var d := VD.FromString(direction).value;
      var c := StoredAfterVote(s.comments[commentId], d, now);
      assert c.feedbackId == s.comments[commentId].feedbackId;
      assert o.store == PutComment(s, commentId, c);
      forall id | id in o.store.feedbacks
        ensures o.store.feedbacks[id].comments == CommentCount(o.store.comments, o.store.commentOrder, id)
      {
        CountKeepsSameFeedback(s.comments, s.commentOrder, commentId, c, id);
      }
    }
  }

  /** Inserting a feedback row with a zero counter that no comment row references keeps the counters right. */
  lemma InsertFeedbackKeepsCounts(s: Store, id: Id, f: FeedbackRecord)
    requires CountsAgree(s) && id !in s.feedbacks && f.comments == 0
    requires forall k :: k in s.comments ==> s.comments[k].feedbackId != id
    ensures CountsAgree(InsertFeedback(s, id, f))
  {
    CountUnreferenced(s.comments, s.commentOrder, id);
  }

  /** A new feedback that no comment row references starts with a correct (zero) counter. */
  lemma CreateFeedbackKeepsCounts(s: Store, c: CreateFeedbackCommand, userId: Option<string>, newId: Id, now: Instant)
    requires WellFormed(s) && CountsAgree(s) && newId !in s.feedbacks
    requires forall k :: k in s.comments ==> s.comments[k].feedbackId != newId
    ensures CountsAgree(CreateFeedback(s, c, userId, newId, now).store)
  {
    var o := CreateFeedback(s, c, userId, newId, now);
    if o.result.Ok? {
      var uid := Ids.FromString(userId.value).value;
      var f := Created(c.title.value, c.description.value, c.categoryId, uid, newId, now);
      assert o.store == InsertFeedback(s, newId, f);
      InsertFeedbackKeepsCounts(s, newId, f);
    }
  }

  /** Replacing a feedback row by one with the same counter keeps the counters right. */
  lemma PutFeedbackKeepsCounts(s: Store, id: Id, f: FeedbackRecord)
    requires CountsAgree(s) && id in s.feedbacks && f.comments == s.feedbacks[id].comments
    ensures CountsAgree(PutFeedback(s, id, f))
  {
  }

  /** An update keeps the counters right. */
  lemma UpdateKeepsCounts(s: Store, id: Id, c: UpdateFeedbackCommand)
    requires WellFormed(s) && CountsAgree(s)
    ensures CountsAgree(UpdateFeedback(s, id, c).store)
  {
    if UpdateFeedback(s, id, c).result.Ok? {
      PutFeedbackKeepsCounts(s, id, Updated(s.feedbacks[id], c));
    }
  }

  /** An update on behalf of a user keeps the counters right. */
  lemma UpdateAsUserKeepsCounts(s: Store, id: Id, c: UpdateFeedbackCommand, callerId: Id)
    requires WellFormed(s) && CountsAgree(s)
    ensures CountsAgree(UpdateFeedbackAsUser(s, id, c, callerId).store)
  {
    if UpdateViolations(c) == [] && id in s.feedbacks && FindById(s.users, callerId).Some? {
      UpdateAsUserPolicy(s, id, c, callerId, FindById(s.users, callerId).value);
      UpdateKeepsCounts(s, id, c);
    }
  }

  /** Archiving keeps the counters right. */
  lemma ArchiveKeepsCounts(s: Store, idText: string)
    requires WellFormed(s) && CountsAgree(s)
    ensures CountsAgree(ArchiveFeedback(s, idText).store)
  {
    if ArchiveFeedback(s, idText).result.Ok? {
      var k := Ids.FromString(idText).value;
      PutFeedbackKeepsCounts(s, k, Archived(s.feedbacks[k]));
    }
  }

  /** Reopening keeps the counters right. */
  lemma ReopenKeepsCounts(s: Store, id: Id)
    requires WellFormed(s) && CountsAgree(s)
    ensures CountsAgree(ReopenFeedback(s, id).store)
  {
    if id in s.feedbacks {
      PutFeedbackKeepsCounts(s, id, Reopened(s.feedbacks[id]));
    }
  }

  /** A feedback vote keeps the counters right. */
  lemma VoteFeedbackKeepsCounts(s: Store, id: Id, direction: Option<string>)
    requires WellFormed(s) && CountsAgree(s)
    ensures CountsAgree(VoteFeedback(s, id, direction).store)
  {
    var o := VoteFeedback(s, id, direction);
    if o.result.Ok? {
      var f := Voted(s.feedbacks[id], VD.FromString(direction).value);
      VoteTouchesOnlyCounters(s.feedbacks[id], VD.FromString(direction).value);
      assert o.store == PutFeedback(s, id, f);
      PutFeedbackKeepsCounts(s, id, f);
    }
  }

  /** Deleting a feedback keeps the counters of the others right. */
  lemma DeleteKeepsCounts(s: Store, id: Id)
    requires WellFormed(s) && CountsAgree(s)
    ensures CountsAgree(DeleteFeedback(s, id).store)
  {
  }

  // ---------------------------------------------------------------- the entity's own constraints

  /** Every stored feedback row satisfies the constraints declared on the Feedback entity. */
  predicate RowsValid(s: Store) {
    forall k :: k in s.feedbacks ==> ValidFeedback(s.feedbacks[k])
  }

  /** Writing a row that satisfies the entity's constraints keeps every stored row valid. */
  lemma PutFeedbackKeepsRowsValid(s: Store, id: Id, f: FeedbackRecord)
    requires RowsValid(s) && ValidFeedback(f)
    ensures RowsValid(PutFeedback(s, id, f))
  {
  }

  /** Replacing a row by one with the same constrained columns keeps every stored row valid. */
  lemma PutSameColumnsKeepsRowsValid(s: Store, id: Id, f: FeedbackRecord)
    requires RowsValid(s) && id in s.feedbacks
    requires f.title == s.feedbacks[id].title && f.description == s.feedbacks[id].description
    requires f.sentiment == s.feedbacks[id].sentiment && f.tags == s.feedbacks[id].tags
    ensures RowsValid(PutFeedback(s, id, f))
  {
    assert ValidFeedback(s.feedbacks[id]);
  }

  /** Inserting a row that satisfies the entity's constraints keeps every stored row valid. */
  lemma InsertFeedbackKeepsRowsValid(s: Store, id: Id, f: FeedbackRecord)
    requires RowsValid(s) && ValidFeedback(f)
    ensures RowsValid(InsertFeedback(s, id, f))
  {
  }

  /** A created row satisfies the entity's constraints, so creation keeps every stored row valid. */
  lemma CreateKeepsRowsValid(s: Store, c: CreateFeedbackCommand, userId: Option<string>, newId: Id, now: Instant)
    requires WellFormed(s) && RowsValid(s) && newId !in s.feedbacks
    ensures RowsValid(CreateFeedback(s, c, userId, newId, now).store)
  {
    var o := CreateFeedback(s, c, userId, newId, now);
    CreateFeedbackOkIff(s, c, userId, newId, now);
    if o.result.Ok? {
      var uid := Ids.FromString(userId.value).value;
      var f := Created(c.title.value, c.description.value, c.categoryId, uid, newId, now);
      assert o.store == InsertFeedback(s, newId, f);
      ValidCreateMakesValidFeedback(c, now);
      InsertFeedbackKeepsRowsValid(s, newId, f);
    }
  }

  /** An update writes only a row the entity's constraints accept, so every stored row stays valid. */
  lemma UpdateKeepsRowsValid(s: Store, id: Id, c: UpdateFeedbackCommand)
    requires WellFormed(s) && RowsValid(s)
    ensures RowsValid(UpdateFeedback(s, id, c).store)
  {
    var o := UpdateFeedback(s, id, c);
    if o.result.Ok? {
      assert UpdateViolations(c) == [] && id in s.feedbacks;
      assert o.store == ApplyUpdate(s, id, c).store;
      PutFeedbackKeepsRowsValid(s, id, Updated(s.feedbacks[id], c));
    }
  }

  /** The same for an update on behalf of a user. */
  lemma UpdateAsUserKeepsRowsValid(s: Store, id: Id, c: UpdateFeedbackCommand, callerId: Id)
    requires WellFormed(s) && RowsValid(s)
    ensures RowsValid(UpdateFeedbackAsUser(s, id, c, callerId).store)
  {
    if UpdateViolations(c) == [] && id in s.feedbacks && FindById(s.users, callerId).Some? {
      UpdateAsUserPolicy(s, id, c, callerId, FindById(s.users, callerId).value);
      UpdateKeepsRowsValid(s, id, c);
    }
  }

  /** Archiving changes no constrained column, so every stored row stays valid. */
  lemma ArchiveKeepsRowsValid(s: Store, idText: string)
    requires WellFormed(s) && RowsValid(s)
    ensures RowsValid(ArchiveFeedback(s, idText).store)
  {
    if ArchiveFeedback(s, idText).result.Ok? {
      var k := Ids.FromString(idText).value;
      PutSameColumnsKeepsRowsValid(s, k, Archived(s.feedbacks[k]));
    }
  }

  /** Reopening changes no constrained column, so every stored row stays valid. */
  lemma ReopenKeepsRowsValid(s: Store, id: Id)
    requires WellFormed(s) && RowsValid(s)
    ensures RowsValid(ReopenFeedback(s, id).store)
  {
    if id in s.feedbacks {
      PutSameColumnsKeepsRowsValid(s, id, Reopened(s.feedbacks[id]));
    }
  }

  /** A vote moves only counters, so every stored row stays valid. */
  lemma VoteFeedbackKeepsRowsValid(s: Store, id: Id, direction: Option<string>)
    requires WellFormed(s) && RowsValid(s)
    ensures RowsValid(VoteFeedback(s, id, direction).store)
  {
    var o := VoteFeedback(s, id, direction);
    if o.result.Ok? {
      var f := Voted(s.feedbacks[id], VD.FromString(direction).value);
      VoteTouchesOnlyCounters(s.feedbacks[id], VD.FromString(direction).value);
      assert o.store == PutFeedback(s, id, f);
      PutSameColumnsKeepsRowsValid(s, id, f);
    }
  }

  /** The tables after a comment is added differ from the old ones in one counter only, so every stored row stays valid. */
  lemma CommentAddedKeepsRowsValid(s: Store, feedbackId: Id, newId: Id, c: CommentRecord)
    requires RowsValid(s) && feedbackId in s.feedbacks
    ensures RowsValid(CommentAdded(s, feedbackId, newId, c))
  {
    var f := s.feedbacks[feedbackId];
    PutSameColumnsKeepsRowsValid(s, feedbackId, f.(comments := f.comments + 1));
  }

  /** Adding a comment keeps every stored row valid. */
  lemma AddCommentKeepsRowsValid(s: Store, feedbackId: Id, request: CreateCommentRequest, newId: Id, now: Instant)
    requires WellFormed(s) && RowsValid(s) && newId !in s.comments
    ensures RowsValid(AddComment(s, feedbackId, request, newId, now).store)
  {
    if CommentViolations(request) == [] && feedbackId in s.feedbacks && FindById(s.users, FixedCommentAuthorId).Some? {
      CommentAddedKeepsRowsValid(s, feedbackId, newId, AddedComment(request.text.value, feedbackId, newId, now));
    }
  }

  /** Deleting a feedback only drops a row, so every remaining row stays valid. */
  lemma DeleteKeepsRowsValid(s: Store, id: Id)
    requires WellFormed(s) && RowsValid(s)
    ensures RowsValid(DeleteFeedback(s, id).store)
  {
    assert DeleteFeedback(s, id).store.feedbacks.Keys <= s.feedbacks.Keys;
  }

  /** A comment vote writes only a comment row, so every feedback row stays valid. */
  lemma VoteCommentKeepsRowsValid(s: Store, feedbackId: Id, commentId: Id, direction: Option<string>, now: Instant)
    requires WellFormed(s) && RowsValid(s)
    ensures RowsValid(VoteComment(s, feedbackId, commentId, direction, now).store)
  {
    assert VoteComment(s, feedbackId, commentId, direction, now).store.feedbacks == s.feedbacks;
  }
}
