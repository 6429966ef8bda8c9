/**
 * The feedback application service: each operation loads an entity from its table, changes it
 * through the entity's own methods and setters, and persists it. Each method is proved to do
 * exactly what the matching function of `FeedbackSpec` describes, so everything proved about
 * those functions holds for the service.
 */
module FeedbackServices {
  import opened Wrappers
  import opened Ids
  import VD = VoteDirections
  import opened Users
  import opened FeedbackEntities
  import opened CommentEntities
  import opened Validation
  import opened Errors
  import opened FeedbackSpec
  import opened Repositories

  /** The successful path of the shared update step. */
  lemma ApplyUpdateSucceeds(s: Store, id: Id, c: UpdateFeedbackCommand, f: FeedbackRecord, t: Store)
    requires WellFormed(s) && id in s.feedbacks && UpdateViolations(c) == [] && UpdateLookupError(s, c).None?
    requires f == Updated(s.feedbacks[id], c) && ValidFeedback(f) && t == PutFeedback(s, id, f)
    ensures FeedbackSpec.ApplyUpdate(s, id, c).store == t
    ensures FeedbackSpec.ApplyUpdate(s, id, c).result == Ok(ToResponse(t, id, f))
  {
  }

  /** The successful path of `archiveFeedback`. */
  lemma ArchiveSucceeds(s: Store, idText: string, id: Id, f: FeedbackRecord, t: Store)
    requires WellFormed(s) && Ids.FromString(idText) == Some(id) && id in s.feedbacks
    requires f == Archived(s.feedbacks[id]) && t == PutFeedback(s, id, f)
    ensures FeedbackSpec.ArchiveFeedback(s, idText).store == t
    ensures FeedbackSpec.ArchiveFeedback(s, idText).result == Ok(ToResponse(t, id, f))
  {
  }

  /** The successful path of `reopenFeedback`. */
  lemma ReopenSucceeds(s: Store, id: Id, f: FeedbackRecord, t: Store)
    requires WellFormed(s) && id in s.feedbacks
    requires f == Reopened(s.feedbacks[id]) && t == PutFeedback(s, id, f)
    ensures FeedbackSpec.ReopenFeedback(s, id).store == t
    ensures FeedbackSpec.ReopenFeedback(s, id).result == Ok(ToResponse(t, id, f))
  {
  }

  /** The successful path of `voteFeedback`. */
  lemma VoteFeedbackSucceeds(s: Store, id: Id, direction: string, d: VD.VoteDirection, f: FeedbackRecord, t: Store)
    requires WellFormed(s) && id in s.feedbacks && VD.FromString(Some(direction)) == Ok(d)
    requires f == Voted(s.feedbacks[id], d) && t == PutFeedback(s, id, f)
    ensures FeedbackSpec.VoteFeedback(s, id, Some(direction)).store == t
    ensures FeedbackSpec.VoteFeedback(s, id, Some(direction)).result == Ok(ToResponse(t, id, f))
  {
  }

  /** The successful path of `createFeedback`. */
  lemma CreateFeedbackSucceeds(s: Store, c: CreateFeedbackCommand, userId: string, uid: Id, newId: Id, now: Instant,
                               f: FeedbackRecord, t: Store)
    requires WellFormed(s) && newId !in s.feedbacks
    requires CreateViolations(c) == []
    requires c.categoryId.None? || c.categoryId.value in s.categories
    requires Ids.FromString(userId) == Some(uid) && FindById(s.users, uid).Some?
    requires c.title.Some? && c.description.Some?
    requires f == Created(c.title.value, c.description.value, c.categoryId, uid, newId, now)
    requires t == InsertFeedback(s, newId, f)
    ensures FeedbackSpec.CreateFeedback(s, c, Some(userId), newId, now).store == t
    ensures FeedbackSpec.CreateFeedback(s, c, Some(userId), newId, now).result == Ok(ToResponse(t, newId, f))
  {
  }

  /** The successful path of `voteComment`. */
  lemma VoteCommentSucceeds(s: Store, feedbackId: Id, commentId: Id, direction: string, d: VD.VoteDirection,
                            now: Instant, t: Store)
    requires WellFormed(s) && feedbackId in s.feedbacks && commentId in s.comments
    requires s.comments[commentId].feedbackId == feedbackId
    requires VD.FromString(Some(direction)) == Ok(d)
    requires t == PutComment(s, commentId, StoredAfterVote(s.comments[commentId], d, now))
    ensures FeedbackSpec.VoteComment(s, feedbackId, commentId, Some(direction), now).store == t
    ensures FeedbackSpec.VoteComment(s, feedbackId, commentId, Some(direction), now).result
            == Ok(ToCommentResponse(s, commentId, CommentVoted(s.comments[commentId], d)))
  {
  }

  /** The successful path of `addComment`. */
  lemma AddCommentSucceeds(s: Store, feedbackId: Id, request: CreateCommentRequest, newId: Id, now: Instant,
                           c: CommentRecord, u: Store)
    requires WellFormed(s) && newId !in s.comments
    requires CommentViolations(request) == [] && feedbackId in s.feedbacks
    requires FindById(s.users, FixedCommentAuthorId).Some?
    requires request.text.Some? && c == AddedComment(request.text.value, feedbackId, newId, now)
    requires u == CommentAdded(s, feedbackId, newId, c)
    ensures FeedbackSpec.AddComment(s, feedbackId, request, newId, now).store == u
    ensures FeedbackSpec.AddComment(s, feedbackId, request, newId, now).result == Ok(ToCommentResponse(u, newId, c))
  {
  }

  class FeedbackApplicationService {
    const feedbackRepository: FeedbackRepository
    const commentRepository: CommentRepository
    /** The category table, which this service only reads. */
    const categories: map<Id, CategoryRecord>
    /** The user table, shared with sign-in. */
    const userRepository: UserRepository

    /** The tables as values. */
    function Abstract(): Store
      reads feedbackRepository, commentRepository, userRepository
    {
      Store(feedbackRepository.rows, feedbackRepository.order, commentRepository.rows, commentRepository.order,
            categories, userRepository.users)
    }

    predicate Valid()
      reads feedbackRepository, commentRepository, userRepository
    {
      WellFormed(Abstract())
    }

    constructor (feedbackRepository: FeedbackRepository, commentRepository: CommentRepository,
                 categories: map<Id, CategoryRecord>, userRepository: UserRepository)
      requires WellFormed(Store(feedbackRepository.rows, feedbackRepository.order, commentRepository.rows,
                                commentRepository.order, categories, userRepository.users))
      ensures Valid()
      ensures Abstract() == Store(feedbackRepository.rows, feedbackRepository.order, commentRepository.rows,
                                  commentRepository.order, categories, userRepository.users)
    {
      this.feedbackRepository := feedbackRepository;
      this.commentRepository := commentRepository;
      this.categories := categories;
      this.userRepository := userRepository;
    }

    /** `createFeedback`. */
    method CreateFeedback(c: CreateFeedbackCommand, userId: Option<string>, newId: Id, now: Instant)
      returns (r: Result<FeedbackResponse, ServiceError>)
      requires Valid() && newId !in feedbackRepository.rows
      modifies feedbackRepository
      ensures Valid()
      ensures Abstract() == FeedbackSpec.CreateFeedback(old(Abstract()), c, userId, newId, now).store
      ensures r == FeedbackSpec.CreateFeedback(old(Abstract()), c, userId, newId, now).result
    {
      var violations := CreateViolations(c) + (if userId.None? then [Violation(CreateUserIdPath, NotNullMessage)] else []);
      if violations != [] {
        return Err(ValidationFailed(violations));
      }
      var feedback := new Feedback(c.title.value, c.description.value, now);
      if c.categoryId.Some? {
        if c.categoryId.value !in categories {
          return Err(CategoryNotFound(c.categoryId.value));
        }
        feedback.categoryId := c.categoryId;
      }
      var authorId := Ids.FromString(userId.value);
      if authorId.None? {
        return Err(InvalidId(userId.value));
      }
      if FindById(userRepository.users, authorId.value).None? {
        return Err(UserNotFound(authorId.value));
      }
      feedback.authorId := authorId;
      feedback.PrePersist(newId);
      ghost var s0 := Abstract();
      assert feedback.Snapshot() == Created(c.title.value, c.description.value, c.categoryId, authorId.value, newId, now);
      feedbackRepository.Persist(newId, feedback.Snapshot());
      assert Abstract() == InsertFeedback(s0, newId, feedback.Snapshot());
      r := Ok(ToResponse(Abstract(), newId, feedback.Snapshot()));
      CreateFeedbackSucceeds(s0, c, userId.value, authorId.value, newId, now, feedback.Snapshot(), Abstract());
    }

    /**
     * The setters both update overloads call once the row is found and the caller may edit it; a
     * row the entity's constraints reject is never written, as the rollback at commit leaves it.
     */
    method ApplyUpdate(id: Id, c: UpdateFeedbackCommand) returns (r: Result<FeedbackResponse, ServiceError>)
      requires Valid() && id in feedbackRepository.rows && UpdateViolations(c) == []
      modifies feedbackRepository
      ensures Valid()
      ensures Abstract() == FeedbackSpec.ApplyUpdate(old(Abstract()), id, c).store
      ensures r == FeedbackSpec.ApplyUpdate(old(Abstract()), id, c).result
    {
      var lookupError := UpdateLookupError(Abstract(), c);
      if lookupError.Some? {
        return Err(lookupError.value);
      }
      ghost var s0 := Abstract();
      var feedback := new Feedback.Load(feedbackRepository.rows[id]);
      SetEditableFields(feedback, c);
      var rejected := FeedbackEntityViolations(feedback.Snapshot());
      if rejected != [] {
        return Err(EntityConstraintsViolated(rejected));
      }
      feedbackRepository.Persist(id, feedback.Snapshot());
      assert Abstract() == PutFeedback(s0, id, feedback.Snapshot());
      r := Ok(ToResponse(Abstract(), id, feedback.Snapshot()));
      ApplyUpdateSucceeds(s0, id, c, feedback.Snapshot(), Abstract());
    }

    /** The seven setter calls: every editable column takes the command's value, absent ones included. */
    static method SetEditableFields(feedback: Feedback, c: UpdateFeedbackCommand)
      requires c.title.Some? && c.description.Some? && c.status.Some?
      modifies feedback
      ensures feedback.Snapshot() == Updated(old(feedback.Snapshot()), c)
    {
      feedback.title := c.title.value;
      feedback.description := c.description.value;
      feedback.status := c.status.value;
      feedback.categoryId := c.categoryId;
      feedback.authorId := c.authorId;
      feedback.sentiment := c.sentiment;
      feedback.tags := c.tags;
    }

    /** `updateFeedback(id, command)`. */
    method UpdateFeedback(id: Id, c: UpdateFeedbackCommand) returns (r: Result<FeedbackResponse, ServiceError>)
      requires Valid()
      modifies feedbackRepository
      ensures Valid()
      ensures Abstract() == FeedbackSpec.UpdateFeedback(old(Abstract()), id, c).store
      ensures r == FeedbackSpec.UpdateFeedback(old(Abstract()), id, c).result
    {
      var violations := UpdateViolations(c);
      if violations != [] {
        return Err(ValidationFailed(violations));
      }
      if id !in feedbackRepository.rows {
        return Err(FeedbackNotFound(ToString(id)));
      }
      r := ApplyUpdate(id, c);
    }

    /** `updateFeedback(id, command, currentUserId)`: only the author or an ADMIN gets through. */
    method UpdateFeedbackAsUser(id: Id, c: UpdateFeedbackCommand, callerId: Id)
      returns (r: Result<FeedbackResponse, ServiceError>)
      requires Valid()
      modifies feedbackRepository
      ensures Valid()
      ensures Abstract() == FeedbackSpec.UpdateFeedbackAsUser(old(Abstract()), id, c, callerId).store
      ensures r == FeedbackSpec.UpdateFeedbackAsUser(old(Abstract()), id, c, callerId).result
    {
      var violations := UpdateViolations(c);
      if violations != [] {
        return Err(ValidationFailed(violations));
      }
      if id !in feedbackRepository.rows {
        return Err(FeedbackNotFound(ToString(id)));
      }
      var caller := FindById(userRepository.users, callerId);
      if caller.None? {
        return Err(UserNotFound(callerId));
      }
      var feedback := feedbackRepository.rows[id];
      var isAuthor := feedback.authorId.Some? && feedback.authorId.value == callerId;
      var isAdmin := caller.value.role.Some? && caller.value.role.value.Admin?;
      if !isAuthor && !isAdmin {
        return Err(Unauthorized(UpdateDeniedMessage));
      }
      r := ApplyUpdate(id, c);
    }

    /** `deleteFeedback`. */
    method DeleteFeedback(id: Id) returns (r: Result<(), ServiceError>)
      requires Valid()
      modifies feedbackRepository
      ensures Valid()
      ensures Abstract() == FeedbackSpec.DeleteFeedback(old(Abstract()), id).store
      ensures r == FeedbackSpec.DeleteFeedback(old(Abstract()), id).result
    {
      if id !in feedbackRepository.rows {
        return Err(FeedbackNotFound(ToString(id)));
      }
      feedbackRepository.DeleteById(id);
      r := Ok(());
    }

    /** `archiveFeedback(String id)`. */
    method ArchiveFeedback(idText: string) returns (r: Result<FeedbackResponse, ServiceError>)
      requires Valid()
      modifies feedbackRepository
      ensures Valid()
      ensures Abstract() == FeedbackSpec.ArchiveFeedback(old(Abstract()), idText).store
      ensures r == FeedbackSpec.ArchiveFeedback(old(Abstract()), idText).result
    {
      var id := Ids.FromString(idText);
      if id.None? {
        return Err(InvalidId(idText));
      }
      if id.value !in feedbackRepository.rows {
        return Err(FeedbackNotFound(idText));
      }
      ghost var s0 := Abstract();
      var feedback := new Feedback.Load(feedbackRepository.rows[id.value]);
      feedback.Archive();
      feedbackRepository.Persist(id.value, feedback.Snapshot());
      assert Abstract() == PutFeedback(s0, id.value, feedback.Snapshot());
      r := Ok(ToResponse(Abstract(), id.value, feedback.Snapshot()));
      ArchiveSucceeds(s0, idText, id.value, feedback.Snapshot(), Abstract());
    }

    /** `reopenFeedback`. */
    method ReopenFeedback(id: Id) returns (r: Result<FeedbackResponse, ServiceError>)
      requires Valid()
      modifies feedbackRepository
      ensures Valid()
      ensures Abstract() == FeedbackSpec.ReopenFeedback(old(Abstract()), id).store
      ensures r == FeedbackSpec.ReopenFeedback(old(Abstract()), id).result
    {
      if id !in feedbackRepository.rows {
        return Err(FeedbackNotFound(ToString(id)));
      }
      ghost var s0 := Abstract();
      var feedback := new Feedback.Load(feedbackRepository.rows[id]);
      feedback.Reopen();
      feedbackRepository.Persist(id, feedback.Snapshot());
      assert Abstract() == PutFeedback(s0, id, feedback.Snapshot());
      r := Ok(ToResponse(Abstract(), id, feedback.Snapshot()));
      ReopenSucceeds(s0, id, feedback.Snapshot(), Abstract());
    }

    /** `addComment`: persist the comment, then count it on its feedback. */
    method AddComment(feedbackId: Id, request: CreateCommentRequest, newId: Id, now: Instant)
      returns (r: Result<CommentResponse, ServiceError>)
      requires Valid() && newId !in commentRepository.rows
      modifies feedbackRepository, commentRepository
      ensures Valid()
      ensures Abstract() == FeedbackSpec.AddComment(old(Abstract()), feedbackId, request, newId, now).store
      ensures r == FeedbackSpec.AddComment(old(Abstract()), feedbackId, request, newId, now).result
    {
      var violations := CommentViolations(request);
      if violations != [] {
        return Err(ValidationFailed(violations));
      }
      if feedbackId !in feedbackRepository.rows {
        return Err(FeedbackNotFound(ToString(feedbackId)));
      }
      var feedback := new Feedback.Load(feedbackRepository.rows[feedbackId]);
      if FindById(userRepository.users, FixedCommentAuthorId).None? {
        return Err(UserNotFound(ReportedCommentAuthorId));
      }
      ghost var s0 := Abstract();
      r := SaveComment(feedback, feedbackId, request.text.value, newId, now);
      AddCommentSucceeds(s0, feedbackId, request, newId, now, AddedComment(request.text.value, feedbackId, newId, now),
                         Abstract());
    }

    /** The persisting half of `addComment`: the new comment row, then the feedback's comment count. */
    method SaveComment(feedback: Feedback, feedbackId: Id, text: string, newId: Id, now: Instant)
      returns (r: Result<CommentResponse, ServiceError>)
      requires Valid() && feedbackId in feedbackRepository.rows && newId !in commentRepository.rows
      requires feedback.Snapshot() == feedbackRepository.rows[feedbackId]
      modifies feedbackRepository, commentRepository, feedback
      ensures Valid()
      ensures Abstract() == CommentAdded(old(Abstract()), feedbackId, newId, AddedComment(text, feedbackId, newId, now))
      ensures r == Ok(ToCommentResponse(Abstract(), newId, AddedComment(text, feedbackId, newId, now)))
    {
      ghost var s0 := Abstract();
      var comment := new Comment(text, feedbackId, FixedCommentAuthorId);
      comment.PrePersist(newId, now);
      assert comment.Snapshot() == AddedComment(text, feedbackId, newId, now);
      commentRepository.Persist(newId, comment.Snapshot());
      assert commentRepository.rows == s0.comments[newId := comment.Snapshot()];
      assert commentRepository.order == s0.commentOrder + [newId];
      feedback.comments := feedback.comments + 1;
      ghost var counted := s0.feedbacks[feedbackId].(comments := s0.feedbacks[feedbackId].comments + 1);
      assert feedback.Snapshot() == counted;
      feedbackRepository.Persist(feedbackId, feedback.Snapshot());
      assert feedbackRepository.rows == s0.feedbacks[feedbackId := counted];
      assert feedbackRepository.order == s0.feedbackOrder;
      ghost var added := Store(s0.feedbacks[feedbackId := counted], s0.feedbackOrder, s0.comments[newId := comment.Snapshot()],
                               s0.commentOrder + [newId], s0.categories, s0.users);
      CommentAddedTables(s0, feedbackId, newId, comment.Snapshot());
      assert Abstract() == added;
      CommentAddedKeepsWellFormed(s0, feedbackId, newId, comment.Snapshot());
      r := Ok(ToCommentResponse(Abstract(), newId, comment.Snapshot()));
    }

    /** `voteFeedback`. */
    method VoteFeedback(id: Id, direction: Option<string>) returns (r: Result<FeedbackResponse, ServiceError>)
      requires Valid()
      modifies feedbackRepository
      ensures Valid()
      ensures Abstract() == FeedbackSpec.VoteFeedback(old(Abstract()), id, direction).store
      ensures r == FeedbackSpec.VoteFeedback(old(Abstract()), id, direction).result
    {
      if direction.None? {
        return Err(ValidationFailed([Violation(VoteFeedbackDirectionPath, NotNullMessage)]));
      }
      if id !in feedbackRepository.rows {
        return Err(FeedbackNotFound(ToString(id)));
      }
      var feedback := new Feedback.Load(feedbackRepository.rows[id]);
      var parsed := VD.FromString(direction);
      if parsed.Err? {
        return Err(InvalidDirection(parsed.error));
      }
      ghost var s0 := Abstract();
      feedback.ApplyVote(parsed.value);
      feedbackRepository.Persist(id, feedback.Snapshot());
      assert Abstract() == PutFeedback(s0, id, feedback.Snapshot());
      r := Ok(ToResponse(Abstract(), id, feedback.Snapshot()));
      VoteFeedbackSucceeds(s0, id, direction.value, parsed.value, feedback.Snapshot(), Abstract());
    }

    /** `voteComment`; the update callback runs at commit, after the response is built, and only if the count moved. */
    method VoteComment(feedbackId: Id, commentId: Id, direction: Option<string>, now: Instant)
      returns (r: Result<CommentResponse, ServiceError>)
      requires Valid()
      modifies commentRepository
      ensures Valid()
      ensures Abstract() == FeedbackSpec.VoteComment(old(Abstract()), feedbackId, commentId, direction, now).store
      ensures r == FeedbackSpec.VoteComment(old(Abstract()), feedbackId, commentId, direction, now).result
    {
      if direction.None? {
        return Err(ValidationFailed([Violation(VoteCommentDirectionPath, NotNullMessage)]));
      }
      if feedbackId !in feedbackRepository.rows {
        return Err(FeedbackNotFound(ToString(feedbackId)));
      }
      if commentId !in commentRepository.rows {
        return Err(CommentNotFound(commentId));
      }
      var comment := new Comment.Load(commentRepository.rows[commentId]);
      if comment.feedbackId != feedbackId {
        return Err(CommentMismatch);
      }
      var parsed := VD.FromString(direction);
      if parsed.Err? {
        return Err(InvalidDirection(parsed.error));
      }
      ghost var s0 := Abstract();
      var before := comment.upvotes;
      comment.ApplyVote(parsed.value);
      r := Ok(ToCommentResponse(Abstract(), commentId, comment.Snapshot()));
      if comment.upvotes != before {
        comment.PreUpdate(now);
      }
      assert comment.Snapshot() == StoredAfterVote(s0.comments[commentId], parsed.value, now);
      commentRepository.Persist(commentId, comment.Snapshot());
      assert Abstract() == PutComment(s0, commentId, comment.Snapshot());
      VoteCommentSucceeds(s0, feedbackId, commentId, direction.value, parsed.value, now, Abstract());
    }
  }
}
