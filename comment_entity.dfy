/** The Comment entity: its persistence callbacks, its upvote counter and its field constraints. */
module CommentEntities {
  import opened Wrappers
  import opened Text
  import opened Ids
  import opened VoteDirections
  import opened FeedbackEntities

  /** The value of every field of a Comment row; the feedback and the author are held by id. */
  datatype CommentRecord = CommentRecord(
    id: Option<Id>,
    text: string,
    feedbackId: Id,
    authorId: Id,
    createdAt: Option<Instant>,
    updatedAt: Option<Instant>,
    isDeveloperResponse: bool,
    upvotes: nat)

  /** The three-argument constructor: the given text, feedback and author; everything else at its Java default. */
  function NewComment(text: string, feedbackId: Id, authorId: Id): CommentRecord {
    CommentRecord(None, text, feedbackId, authorId, None, None, false, 0)
  }

  /** `PrePersist`: a fresh id, both timestamps, and the flag and counter forced back to their defaults. */
  function Persisted(c: CommentRecord, newId: Id, now: Instant): CommentRecord {
    c.(id := Some(newId), createdAt := Some(now), updatedAt := Some(now), isDeveloperResponse := false, upvotes := 0)
  }

  /** `PreUpdate`. */
  function Touched(c: CommentRecord, now: Instant): CommentRecord {
    c.(updatedAt := Some(now))
  }

  /** A comment counts only upvotes: UP adds one, DOWN and NONE take one away, never below zero. */
  function CommentVoted(c: CommentRecord, d: VoteDirection): CommentRecord {
    match d
    case Up => c.(upvotes := c.upvotes + 1)
    case _ => c.(upvotes := Decrement(c.upvotes))
  }

  /** The constraints declared on the entity's fields; feedback and author are non-null by construction here. */
  predicate ValidComment(c: CommentRecord) {
    !IsBlank(c.text) && 1 <= Utf16Length(c.text) <= 5000
  }

  /** The constructor stores exactly what it was given. */
  lemma NewCommentKeepsArguments(text: string, feedbackId: Id, authorId: Id)
    ensures var c := NewComment(text, feedbackId, authorId);
      c.text == text && c.feedbackId == feedbackId && c.authorId == authorId && c.id.None?
  {
  }

  /** Whatever a comment held before, persisting it leaves it unflagged with no upvotes, and keeps text, feedback and author. */
  lemma PersistResetsFlags(c: CommentRecord, newId: Id, now: Instant)
    ensures var p := Persisted(c, newId, now);
      && p.upvotes == 0 && !p.isDeveloperResponse && p.id == Some(newId)
      && p.createdAt.Some? && p.updatedAt.Some?
      && p.text == c.text && p.feedbackId == c.feedbackId && p.authorId == c.authorId
  {
  }

  /** Only `updatedAt` moves on an update. */
  lemma TouchOnlyUpdatedAt(c: CommentRecord, now: Instant)
    ensures Touched(c, now).updatedAt == Some(now)
    ensures Touched(c, now).(updatedAt := c.updatedAt) == c
  {
  }

  /** An upvote followed by a removal restores the count; a removal at zero stays at zero. */
  lemma CommentVoteCounter(c: CommentRecord, d: VoteDirection)
    ensures CommentVoted(CommentVoted(c, Up), NoVote) == c
    ensures CommentVoted(CommentVoted(c, Up), Down) == c
    ensures c.upvotes == 0 && d != Up ==> CommentVoted(c, d) == c
    ensures CommentVoted(c, d).(upvotes := c.upvotes) == c
  {
  }

  /** A Comment row as the persistence layer manages it. */
  class Comment {
    var id: Option<Id>
    var text: string
    var feedbackId: Id
    var authorId: Id
    var createdAt: Option<Instant>
    var updatedAt: Option<Instant>
    var isDeveloperResponse: bool
    var upvotes: nat

    function Snapshot(): CommentRecord
      reads this
    {
      CommentRecord(id, text, feedbackId, authorId, createdAt, updatedAt, isDeveloperResponse, upvotes)
    }

    /** The managed entity the persistence layer materialises from a stored row. */
    constructor Load(row: CommentRecord)
      ensures Snapshot() == row
    {
      this.id := row.id;
      this.text := row.text;
      this.feedbackId := row.feedbackId;
      this.authorId := row.authorId;
      this.createdAt := row.createdAt;
      this.updatedAt := row.updatedAt;
      this.isDeveloperResponse := row.isDeveloperResponse;
      this.upvotes := row.upvotes;
    }

    /** `Comment(text, feedback, author)`. */
    constructor (text: string, feedbackId: Id, authorId: Id)
      ensures Snapshot() == NewComment(text, feedbackId, authorId)
    {
      this.id := None;
      this.text := text;
      this.feedbackId := feedbackId;
      this.authorId := authorId;
      this.createdAt := None;
      this.updatedAt := None;
      this.isDeveloperResponse := false;
      this.upvotes := 0;
    }

    /** `PrePersist`; the generated id and the clock reading are parameters. */
    method PrePersist(newId: Id, now: Instant)
      modifies this
      ensures Snapshot() == Persisted(old(Snapshot()), newId, now)
    {
      id := Some(newId);
      createdAt := Some(now);
      updatedAt := Some(now);
      isDeveloperResponse := false;
      upvotes := 0;
    }

    /** `PreUpdate`. */
    method PreUpdate(now: Instant)
      modifies this
      ensures Snapshot() == Touched(old(Snapshot()), now)
    {
      updatedAt := Some(now);
    }

    method Upvote()
      modifies this
      ensures Snapshot() == old(Snapshot()).(upvotes := old(upvotes) + 1)
    {
      upvotes := upvotes + 1;
    }

    method RemoveUpvote()
      modifies this
      ensures Snapshot() == old(Snapshot()).(upvotes := Decrement(old(upvotes)))
    {
      if upvotes > 0 {
        upvotes := upvotes - 1;
      }
    }

    /** The switch of the comment vote: UP upvotes, DOWN and NONE remove an upvote. */
    method ApplyVote(d: VoteDirection)
      modifies this
      ensures Snapshot() == CommentVoted(old(Snapshot()), d)
    {
      match d
      case Up => Upvote();
      case _ => RemoveUpvote();
    }
  }
}
