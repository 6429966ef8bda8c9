/**
 * The Feedback entity: its lifecycle (a status plus an independent archived flag), its vote
 * and comment counters, and the field constraints declared on it.
 */
module FeedbackEntities {
  import opened Wrappers
  import opened Text
  import opened Ids
  import opened VoteDirections

  datatype FeedbackStatus = Pending | Acknowledged | InProgress | Completed

  /** A wall-clock reading (`OffsetDateTime.now()`); the clock is a parameter of the model. */
  type Instant = int

  /** The value of every field of a Feedback row. Category and author are held by id. */
  datatype FeedbackRecord = FeedbackRecord(
    id: Option<Id>,
    title: string,
    description: string,
    status: FeedbackStatus,
    categoryId: Option<Id>,
    authorId: Option<Id>,
    sentiment: Option<string>,
    tags: Option<string>,
    upvotes: nat,
    downvotes: nat,
    comments: nat,
    archived: bool,
    createdAt: Instant)

  /** The state the two-argument constructor leaves: PENDING, not archived, counters at zero. */
  function NewFeedback(title: string, description: string, now: Instant): FeedbackRecord {
    FeedbackRecord(None, title, description, Pending, None, None, None, None, 0, 0, 0, false, now)
  }

  /** One vote removed, never going below zero. */
  function Decrement(n: nat): (m: nat)
    ensures n > 0 ==> m == n - 1
    ensures n == 0 ==> m == 0
  {
    if n == 0 then 0 else n - 1
  }

  /** `archive()`. */
  function Archived(r: FeedbackRecord): FeedbackRecord {
    r.(archived := true)
  }

  /** `reopen()` as the source writes it: COMPLETED goes back to PENDING; `archived` is not touched. */
  function ReopenedAsWritten(r: FeedbackRecord): FeedbackRecord {
    if r.status == Completed then r.(status := Pending) else r
  }

  /** `reopen()` as intended: the status rule above, and the item is no longer archived. */
  function Reopened(r: FeedbackRecord): FeedbackRecord {
    ReopenedAsWritten(r).(archived := false)
  }

  /** `changeSentiment(s)`. */
  function WithSentiment(r: FeedbackRecord, s: Option<string>): FeedbackRecord {
    r.(sentiment := s)
  }

  /** The counters after one vote: UP and DOWN add one to their own counter; NONE takes one from each. */
  function Voted(r: FeedbackRecord, d: VoteDirection): FeedbackRecord {
    match d
    case Up => r.(upvotes := r.upvotes + 1)
    case Down => r.(downvotes := r.downvotes + 1)
    case NoVote => r.(upvotes := Decrement(r.upvotes), downvotes := Decrement(r.downvotes))
  }

  /** The constraints declared on the entity's fields (`NotBlank`, `Size`, `NotNull`). */
  predicate ValidFeedback(r: FeedbackRecord) {
    && !IsBlank(r.title) && 3 <= Utf16Length(r.title) <= 255
    && !IsBlank(r.description) && 10 <= Utf16Length(r.description) <= 5000
    && SizeWithin(r.sentiment, 0, 50)
    && SizeWithin(r.tags, 0, 500)
  }

  /** A new feedback is PENDING, not archived, unattributed, uncategorised and has every counter at zero. */
  lemma NewFeedbackDefaults(title: string, description: string, now: Instant)
    ensures var r := NewFeedback(title, description, now);
      && r.title == title && r.description == description && r.createdAt == now
      && r.status == Pending && !r.archived
      && r.upvotes == 0 && r.downvotes == 0 && r.comments == 0
      && r.sentiment.None? && r.tags.None? && r.categoryId.None? && r.authorId.None?
  {
  }

  /** Archiving sets the flag, changes nothing else, and a second archive changes nothing. */
  lemma ArchiveOnlySetsFlag(r: FeedbackRecord)
    ensures Archived(r).archived
    ensures Archived(r).(archived := r.archived) == r
    ensures Archived(Archived(r)) == Archived(r)
  {
  }

  /** Reopening maps COMPLETED to PENDING, keeps the other statuses, clears `archived`, and touches nothing else. */
  lemma ReopenStatusRule(r: FeedbackRecord)
    ensures Reopened(r).status == (if r.status == Completed then Pending else r.status)
    ensures !Reopened(r).archived
    ensures Reopened(r).(status := r.status, archived := r.archived) == r
  {
  }

  /** Reopening twice is the same as reopening once. */
  lemma ReopenIdempotent(r: FeedbackRecord)
    ensures Reopened(Reopened(r)) == Reopened(r)
  {
  }

  /** Archive then reopen: the item is active again and only a COMPLETED status moved (to PENDING). */
  lemma ArchiveThenReopen(r: FeedbackRecord)
    ensures Reopened(Archived(r)) == Reopened(r)
    ensures !Reopened(Archived(r)).archived
  {
  }

  /** As written, reopening an archived item leaves it archived; the intended reopen does not. */
  lemma ReopenAsWrittenKeepsArchived(r: FeedbackRecord)
    requires r.archived
    ensures ReopenedAsWritten(r).archived
    ensures ReopenedAsWritten(r) != Reopened(r)
  {
  }

  /** Changing the sentiment (to a value or to null) leaves status and the archived flag alone. */
  lemma SentimentLeavesLifecycle(r: FeedbackRecord, s: Option<string>)
    ensures WithSentiment(r, s).sentiment == s
    ensures WithSentiment(r, s).status == r.status && WithSentiment(r, s).archived == r.archived
  {
  }

  /** A vote moves only the vote counters, each by at most one, and NONE never goes below zero. */
  lemma VoteTouchesOnlyCounters(r: FeedbackRecord, d: VoteDirection)
    ensures Voted(r, d).(upvotes := r.upvotes, downvotes := r.downvotes) == r
    ensures d == Up ==> Voted(r, d).upvotes == r.upvotes + 1 && Voted(r, d).downvotes == r.downvotes
    ensures d == Down ==> Voted(r, d).downvotes == r.downvotes + 1 && Voted(r, d).upvotes == r.upvotes
    ensures d == NoVote ==> Voted(r, d).upvotes == (if r.upvotes == 0 then 0 else r.upvotes - 1)
    ensures d == NoVote ==> Voted(r, d).downvotes == (if r.downvotes == 0 then 0 else r.downvotes - 1)
  {
  }

  /** n UP votes in a row add exactly n to `upvotes`. */
  function Upvoted(r: FeedbackRecord, n: nat): FeedbackRecord {
    if n == 0 then r else Voted(Upvoted(r, n - 1), Up)
  }

  lemma {:induction false} UpvotedCount(r: FeedbackRecord, n: nat)
    ensures Upvoted(r, n).upvotes == r.upvotes + n
    ensures Upvoted(r, n).(upvotes := r.upvotes) == r
  {
    if n > 0 {
      UpvotedCount(r, n - 1);
    }
  }

  /**
   * A NONE vote after n UP votes takes back a single one of them: the counter keeps n - 1
   * (three UP votes and a NONE leave two), it is not reset to zero.
   */
  lemma UpvotesThenNone(r: FeedbackRecord, n: nat)
    requires r.upvotes == 0 && n >= 1
    ensures Voted(Upvoted(r, n), NoVote).upvotes == n - 1
    ensures Voted(Upvoted(r, n), NoVote).upvotes > 0 <==> n >= 2
  {
    UpvotedCount(r, n);
  }

  /** A valid title and description make the new entity valid. */
  lemma NewFeedbackValid(title: string, description: string, now: Instant)
    requires !IsBlank(title) && 3 <= Utf16Length(title) <= 255
    requires !IsBlank(description) && 10 <= Utf16Length(description) <= 5000
    ensures ValidFeedback(NewFeedback(title, description, now))
  {
  }

  /**
   * A Feedback row as the persistence layer manages it: the service loads it, calls the domain
   * methods or setters, and persists it again.
   */
  class Feedback {
    var id: Option<Id>
    var title: string
    var description: string
    var status: FeedbackStatus
    var categoryId: Option<Id>
    var authorId: Option<Id>
    var sentiment: Option<string>
    var tags: Option<string>
    var upvotes: nat
    var downvotes: nat
    var comments: nat
    var archived: bool
    var createdAt: Instant

    /** The current value of every field. */
    function Snapshot(): FeedbackRecord
      reads this
    {
      FeedbackRecord(id, title, description, status, categoryId, authorId, sentiment, tags,
                     upvotes, downvotes, comments, archived, createdAt)
    }

    /** The managed entity the persistence layer materialises from a stored row. */
    constructor Load(row: FeedbackRecord)
      ensures Snapshot() == row
    {
      this.id := row.id;
      this.title := row.title;
      this.description := row.description;
      this.status := row.status;
      this.categoryId := row.categoryId;
      this.authorId := row.authorId;
      this.sentiment := row.sentiment;
      this.tags := row.tags;
      this.upvotes := row.upvotes;
      this.downvotes := row.downvotes;
      this.comments := row.comments;
      this.archived := row.archived;
      this.createdAt := row.createdAt;
    }

    /** `Feedback(title, description)`. */
    constructor (title: string, description: string, now: Instant)
      ensures Snapshot() == NewFeedback(title, description, now)
    {
      this.id := None;
      this.title := title;
      this.description := description;
      this.status := Pending;
      this.categoryId := None;
      this.authorId := None;
      this.sentiment := None;
      this.tags := None;
      this.upvotes := 0;
      this.downvotes := 0;
      this.comments := 0;
      this.archived := false;
      this.createdAt := now;
    }

    /** `PrePersist`: the id comes from the id generator, passed in as `newId`. */
    method PrePersist(newId: Id)
      modifies this
      ensures Snapshot() == old(Snapshot()).(id := Some(newId))
    {
      id := Some(newId);
    }

    method Archive()
      modifies this
      ensures Snapshot() == Archived(old(Snapshot()))
    {
      archived := true;
    }

    method Reopen()
      modifies this
      ensures Snapshot() == Reopened(old(Snapshot()))
    {
      if status == Completed {
        status := Pending;
      }
      archived := false;
    }

    method ChangeSentiment(newSentiment: Option<string>)
      modifies this
      ensures Snapshot() == WithSentiment(old(Snapshot()), newSentiment)
    {
      sentiment := newSentiment;
    }

    /** `upvote()`, `downvote()`, or `removeUpvote()` then `removeDownvote()`, as the direction says. */
    method ApplyVote(d: VoteDirection)
      modifies this
      ensures Snapshot() == Voted(old(Snapshot()), d)
    {
      match d
      case Up => Upvote();
      case Down => Downvote();
      case NoVote =>
        RemoveUpvote();
        RemoveDownvote();
    }

    method Upvote()
      modifies this
      ensures Snapshot() == old(Snapshot()).(upvotes := old(upvotes) + 1)
    {
      upvotes := upvotes + 1;
    }

    method Downvote()
      modifies this
      ensures Snapshot() == old(Snapshot()).(downvotes := old(downvotes) + 1)
    {
      downvotes := downvotes + 1;
    }

    method RemoveUpvote()
      modifies this
      ensures Snapshot() == old(Snapshot()).(upvotes := Decrement(old(upvotes)))
    {
      if upvotes > 0 {
        upvotes := upvotes - 1;
      }
    }

    method RemoveDownvote()
      modifies this
      ensures Snapshot() == old(Snapshot()).(downvotes := Decrement(old(downvotes)))
    {
      if downvotes > 0 {
        downvotes := downvotes - 1;
      }
    }
  }
}
