/**
 * Declarative bean validation of the request records: each constraint annotation becomes a check
 * that yields a violation (property path and message) when it fails.
 */
module Validation {
  import opened Wrappers
  import opened Text
  import opened Ids
  import opened FeedbackEntities

  /** One failed constraint: the property path it is on and the message declared with the constraint. */
  datatype Violation = Violation(path: string, message: string)

  /**
   * The path Hibernate Validator prints for a constraint on a service method's parameter: the method
   * name, the parameter name (the build keeps parameter names), then the property, joined by dots.
   */
  function PropertyPath(parameterPath: string, property: string): (r: string)
    ensures StartsWith(r, parameterPath) && EndsWith(r, property)
    ensures |r| == |parameterPath| + 1 + |property| && r[|parameterPath|] == '.'
  {
    parameterPath + "." + property
  }

  /** The validated parameters: `createFeedback(command, userId)`, both `updateFeedback(.., command, ..)`, `addComment(.., request)`, `voteFeedback(.., direction)` and `voteComment(.., direction)`. */
  const CreateCommandPath: string := "createFeedback.command"
  const CreateUserIdPath: string := "createFeedback.userId"
  const UpdateCommandPath: string := "updateFeedback.command"
  const CommentRequestPath: string := "addComment.request"
  const VoteFeedbackDirectionPath: string := "voteFeedback.direction"
  const VoteCommentDirectionPath: string := "voteComment.direction"

  /** `CreateFeedbackCommand`; every reference type may be null. */
  datatype CreateFeedbackCommand = CreateFeedbackCommand(
    title: Option<string>,
    description: Option<string>,
    categoryId: Option<Id>,
    authorId: Option<Id>,
    sentiment: Option<string>,
    tags: Option<string>)

  /** `UpdateFeedbackCommand`; a null categoryId or authorId asks the service to clear that relation. */
  datatype UpdateFeedbackCommand = UpdateFeedbackCommand(
    title: Option<string>,
    description: Option<string>,
    status: Option<FeedbackStatus>,
    categoryId: Option<Id>,
    authorId: Option<Id>,
    sentiment: Option<string>,
    tags: Option<string>)

  /** `CreateCommentRequest`. */
  datatype CreateCommentRequest = CreateCommentRequest(text: Option<string>)

  const TitleBlankMessage: string := "Title cannot be blank"
  const TitleSizeMessage: string := "Title must be between 3 and 255 characters"
  const DescriptionBlankMessage: string := "Description cannot be blank"
  const DescriptionSizeMessage: string := "Description must be between 10 and 5000 characters"
  const StatusRequiredMessage: string := "Status is required"
  const CommentBlankMessage: string := "Comment text cannot be blank"
  const CommentSizeMessage: string := "Comment must be between 1 and 5000 characters"

  // The messages of the constraints declared on the Feedback entity itself.
  const EntityTitleBlankMessage: string := "Feedback title cannot be blank"
  const EntityTitleSizeMessage: string := "Feedback title must be between 3 and 255 characters"
  const EntityDescriptionBlankMessage: string := "Feedback description cannot be blank"
  const EntityDescriptionSizeMessage: string := "Feedback description must be between 10 and 5000 characters"
  const SentimentSizeMessage: string := "Sentiment must not exceed 50 characters"
  const TagsSizeMessage: string := "Tags must not exceed 500 characters"

  /** `NotBlank` followed by `Size(min, max)` on one property: one violation per failing constraint. */
  function TextViolations(path: string, value: Option<string>, min: nat, max: nat,
                          blankMessage: string, sizeMessage: string): (r: seq<Violation>)
    requires blankMessage != sizeMessage
    ensures |r| <= 2
    ensures r == [] <==> NotBlank(value) && SizeWithin(value, min, max)
    ensures forall i :: 0 <= i < |r| ==> r[i].path == path
    ensures Violation(path, blankMessage) in r <==> !NotBlank(value)
    ensures Violation(path, sizeMessage) in r <==> !SizeWithin(value, min, max)
  {
    (if NotBlank(value) then [] else [Violation(path, blankMessage)])
    + (if SizeWithin(value, min, max) then [] else [Violation(path, sizeMessage)])
  }

  predicate ValidTitle(title: Option<string>) {
    NotBlank(title) && SizeWithin(title, 3, 255)
  }

  predicate ValidDescription(description: Option<string>) {
    NotBlank(description) && SizeWithin(description, 10, 5000)
  }

  predicate ValidCommentText(text: Option<string>) {
    NotBlank(text) && SizeWithin(text, 1, 5000)
  }

  /** The title's constraints, reported on the property `title` of the command at `at`. */
  function TitleViolations(at: string, title: Option<string>): (r: seq<Violation>)
    ensures r == [] <==> ValidTitle(title)
    ensures forall i :: 0 <= i < |r| ==> r[i].path == PropertyPath(at, "title")
  {
    TextViolations(PropertyPath(at, "title"), title, 3, 255, TitleBlankMessage, TitleSizeMessage)
  }

  /** The description's constraints, reported on the property `description` of the command at `at`. */
  function DescriptionViolations(at: string, description: Option<string>): (r: seq<Violation>)
    ensures r == [] <==> ValidDescription(description)
    ensures forall i :: 0 <= i < |r| ==> r[i].path == PropertyPath(at, "description")
  {
    TextViolations(PropertyPath(at, "description"), description, 10, 5000,
                   DescriptionBlankMessage, DescriptionSizeMessage)
  }

  /** The violations of `createFeedback`'s command: only title and description are constrained. */
  function CreateViolations(c: CreateFeedbackCommand): (r: seq<Violation>)
    ensures r == [] <==> ValidTitle(c.title) && ValidDescription(c.description)
    ensures forall i :: 0 <= i < |r| ==>
      r[i].path in {PropertyPath(CreateCommandPath, "title"), PropertyPath(CreateCommandPath, "description")}
  {
    TitleViolations(CreateCommandPath, c.title) + DescriptionViolations(CreateCommandPath, c.description)
  }

  /** The violations of `updateFeedback`'s command: title, description, and a status that must be present. */
  function UpdateViolations(c: UpdateFeedbackCommand): (r: seq<Violation>)
    ensures r == [] <==> ValidTitle(c.title) && ValidDescription(c.description) && c.status.Some?
    ensures Violation(PropertyPath(UpdateCommandPath, "status"), StatusRequiredMessage) in r <==> c.status.None?
    ensures forall i :: 0 <= i < |r| ==>
      r[i].path in {PropertyPath(UpdateCommandPath, "title"), PropertyPath(UpdateCommandPath, "description"),
                    PropertyPath(UpdateCommandPath, "status")}
  {
    var status := PropertyPath(UpdateCommandPath, "status");
    var fields := TitleViolations(UpdateCommandPath, c.title) + DescriptionViolations(UpdateCommandPath, c.description);
    assert forall i :: 0 <= i < |fields| ==> |fields[i].path| != |status|;
    fields + (if c.status.Some? then [] else [Violation(status, StatusRequiredMessage)])
  }

  /** The violations of `addComment`'s request: the text's constraints. */
  function CommentViolations(r: CreateCommentRequest): (v: seq<Violation>)
    ensures v == [] <==> ValidCommentText(r.text)
    ensures forall i :: 0 <= i < |v| ==> v[i].path == PropertyPath(CommentRequestPath, "text")
  {
    TextViolations(PropertyPath(CommentRequestPath, "text"), r.text, 1, 5000, CommentBlankMessage, CommentSizeMessage)
  }

  /**
   * A title is accepted exactly when it is present, has a character above ' ', and is 3 to 255 UTF-16
   * code units long.
   */
  lemma TitleRule(title: Option<string>)
    ensures ValidTitle(title) <==>
      title.Some? && (exists i :: 0 <= i < |title.value| && title.value[i] > ' ')
      && 3 <= Utf16Length(title.value) <= 255
  {
  }

  /**
   * Lengths count UTF-16 code units: a title made only of characters outside the Basic Multilingual
   * Plane (emoji) is accepted from two characters (four units) up to 127 (254 units).
   */
  lemma SupplementaryTitleRule(title: string)
    requires forall i :: 0 <= i < |title| ==> title[i] as int >= 0x10000
    ensures ValidTitle(Some(title)) <==> 2 <= |title| <= 127
  {
    Utf16LengthOfSupplementary(title);
    if |title| > 0 {
      assert title[0] > ' ';
    }
  }

  /** Optional fields never make a create command invalid, and sentiment is not checked against any list. */
  lemma CreateOptionalFieldsUnchecked(c: CreateFeedbackCommand, categoryId: Option<Id>, authorId: Option<Id>,
                                      sentiment: Option<string>, tags: Option<string>)
    ensures CreateViolations(c.(categoryId := categoryId, authorId := authorId, sentiment := sentiment, tags := tags))
         == CreateViolations(c)
  {
  }

  /** The same holds for an update command's optional fields. */
  lemma UpdateOptionalFieldsUnchecked(c: UpdateFeedbackCommand, categoryId: Option<Id>, authorId: Option<Id>,
                                      sentiment: Option<string>, tags: Option<string>)
    ensures UpdateViolations(c.(categoryId := categoryId, authorId := authorId, sentiment := sentiment, tags := tags))
         == UpdateViolations(c)
  {
  }

  /** Create and update apply the same title and description rules. */
  lemma CreateAndUpdateAgree(c: CreateFeedbackCommand, status: FeedbackStatus)
    ensures CreateViolations(c) == [] <==>
      UpdateViolations(UpdateFeedbackCommand(c.title, c.description, Some(status), c.categoryId, c.authorId,
                                             c.sentiment, c.tags)) == []
  {
  }

  /** An empty title and a ten-character-short description are rejected. */
  lemma ShortInputsRejected(c: CreateFeedbackCommand)
    requires c.title == Some("") || c.description == Some("Short")
    ensures CreateViolations(c) != []
  {
  }

  /** Whitespace-only comment text is rejected even though it is long enough; empty text is rejected. */
  lemma {:induction false} BlankCommentRejected(text: string)
    requires forall i :: 0 <= i < |text| ==> text[i] <= ' '
    ensures Violation(PropertyPath(CommentRequestPath, "text"), CommentBlankMessage)
            in CommentViolations(CreateCommentRequest(Some(text)))
    ensures |text| == 0 ==> Violation(PropertyPath(CommentRequestPath, "text"), CommentSizeMessage)
                            in CommentViolations(CreateCommentRequest(Some(text)))
  {
    assert IsBlank(text);
  }

  /** `Size(max)` on an optional property: one violation when the value is present and too long. */
  function CapViolations(path: string, value: Option<string>, max: nat, message: string): (r: seq<Violation>)
    ensures r == [] <==> SizeWithin(value, 0, max)
    ensures forall i :: 0 <= i < |r| ==> r[i] == Violation(path, message)
  {
    if SizeWithin(value, 0, max) then [] else [Violation(path, message)]
  }

  /** The title and description rules of the Feedback entity, on its properties `title` and `description`. */
  function EntityTextViolations(f: FeedbackRecord): (r: seq<Violation>)
    ensures r == [] <==> NotBlank(Some(f.title)) && SizeWithin(Some(f.title), 3, 255)
                         && NotBlank(Some(f.description)) && SizeWithin(Some(f.description), 10, 5000)
    ensures forall i :: 0 <= i < |r| ==> |r[i].path| == 5 || |r[i].path| == 11
  {
    TextViolations("title", Some(f.title), 3, 255, EntityTitleBlankMessage, EntityTitleSizeMessage)
    + TextViolations("description", Some(f.description), 10, 5000,
                     EntityDescriptionBlankMessage, EntityDescriptionSizeMessage)
  }

  /**
   * The violations Hibernate Validator reports on a Feedback row before it is flushed, on the
   * entity's own properties: the title and description rules, then the sentiment and tags caps.
   */
  function FeedbackEntityViolations(f: FeedbackRecord): (r: seq<Violation>)
    ensures r == [] <==> ValidFeedback(f)
    ensures Violation("sentiment", SentimentSizeMessage) in r <==> !SizeWithin(f.sentiment, 0, 50)
    ensures Violation("tags", TagsSizeMessage) in r <==> !SizeWithin(f.tags, 0, 500)
  {
    var text := EntityTextViolations(f);
    var sentiment := CapViolations("sentiment", f.sentiment, 50, SentimentSizeMessage);
    var tags := CapViolations("tags", f.tags, 500, TagsSizeMessage);
    assert Violation("sentiment", SentimentSizeMessage) !in text + tags;
    assert Violation("tags", TagsSizeMessage) !in text + sentiment;
    text + sentiment + tags
  }

  /** A valid create command builds a Feedback entity that satisfies the entity's own constraints. */
  lemma ValidCreateMakesValidFeedback(c: CreateFeedbackCommand, now: Instant)
    requires CreateViolations(c) == []
    ensures ValidFeedback(NewFeedback(c.title.value, c.description.value, now))
  {
  }
}
