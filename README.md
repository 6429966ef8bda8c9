# Agora feedback board — a verified model of its domain core

This project models the domain core of the Agora feedback board, a Quarkus backend. On the
board, users submit feedback items, vote on them and comment on them, and the team moves each
item through its lifecycle. The lifecycle has a status (PENDING, ACKNOWLEDGED, IN_PROGRESS,
COMPLETED) and an independent archived flag. A leaderboard ranks users by reputation. Sign-in
goes through Discord's OAuth2 authorization-code grant.

What is modelled:

- **Entities.** `Feedback` and `Comment` are Dafny classes whose methods change their fields in
  place: archive, reopen, change sentiment, and the persistence callbacks. Each class exposes
  its state as a value (`Snapshot()`). Each method is specified by a function on that value
  (`FeedbackEntities`, `CommentEntities`).
- **Vote and comment counters.** `Feedback.java` declares no `upvotes`, `downvotes` or
  `comments` field and no vote methods. `Comment.java` declares `upvotes` but no `upvote` or
  `removeUpvote`. The service calls all of them (`FeedbackApplicationService.java:435-440`,
  `:483-484`, `:353`). The model reconstructs those fields and methods from the calls and from
  what the tests expect of them: a counter starts at 0 and a removal at 0 stays at 0
  (`FeedbackVotingTest.java:204-207`, `CommentVotingTest.java:255-256`).
- **Tables.** The feedback and comment tables are classes holding rows by primary key, plus the
  insertion order an unsorted query returns (`Repositories`). The user table is a class
  holding a sequence of rows (`Users`). Categories are a read-only map.
- **The feedback application service.** `FeedbackServices.FeedbackApplicationService` is a
  class over those tables. Every method loads an entity, changes it through the entity's own
  methods or setters, and persists it. Each method is proved to produce exactly the new tables
  and result that the matching transaction function of `FeedbackSpec` describes. An operation
  is one transaction: it fails with a `ServiceError` and leaves the tables unchanged, or it
  succeeds. `FeedbackProperties` proves what the service promises about those functions:
  - which inputs succeed;
  - what a new or updated row holds;
  - the authorization policy and the order of the checks;
  - idempotence of archive and reopen;
  - the listing's order and pages;
  - the comment list;
  - vote effects;
  - each feedback's `comments` counter stays equal to its number of comment rows.
  - every stored feedback row meets the constraints declared on the entity.
- **Request parsing and validation.** The vote-direction parser (`VoteDirections`), the roles
  (`Roles`), and the bean-validation constraints of the request records (`Validation`). Lengths
  are counted in UTF-16 code units, as `String.length()` counts them, and each violation carries
  the property path Hibernate Validator reports for a service parameter, such as
  `createFeedback.command.title`.
- **Error mapping.** The exception mappers turn each failure into a status and an
  `ErrorResponse` (`Errors`).
- **Leaderboard and top list.** The leaderboard pages and the top list (`Leaderboard`), and the
  query-parameter defaults of the user endpoints (`UserResources`) and the feedback endpoints
  (`FeedbackResources`).
- **Sign-in.** The Discord account's derived values (`DiscordUsers`). The sign-in service, which
  upserts the user by Discord id into the shared user table and issues the token response
  (`DiscordAuth`, class `DiscordAuthService`). The OAuth2 redirect endpoint (`AuthResources`),
  which follows section 4.1.2 of RFC 6749.
- **Ids.** An id is a 64-bit TSID. It is written as 13 characters of Crockford's base-32
  alphabet. Encoding and parsing are defined concretely and proved to be inverse bijections
  (`Ids`).

Behaviour the model follows as the code writes it:

- **NONE vote.** A NONE vote on a feedback takes one vote off each counter, with a floor of 0.
  It does not reset them, although the comment at `FeedbackApplicationService.java:438` says
  "reset both". Three UP votes followed by NONE leave two (`FeedbackEntities.UpvotesThenNone`).
- **Empty authorization code.** An empty `code` query parameter is not null. It therefore goes on
  to the sign-in; only an absent code is refused with 400 (`AuthResources.SignInOnlyWithCode`).
  `AuthResourceTest` expects 400 for the empty code.
- **Denied update.** `UnauthorizedException` is a domain exception that the domain mapper turns
  into 500. The denied update therefore answers 500, not the 403 the endpoint documents
  (`Errors.UnauthorizedIsServerError`).
- **Page-size caps.** The listing endpoint caps the page size at 20. The service would allow
  100.
- **Leaderboard past the data.** A leaderboard page that starts past the last user is an
  `IllegalArgumentException` from `subList` (`FromIndexAfterToIndex`), not an empty page
  (`Leaderboard.LeaderboardOkIff`).
- **Oversized sentiment or tags.** The update command puts no cap on `sentiment` and `tags`, and
  both update overloads copy them onto the entity, whose own constraints cap them at 50 and 500
  UTF-16 units (`Feedback.java:42-46`). Such an update passes validation and the lookups, and is
  then rejected when the transaction flushes the row: nothing is written, and no exception mapper
  of the core gives the failure a status (`FeedbackProperties.UpdateRejectsOversizedFields`).
  Every operation keeps each stored row within the entity's constraints
  (`FeedbackProperties.UpdateKeepsRowsValid` and its siblings).
- **Comment author.** Every comment is attributed to the fixed user 117457749108987389. When that
  user is missing, the failure names user 1 (`FeedbackProperties.AddCommentLookupOrder`).

Behaviour the model corrects:

- **Reopen.** The entity's `reopen()` as written does not clear `archived`
  (`FeedbackEntities.ReopenedAsWritten`). `Feedback.Reopen`, `FeedbackSpec.ReopenFeedback` and the
  service's reopen all use the corrected `Reopened`, which clears it. See "## Findings".
- **Listing offset.** The query computes the first result of a page in Java `int`, which wraps
  for very large page numbers (`Paging.FirstResultAsWritten`). The listing uses the exact offset.
  See "## Findings".

## Model

| member | source | states |
|---|---|---|
| Text.ToLower | src/main/java/com/agora/domain/feedback/model/VoteDirection.java:38 | `toLowerCase` on ASCII letters: same length, every char lower-cased and nothing else changed |
| Text.IntToString | src/main/java/com/agora/domain/feedback/exception/CategoryNotFoundException.java:5 | decimal text of a `long`; non-empty, leading '-' exactly for negatives |
| Text.Utf16Units | src/main/java/com/agora/domain/feedback/application/dto/CreateFeedbackCommand.java:24 | a code point counts two UTF-16 units exactly when it lies above the Basic Multilingual Plane, one otherwise |
| Text.Utf16Length | src/main/java/com/agora/domain/feedback/application/dto/CreateFeedbackCommand.java:24 | `String.length()` counts UTF-16 units: between the number of code points and twice it, zero only for the empty string |
| Text.Utf16LengthOfBmp | src/main/java/com/agora/domain/feedback/application/dto/CreateFeedbackCommand.java:24 | on text inside the Basic Multilingual Plane the Java length is the number of characters |
| Text.Utf16LengthOfSupplementary | src/main/java/com/agora/domain/feedback/application/dto/CreateFeedbackCommand.java:24 | text of emoji and other supplementary characters has a Java length of twice its characters |
| Text.SizeWithin | src/main/java/com/agora/domain/feedback/application/dto/CreateFeedbackCommand.java:24 | `Size(min, max)` over the Java length: more characters than `max` always fails; `min` to `max / 2` characters always pass |
| Text.Trim | src/main/java/com/agora/domain/feedback/application/dto/CreateFeedbackCommand.java:23 | `trim()` leaves a string that starts and ends above U+0020, and leaves nothing exactly when the string is blank, which is what `NotBlank` refuses |
| Text.FoldChar | src/main/java/com/agora/domain/feedback/application/FeedbackApplicationService.java:247 | the ASCII letter a char equals ignoring case: on ASCII the lower-cased letter; besides that only U+0130, U+0131 (i), U+017F (s), U+212A (k) |
| Text.EqualsIgnoreCase | src/main/java/com/agora/domain/feedback/application/FeedbackApplicationService.java:247 | `equalsIgnoreCase` holds for equal strings and only between strings of the same length |
| Text.EqualsIgnoreCaseSymmetric | src/main/java/com/agora/domain/feedback/application/FeedbackApplicationService.java:247 | the comparison is symmetric |
| Text.EqualsIgnoreCaseSameLength | src/main/java/com/agora/domain/feedback/application/FeedbackApplicationService.java:247 | strings equal ignoring case have the same Java (UTF-16) length |
| Text.AsciiEqualsIgnoreCase | src/main/java/com/agora/domain/feedback/application/FeedbackApplicationService.java:247 | on ASCII text `equalsIgnoreCase` is equality of the lower-cased strings |
| Ids.AsLong | src/main/java/com/agora/domain/feedback/common/IdGenerator.java:40-46 | the signed `long` with the same 64 bits as the id: in range, equal to the id or the id minus 2^64, non-negative iff the top bit is clear |
| Ids.DigitRoundTrip | src/main/java/com/agora/domain/feedback/common/IdGenerator.java:40-46 | each 5-bit value's Crockford digit parses back to that value |
| Ids.DigitValueRoundTrip | src/main/java/com/agora/domain/feedback/common/IdGenerator.java:40-46 | each canonical digit is the digit of its value |
| Ids.EncodeAllDigits | src/main/java/com/agora/domain/feedback/common/IdGenerator.java:40-46 | the base-32 text of a number consists of canonical digits only |
| Ids.DecodeEncode | src/main/java/com/agora/domain/feedback/common/IdGenerator.java:40-46 | decoding the n-digit text of x gives x |
| Ids.EncodeDecode | src/main/java/com/agora/domain/feedback/common/IdGenerator.java:40-46 | encoding the value of a digit string gives the string back |
| Ids.ToString | src/main/java/com/agora/domain/feedback/common/IdGenerator.java:40-42 | `toString(Long)`: the text of every id is 13 characters long |
| Ids.FromString | src/main/java/com/agora/domain/feedback/common/IdGenerator.java:44-46 | `toLong(String)`: only 13 canonical digits parse, to the value they denote; any other length is refused |
| Ids.FromStringToString | src/main/java/com/agora/domain/feedback/common/IdGenerator.java:40-46 | the public text of every id parses back to that id |
| Ids.ToStringFromString | src/main/java/com/agora/domain/feedback/common/IdGenerator.java:44-46 | whatever parses is the canonical text of the id it parses to |
| Ids.ToStringInjective | src/main/java/com/agora/domain/feedback/common/IdGenerator.java:40-42 | distinct ids have distinct texts |
| Sorting.Insert | src/main/java/com/agora/domain/feedback/application/FeedbackApplicationService.java:251-254 | inserting into a sorted sequence keeps it sorted and adds exactly that element |
| Sorting.SortBy | src/main/java/com/agora/domain/feedback/application/FeedbackApplicationService.java:251-254 | `ORDER BY` on a key: the result is sorted by the key and a permutation of the rows |
| Sorting.SortDirected | src/main/java/com/agora/domain/feedback/application/FeedbackApplicationService.java:247-254 | ascending or descending by key, as the direction says, and a permutation of the rows |
| Paging.NormalizePage | src/main/java/com/agora/domain/feedback/application/FeedbackApplicationService.java:243 | `max(1, p)`: at least 1, the request itself when it is at least 1 |
| Paging.NormalizeSize | src/main/java/com/agora/domain/feedback/application/FeedbackApplicationService.java:244 | `max(1, min(s, 100))`: within [1, 100], the request when inside, 100 above, 1 below |
| Paging.CeilDiv | src/main/java/com/agora/domain/feedback/application/FeedbackApplicationService.java:256 | `ceil(total / size)`: the least page count whose pages hold every item |
| Paging.CeilDivZero | src/main/java/com/agora/domain/feedback/application/FeedbackApplicationService.java:256 | the page count is 0 exactly when there are no items |
| Paging.OffsetSteps | src/main/java/com/agora/domain/feedback/application/FeedbackApplicationService.java:254 | `Page.of(page - 1, size)`: page 1 starts at item 0 and each page starts one page size after the one before |
| Paging.WrapInt | src/main/java/com/agora/domain/feedback/application/FeedbackApplicationService.java:254 | Java `int` arithmetic: the value reduced to 32-bit two's complement, unchanged when it fits |
| Paging.FirstResultAsWritten | src/main/java/com/agora/domain/feedback/application/FeedbackApplicationService.java:254 | the first result `index * size` of `Page.of(page - 1, size)` computed in `int`: always an `int` |
| Paging.FirstResultAgreesInRange | src/main/java/com/agora/domain/feedback/application/FeedbackApplicationService.java:254 | while `(page - 1) * size` fits in an `int` the query starts at the exact offset |
| Paging.FirstResultWraps | src/main/java/com/agora/domain/feedback/application/FeedbackApplicationService.java:254 | page 214748366 of 20 starts at item 4, and page 107374185 of 20 at a negative first result |
| Paging.PageSlice | src/main/java/com/agora/domain/feedback/application/FeedbackApplicationService.java:254 | the page holds at most `size` items, the items from the offset on in order, none past the end |
| Paging.PageSliceCovers | src/main/java/com/agora/domain/feedback/application/FeedbackApplicationService.java:254 | every item lies on page `j / size + 1` at slot `j % size` |
| Paging.PageNonEmptyIff | src/main/java/com/agora/domain/feedback/application/FeedbackApplicationService.java:254-256 | a page has items exactly when its number is at most the page count |
| VoteDirections.FromString | src/main/java/com/agora/domain/feedback/model/VoteDirection.java:34-44 | null or "" is refused with the fixed message; a parse result is one whose wire form equals the lower-cased input; any other text is refused with "Invalid vote direction: " + text |
| VoteDirections.FromStringIgnoresCase | src/main/java/com/agora/domain/feedback/model/VoteDirection.java:38-41 | every casing of "up", "down", "none" parses to UP, DOWN, NONE |
| VoteDirections.FromStringOnlyCasings | src/main/java/com/agora/domain/feedback/model/VoteDirection.java:38-42 | only casings of a wire form parse |
| VoteDirections.FromStringValue | src/main/java/com/agora/domain/feedback/model/VoteDirection.java:13-25 | `fromString(d.getValue()) == d` for every direction |
| VoteDirections.FromStringDoesNotTrim | src/main/java/com/agora/domain/feedback/model/VoteDirection.java:42 | " up" is refused: the input is not trimmed |
| VoteDirections.Value | src/main/java/com/agora/domain/feedback/model/VoteDirection.java:23-25 | the wire form is non-empty and already lower case |
| Roles.AdminExactly | src/main/java/com/agora/domain/user/model/Role.java:30-32 | a role is admin iff it is ADMIN; MODERATOR, USER and a null role are not |
| Roles.DisplayNamesDistinct | src/main/java/com/agora/domain/user/model/Role.java:13-25 | the display names tell the roles apart |
| Roles.IsAdmin | src/main/java/com/agora/domain/user/model/Role.java:30-32 | a role is admin exactly when it is the role displayed as "Admin" |
| Roles.DisplayName | src/main/java/com/agora/domain/user/model/Role.java:23-25 | each display name is a capitalised word: an upper-case letter, then lower-case letters |
| FeedbackEntities.Decrement | src/main/java/com/agora/domain/feedback/application/FeedbackApplicationService.java:437-441 | a removed vote takes one off, never going below zero |
| FeedbackEntities.NewFeedbackDefaults | src/main/java/com/agora/domain/feedback/model/entity/Feedback.java:58-64 | the constructor keeps title and description and leaves PENDING, not archived, no author, category, sentiment or tags, and the reconstructed vote and comment counters, which `Feedback.java` does not declare, at zero |
| FeedbackEntities.ArchiveOnlySetsFlag | src/main/java/com/agora/domain/feedback/model/entity/Feedback.java:72-74 | archive sets the flag, changes nothing else, and is idempotent |
| FeedbackEntities.ReopenStatusRule | src/main/java/com/agora/domain/feedback/model/entity/Feedback.java:76-80 | reopen maps COMPLETED to PENDING, keeps the other statuses, clears `archived` and changes nothing else |
| FeedbackEntities.ReopenIdempotent | src/main/java/com/agora/domain/feedback/model/entity/Feedback.java:76-80 | reopening twice equals reopening once |
| FeedbackEntities.ArchiveThenReopen | src/main/java/com/agora/domain/feedback/model/entity/Feedback.java:72-80 | archive then reopen equals reopen alone, and leaves the item active |
| FeedbackEntities.ReopenAsWrittenKeepsArchived | src/main/java/com/agora/domain/feedback/model/entity/Feedback.java:76-80 | as written, reopening an archived item leaves it archived, unlike the intended reopen |
| FeedbackEntities.SentimentLeavesLifecycle | src/main/java/com/agora/domain/feedback/model/entity/Feedback.java:82-84 | changeSentiment stores its argument, null included, and keeps status and `archived` |
| FeedbackEntities.VoteTouchesOnlyCounters | src/main/java/com/agora/domain/feedback/application/FeedbackApplicationService.java:434-442 | UP and DOWN add one to their own counter, NONE takes one from each with floor 0, nothing else moves |
| FeedbackEntities.UpvotedCount | src/main/java/com/agora/domain/feedback/application/FeedbackApplicationService.java:435 | n UP votes add exactly n upvotes and change nothing else |
| FeedbackEntities.UpvotesThenNone | src/main/java/com/agora/domain/feedback/application/FeedbackApplicationService.java:437-441 | after n >= 1 UP votes from zero, NONE leaves n - 1 upvotes, not zero |
| FeedbackEntities.NewFeedbackValid | src/main/java/com/agora/domain/feedback/model/entity/Feedback.java:22-28 | a non-blank title of 3-255 and description of 10-5000 UTF-16 units make the new entity satisfy every field constraint |
| FeedbackEntities.Feedback.Load | src/main/java/com/agora/domain/feedback/application/FeedbackApplicationService.java:425 | the managed entity holds exactly the stored row |
| FeedbackEntities.Feedback.constructor | src/main/java/com/agora/domain/feedback/model/entity/Feedback.java:58-64 | the new entity is the constructor's default row |
| FeedbackEntities.Feedback.PrePersist | src/main/java/com/agora/domain/feedback/model/entity/Feedback.java:66-69 | only the id is set, to the generated one |
| FeedbackEntities.Feedback.Archive | src/main/java/com/agora/domain/feedback/model/entity/Feedback.java:72-74 | the new state is the archived row |
| FeedbackEntities.Feedback.Reopen | src/main/java/com/agora/domain/feedback/model/entity/Feedback.java:76-80 | the new state is the reopened row (status rule and flag cleared) |
| FeedbackEntities.Feedback.ChangeSentiment | src/main/java/com/agora/domain/feedback/model/entity/Feedback.java:82-84 | the new state differs only in the sentiment |
| FeedbackEntities.Feedback.ApplyVote | src/main/java/com/agora/domain/feedback/application/FeedbackApplicationService.java:434-442 | the new state is the row after the vote of that direction |
| FeedbackEntities.Feedback.Upvote | src/main/java/com/agora/domain/feedback/application/FeedbackApplicationService.java:435 | upvotes go up by one, nothing else changes |
| FeedbackEntities.Feedback.Downvote | src/main/java/com/agora/domain/feedback/application/FeedbackApplicationService.java:436 | downvotes go up by one, nothing else changes |
| FeedbackEntities.Feedback.RemoveUpvote | src/main/java/com/agora/domain/feedback/application/FeedbackApplicationService.java:439 | upvotes go down by one with floor 0, nothing else changes |
| FeedbackEntities.Feedback.RemoveDownvote | src/main/java/com/agora/domain/feedback/application/FeedbackApplicationService.java:440 | downvotes go down by one with floor 0, nothing else changes |
| CommentEntities.NewCommentKeepsArguments | src/main/java/com/agora/domain/feedback/model/entity/Comment.java:51-55 | the constructor stores text, feedback and author exactly as given |
| CommentEntities.PersistResetsFlags | src/main/java/com/agora/domain/feedback/model/entity/Comment.java:57-64 | prePersist sets id and both timestamps and forces the developer flag off and upvotes to 0, keeping text, feedback and author |
| CommentEntities.TouchOnlyUpdatedAt | src/main/java/com/agora/domain/feedback/model/entity/Comment.java:66-69 | preUpdate changes only `updatedAt` |
| CommentEntities.CommentVoteCounter | src/main/java/com/agora/domain/feedback/application/FeedbackApplicationService.java:482-485 | UP then NONE or DOWN restores the count; a removal at zero stays at zero; only upvotes move |
| CommentEntities.Comment.Load | src/main/java/com/agora/domain/feedback/application/FeedbackApplicationService.java:468 | the managed comment holds exactly the stored row |
| CommentEntities.Comment.constructor | src/main/java/com/agora/domain/feedback/model/entity/Comment.java:51-55 | the new comment is the three-argument default row |
| CommentEntities.Comment.PrePersist | src/main/java/com/agora/domain/feedback/model/entity/Comment.java:57-64 | the new state is the persisted row |
| CommentEntities.Comment.PreUpdate | src/main/java/com/agora/domain/feedback/model/entity/Comment.java:66-69 | the new state is the touched row |
| CommentEntities.Comment.Upvote | src/main/java/com/agora/domain/feedback/application/FeedbackApplicationService.java:483 | upvotes go up by one, nothing else changes |
| CommentEntities.Comment.RemoveUpvote | src/main/java/com/agora/domain/feedback/application/FeedbackApplicationService.java:484 | upvotes go down by one with floor 0, nothing else changes |
| CommentEntities.Comment.ApplyVote | src/main/java/com/agora/domain/feedback/application/FeedbackApplicationService.java:482-485 | the new state is the row after the comment vote of that direction |
| Validation.TextViolations | src/main/java/com/agora/domain/feedback/application/dto/CreateFeedbackCommand.java:23-30 | `NotBlank` plus `Size`: no violation iff non-blank and within size (in UTF-16 units); at most two; the blank message iff blank, the size message iff out of size; every violation is on the given path |
| Validation.TitleViolations | src/main/java/com/agora/domain/feedback/application/dto/CreateFeedbackCommand.java:23-25 | no violation iff the title is valid; every violation is on `<parameter>.title` |
| Validation.DescriptionViolations | src/main/java/com/agora/domain/feedback/application/dto/CreateFeedbackCommand.java:28-30 | no violation iff the description is valid; every violation is on `<parameter>.description` |
| Validation.CreateViolations | src/main/java/com/agora/domain/feedback/application/FeedbackApplicationService.java:68 | a create command is valid iff title and description are; violations are on `createFeedback.command.title` or `createFeedback.command.description` |
| Validation.UpdateViolations | src/main/java/com/agora/domain/feedback/application/dto/UpdateFeedbackCommand.java:10-29 | an update command is valid iff title, description are valid and status is present; `updateFeedback.command.status` carries the status message iff the status is null; every path is under `updateFeedback.command.` |
| Validation.CommentViolations | src/main/java/com/agora/domain/feedback/model/dto/CreateCommentRequest.java:7-11 | a comment request is valid iff its text is non-blank and 1-5000 UTF-16 units long; violations are on `addComment.request.text` |
| Validation.TitleRule | src/main/java/com/agora/domain/feedback/application/dto/CreateFeedbackCommand.java:23-25 | a title is valid iff present, with a char above ' ', and 3-255 UTF-16 units long |
| Validation.SupplementaryTitleRule | src/main/java/com/agora/domain/feedback/application/dto/CreateFeedbackCommand.java:24 | a title of emoji alone is valid from 2 characters (4 units) to 127 (254 units) |
| Validation.PropertyPath | src/main/java/com/agora/domain/feedback/api/exception/ValidationExceptionMapper.java:18 | `getPropertyPath().toString()` of a constraint on a parameter's property: the parameter path (method name, dot, parameter name), a dot, then the property |
| Validation.CreateOptionalFieldsUnchecked | src/main/java/com/agora/domain/feedback/application/dto/CreateFeedbackCommand.java:32-42 | category, author, sentiment and tags never make a create command invalid |
| Validation.UpdateOptionalFieldsUnchecked | src/main/java/com/agora/domain/feedback/application/dto/UpdateFeedbackCommand.java:22-28 | the same for an update command |
| Validation.CreateAndUpdateAgree | src/main/java/com/agora/domain/feedback/application/dto/UpdateFeedbackCommand.java:11-17 | create and update apply the same title and description rules |
| Validation.ShortInputsRejected | src/main/java/com/agora/domain/feedback/application/dto/CreateFeedbackCommand.java:23-30 | an empty title or the description "Short" is rejected |
| Validation.BlankCommentRejected | src/main/java/com/agora/domain/feedback/model/dto/CreateCommentRequest.java:8-9 | whitespace-only text is rejected as blank, empty text also as too short |
| Validation.CapViolations | src/main/java/com/agora/domain/feedback/model/entity/Feedback.java:42-46 | `Size(max)` on an optional column: no violation iff absent or at most `max` UTF-16 units; any violation is the given path and message |
| Validation.FeedbackEntityViolations | src/main/java/com/agora/domain/feedback/model/entity/Feedback.java:21-46 | the violations Hibernate Validator finds on a Feedback row before it is flushed: none iff the row meets the entity's constraints; `sentiment` with "Sentiment must not exceed 50 characters" iff the sentiment is over 50 units; `tags` with "Tags must not exceed 500 characters" iff the tags are over 500 units |
| Validation.ValidCreateMakesValidFeedback | src/main/java/com/agora/domain/feedback/model/entity/Feedback.java:22-28 | a valid create command builds an entity that meets the entity's own constraints |
| Errors.Of | src/main/java/com/agora/domain/feedback/api/exception/ErrorResponse.java:30-32 | `of(status, message)` keeps both and has no field errors |
| Errors.OfErrors | src/main/java/com/agora/domain/feedback/api/exception/ErrorResponse.java:42-44 | `of(status, message, errors)` keeps the list exactly |
| Errors.Message | src/main/java/com/agora/domain/feedback/exception/FeedbackNotFoundException.java:6-11 | each failure's message: "Feedback with id X not found", "Category with id N not found", "User with id N not found", the reason of an authorization failure |
| Errors.MapDomainException | src/main/java/com/agora/domain/feedback/api/exception/DomainExceptionMapper.java:13-24 | the HTTP status equals the body status and the body carries the exception message and no field errors |
| Errors.MapUserException | src/main/java/com/agora/domain/feedback/api/exception/UserExceptionMapper.java:12-22 | the HTTP status equals the body status and the body carries the exception message |
| Errors.FieldErrors | src/main/java/com/agora/domain/feedback/api/exception/ValidationExceptionMapper.java:16-21 | one field error per violation, in order, with its path and message |
| Errors.MapConstraintViolations | src/main/java/com/agora/domain/feedback/api/exception/ValidationExceptionMapper.java:14-30 | 400 in status and body, "Validation failed", and exactly the field errors of the violations (an empty list for none) |
| Errors.StatusOf | src/main/java/com/agora/domain/feedback/api/exception/DomainExceptionMapper.java:13-24 | a failure gets a status iff a mapper handles it; an `IllegalArgumentException` and a row rejected when the transaction commits get none |
| Errors.NotFoundExactly | src/main/java/com/agora/domain/feedback/api/exception/DomainExceptionMapper.java:17-20 | a mapped failure is 404 iff it is a missing feedback, category or user |
| Errors.UnauthorizedIsServerError | src/main/java/com/agora/domain/feedback/api/exception/DomainExceptionMapper.java:15 | an authorization failure answers 500 with its reason |
| Errors.MapperStatusRule | src/main/java/com/agora/domain/feedback/api/exception/UserExceptionMapper.java:14-18 | each mapper gives 404 for its not-found failures and 500 for the rest, keeping the message |
| Errors.ValidationMessageFixed | src/main/java/com/agora/domain/feedback/api/exception/ValidationExceptionMapper.java:24-25 | a validation failure is 400 "Validation failed" whatever its violations |
| Users.FindById | src/main/java/com/agora/domain/feedback/application/FeedbackApplicationService.java:83 | `findById`: a found row is in the table with that id; none iff no row has the id |
| Users.IndexOfDiscordId | src/main/java/com/agora/domain/user/model/repository/UserRepository.java:11-13 | `findByDiscordId`: the first row with that Discord id; a null Discord id matches nothing |
| Users.FindByIdUnique | src/main/java/com/agora/domain/feedback/application/FeedbackApplicationService.java:173 | with unique ids, lookup by a row's id finds that row |
| Users.UserRepository.constructor | src/main/java/com/agora/domain/user/model/repository/UserRepository.java:10 | the table holds the given rows |
| Users.UserRepository.PersistAt | src/main/java/com/agora/domain/auth/DiscordAuthService.java:95 | a loaded user is written back in place |
| Users.UserRepository.PersistNew | src/main/java/com/agora/domain/auth/DiscordAuthService.java:109 | a new user is appended |
| Repositories.FeedbackRepository.constructor | src/main/java/com/agora/domain/feedback/model/repository/FeedbackRepository.java:19 | the table holds the given rows in the given order |
| Repositories.FeedbackRepository.Persist | src/main/java/com/agora/domain/feedback/application/FeedbackApplicationService.java:98 | persist inserts a new row at the end or writes a known row back in place |
| Repositories.FeedbackRepository.DeleteById | src/main/java/com/agora/domain/feedback/application/FeedbackApplicationService.java:290 | deleteById removes exactly that row and its place in the order |
| Repositories.CommentRepository.constructor | src/main/java/com/agora/domain/feedback/model/repository/CommentRepository.java:22 | the table holds the given rows in the given order |
| Repositories.CommentRepository.Persist | src/main/java/com/agora/domain/feedback/application/FeedbackApplicationService.java:351 | persist inserts a new comment at the end or writes a known one back in place |
| FeedbackSpec.Fail | src/main/java/com/agora/domain/feedback/application/FeedbackApplicationService.java:67 | a failed transaction leaves the tables as they were |
| FeedbackSpec.ResponseIdsParse | src/main/java/com/agora/domain/feedback/application/FeedbackApplicationService.java:359-408 | the id texts in a response parse back to the row's id and the comment author's id |
| FeedbackSpec.ToResponse | src/main/java/com/agora/domain/feedback/application/FeedbackApplicationService.java:359-372 | the response id is 13 characters; a category name only for a stored category and an author name only for a stored author |
| FeedbackSpec.ToCommentResponse | src/main/java/com/agora/domain/feedback/application/FeedbackApplicationService.java:394-408 | comment and author ids are 13 characters; an author name only for a stored author |
| FeedbackSpec.MayUpdate | src/main/java/com/agora/domain/feedback/application/FeedbackApplicationService.java:178-183 | the author or an ADMIN may update; unattributed feedback is admin-only and a MODERATOR has no extra right |
| FeedbackSpec.InsertFeedbackKeepsWellFormed | src/main/java/com/agora/domain/feedback/application/FeedbackApplicationService.java:98 | appending a row under a fresh key keeps every table keyed and ordered |
| FeedbackSpec.PutFeedbackKeepsWellFormed | src/main/java/com/agora/domain/feedback/application/FeedbackApplicationService.java:146 | writing a row back keeps the tables well formed |
| FeedbackSpec.InsertCommentKeepsWellFormed | src/main/java/com/agora/domain/feedback/application/FeedbackApplicationService.java:351 | appending a comment under a fresh key keeps the tables well formed |
| FeedbackSpec.PutCommentKeepsWellFormed | src/main/java/com/agora/domain/feedback/application/FeedbackApplicationService.java:487 | writing a comment back keeps the tables well formed |
| FeedbackSpec.CreateFeedback | src/main/java/com/agora/domain/feedback/application/FeedbackApplicationService.java:67-100 | the tables stay well formed; a failure changes nothing |
| FeedbackSpec.UpdateLookupError | src/main/java/com/agora/domain/feedback/application/FeedbackApplicationService.java:123-141 | no lookup error iff a present category id and a present author id both resolve |
| FeedbackSpec.ApplyUpdate | src/main/java/com/agora/domain/feedback/application/FeedbackApplicationService.java:185-213 | the tables stay well formed; a failure (a missing category or author, or an edited row the entity's constraints reject at commit) changes nothing; a success writes exactly the edited row, which meets the entity's constraints |
| FeedbackSpec.UpdateFeedback | src/main/java/com/agora/domain/feedback/application/FeedbackApplicationService.java:112-148 | the tables stay well formed; a failure, including the entity's rejection at commit, changes nothing |
| FeedbackSpec.UpdateFeedbackAsUser | src/main/java/com/agora/domain/feedback/application/FeedbackApplicationService.java:165-214 | the tables stay well formed; a failure, including the entity's rejection at commit, changes nothing |
| FeedbackSpec.GetFeedback | src/main/java/com/agora/domain/feedback/application/FeedbackApplicationService.java:223-230 | succeeds iff the row exists, with its response; otherwise FeedbackNotFound of the id text |
| FeedbackSpec.Without | src/main/java/com/agora/domain/feedback/application/FeedbackApplicationService.java:290 | the order without one id: exactly the other ids, still duplicate-free, one shorter when present |
| FeedbackSpec.DeleteFeedback | src/main/java/com/agora/domain/feedback/application/FeedbackApplicationService.java:284-291 | the tables stay well formed; a failure changes nothing |
| FeedbackSpec.ArchiveFeedback | src/main/java/com/agora/domain/feedback/application/FeedbackApplicationService.java:300-309 | the tables stay well formed; a failure changes nothing |
| FeedbackSpec.ReopenFeedback | src/main/java/com/agora/domain/feedback/application/FeedbackApplicationService.java:318-327 | the tables stay well formed; a failure changes nothing |
| FeedbackSpec.Rows | src/main/java/com/agora/domain/feedback/application/FeedbackApplicationService.java:254 | the rows listed in an order, each with its key |
| FeedbackSpec.SortedRows | src/main/java/com/agora/domain/feedback/application/FeedbackApplicationService.java:247-254 | every row once, ascending by creation time iff "oldest" in any case was asked for, descending otherwise |
| FeedbackSpec.ListFeedback | src/main/java/com/agora/domain/feedback/application/FeedbackApplicationService.java:240-263 | page and size clamped; at most `size` items, each the response of the sorted row at offset + i; total and page count of the whole table |
| FeedbackSpec.Responses | src/main/java/com/agora/domain/feedback/application/FeedbackApplicationService.java:258-260 | one response per row, in row order, each the response of its row |
| FeedbackSpec.CommentsOf | src/main/java/com/agora/domain/feedback/model/repository/CommentRepository.java:29-31 | `findByFeedbackId`: exactly the comment rows referencing the feedback |
| FeedbackSpec.GetComments | src/main/java/com/agora/domain/feedback/application/FeedbackApplicationService.java:381-392 | fails iff the feedback is missing, with FeedbackNotFound of its id text |
| FeedbackSpec.AddComment | src/main/java/com/agora/domain/feedback/application/FeedbackApplicationService.java:338-357 | the tables stay well formed; a failure changes nothing |
| FeedbackSpec.CommentAddedKeepsWellFormed | src/main/java/com/agora/domain/feedback/application/FeedbackApplicationService.java:351-354 | the new comment row plus the counter bump keep the tables well formed |
| FeedbackSpec.CommentAddedTables | src/main/java/com/agora/domain/feedback/application/FeedbackApplicationService.java:351-354 | after a comment is added the comment table holds one more row, its order one more id, the feedback's counter is one higher and nothing else changes |
| FeedbackSpec.VoteFeedback | src/main/java/com/agora/domain/feedback/application/FeedbackApplicationService.java:423-446 | the tables stay well formed; a failure changes nothing |
| FeedbackSpec.StoredAfterVote | src/main/java/com/agora/domain/feedback/model/entity/Comment.java:66-69 | the stored comment has the voted count, and a new `updatedAt` only when the count moved |
| FeedbackSpec.VoteComment | src/main/java/com/agora/domain/feedback/application/FeedbackApplicationService.java:461-489 | the tables stay well formed; a failure changes nothing |
| FeedbackProperties.CreateFeedbackOkIff | src/main/java/com/agora/domain/feedback/application/FeedbackApplicationService.java:68-87 | create succeeds iff the command is valid, the category (if given) exists and the caller's id parses to a stored user |
| FeedbackProperties.CreateFeedbackRow | src/main/java/com/agora/domain/feedback/application/FeedbackApplicationService.java:69-98 | the new row is PENDING, active, without votes or comments, stamped now, with the command's title, description and category, the caller as author, no sentiment or tags; appended, nothing else changes |
| FeedbackProperties.CreateFeedbackCategoryFirst | src/main/java/com/agora/domain/feedback/application/FeedbackApplicationService.java:74-78 | an unknown category is reported before the caller is looked at |
| FeedbackProperties.UpdateFeedbackOkIff | src/main/java/com/agora/domain/feedback/application/FeedbackApplicationService.java:113-144 | an update succeeds iff the command is valid, the row exists, both referenced rows exist, and the sentiment and tags fit the entity's 50- and 500-unit caps |
| FeedbackProperties.UpdateRejectsOversizedFields | src/main/java/com/agora/domain/feedback/model/entity/Feedback.java:42-46 | a valid command whose sentiment is over 50 or tags over 500 UTF-16 units fails once the lookups pass: nothing is written, the error lists the entity's message for each oversized column, and no mapper gives it a status |
| FeedbackProperties.UpdateFeedbackOverwrites | src/main/java/com/agora/domain/feedback/application/FeedbackApplicationService.java:119-146 | every editable column takes the command's value (a null relation clears it); counters, flag, creation time and every other row stay |
| FeedbackProperties.UpdateAsUserPolicy | src/main/java/com/agora/domain/feedback/application/FeedbackApplicationService.java:178-183 | permitted iff the caller is the author or an ADMIN; a permitted update is the plain update, a refused one fails with the fixed message and changes nothing |
| FeedbackProperties.UpdateAsUnknownUser | src/main/java/com/agora/domain/feedback/application/FeedbackApplicationService.java:173-176 | a caller missing from the user table is refused with UserNotFound |
| FeedbackProperties.DeleteRemovesRow | src/main/java/com/agora/domain/feedback/application/FeedbackApplicationService.java:284-291 | delete succeeds iff the row exists, removing exactly it (its comments stay); otherwise FeedbackNotFound and no change |
| FeedbackProperties.ArchiveIdempotent | src/main/java/com/agora/domain/feedback/application/FeedbackApplicationService.java:300-309 | archive sets the flag and nothing else, and archiving again gives the same outcome |
| FeedbackProperties.ReopenIdempotent | src/main/java/com/agora/domain/feedback/application/FeedbackApplicationService.java:318-327 | reopen clears the flag, applies the status rule, and reopening again gives the same outcome |
| FeedbackProperties.ListPageNonEmptyIff | src/main/java/com/agora/domain/feedback/application/FeedbackApplicationService.java:254-256 | a page has items iff its clamped number is at most the reported page count |
| FeedbackProperties.SliceKeepsOrder | src/main/java/com/agora/domain/feedback/application/FeedbackApplicationService.java:254 | a page cut from rows ordered by creation time (ascending or descending) keeps that order |
| FeedbackProperties.ResponsesKeepOrder | src/main/java/com/agora/domain/feedback/application/FeedbackApplicationService.java:258-260 | responses built row by row keep the rows' order by creation time |
| FeedbackProperties.ListOrdered | src/main/java/com/agora/domain/feedback/application/FeedbackApplicationService.java:247-254 | items run oldest first iff "oldest" was asked for, newest first otherwise |
| FeedbackProperties.ListDefaultsToNewest | src/main/java/com/agora/domain/feedback/application/FeedbackApplicationService.java:247-249 | no order, or "newest", lists newest first |
| FeedbackProperties.OldestFirstCasings | src/main/java/com/agora/domain/feedback/application/FeedbackApplicationService.java:247 | the listing is oldest first exactly for six-letter casings of "oldest", the long s (U+017F) included for the s |
| FeedbackProperties.SortedContainsRow | src/main/java/com/agora/domain/feedback/application/FeedbackApplicationService.java:254 | every row has a place in the sorted listing |
| FeedbackProperties.ListedAt | src/main/java/com/agora/domain/feedback/application/FeedbackApplicationService.java:254-260 | the row at sorted position j is item j - offset of the page covering j |
| FeedbackProperties.ListCoversEveryRow | src/main/java/com/agora/domain/feedback/application/FeedbackApplicationService.java:254-256 | every row is listed on some page within the page count |
| FeedbackProperties.SortedPosition | src/main/java/com/agora/domain/feedback/application/FeedbackApplicationService.java:254 | a listed row sits at its page's offset plus its slot in the sorted table |
| FeedbackProperties.PositionInPage | src/main/java/com/agora/domain/feedback/application/FeedbackApplicationService.java:254-260 | a response found on a page is the response of a row inside that page's window of the sorted table |
| FeedbackProperties.SortedRowIsStored | src/main/java/com/agora/domain/feedback/application/FeedbackApplicationService.java:251-254 | every row of the sorted listing is a stored row under its own id |
| FeedbackProperties.ResponseNamesRow | src/main/java/com/agora/domain/feedback/application/FeedbackApplicationService.java:359-371 | a stored row whose response carries the id text of a feedback is that feedback's row |
| FeedbackProperties.SortedRowsOnce | src/main/java/com/agora/domain/feedback/application/FeedbackApplicationService.java:251-254 | the sorted listing holds each row at one position only |
| FeedbackProperties.ListRowOnOnePage | src/main/java/com/agora/domain/feedback/application/FeedbackApplicationService.java:254 | no row is listed on two different pages |
| FeedbackProperties.GetCommentsExactly | src/main/java/com/agora/domain/feedback/application/FeedbackApplicationService.java:388-391 | the listed comments are exactly the responses of the comment rows referencing the feedback |
| FeedbackProperties.AddCommentOkIff | src/main/java/com/agora/domain/feedback/application/FeedbackApplicationService.java:339-351 | adding succeeds iff the text is valid, the feedback exists and the fixed author's row exists |
| FeedbackProperties.AddCommentNewRow | src/main/java/com/agora/domain/feedback/application/FeedbackApplicationService.java:345-356 | the new comment has the request's text, the fixed author, no upvotes, no developer flag, both timestamps now, and is appended; other comments stay |
| FeedbackProperties.AddCommentCountsIt | src/main/java/com/agora/domain/feedback/application/FeedbackApplicationService.java:353-354 | the feedback's comment count rises by one and no other feedback row changes |
| FeedbackProperties.AddCommentLookupOrder | src/main/java/com/agora/domain/feedback/application/FeedbackApplicationService.java:340-348 | a missing feedback is reported first; a missing author is reported under id 1, not the id looked up |
| FeedbackProperties.VoteFeedbackLookupFirst | src/main/java/com/agora/domain/feedback/application/FeedbackApplicationService.java:425-431 | an unknown id wins over a bad direction, and nothing changes |
| FeedbackProperties.VoteFeedbackBadDirection | src/main/java/com/agora/domain/feedback/application/FeedbackApplicationService.java:431 | a direction that does not parse fails with the parser's message and nothing changes |
| FeedbackProperties.VoteFeedbackEffects | src/main/java/com/agora/domain/feedback/application/FeedbackApplicationService.java:434-445 | only the voted row's counters move (UP, DOWN by one; NONE one off each, floor 0); the response shows the new upvotes |
| FeedbackProperties.VoteCommentOwnership | src/main/java/com/agora/domain/feedback/application/FeedbackApplicationService.java:473-476 | a comment of another feedback is refused and nothing changes |
| FeedbackProperties.VoteCommentEffects | src/main/java/com/agora/domain/feedback/application/FeedbackApplicationService.java:481-488 | only that comment's upvotes move (UP +1, DOWN and NONE -1 with floor 0) and its update time when the count moved; the response shows the new count and the old update time |
| FeedbackProperties.CountIgnoresUnlisted | src/main/java/com/agora/domain/feedback/application/FeedbackApplicationService.java:353 | rows outside the order do not count |
| FeedbackProperties.CountKeepsSameFeedback | src/main/java/com/agora/domain/feedback/application/FeedbackApplicationService.java:487 | rewriting a comment of the same feedback keeps every count |
| FeedbackProperties.CountAppend | src/main/java/com/agora/domain/feedback/application/FeedbackApplicationService.java:351 | appending a comment counts it once, for its own feedback |
| FeedbackProperties.CountUnreferenced | src/main/java/com/agora/domain/feedback/application/FeedbackApplicationService.java:98 | a feedback no comment references counts zero |
| FeedbackProperties.CommentAddedKeepsCounts | src/main/java/com/agora/domain/feedback/application/FeedbackApplicationService.java:350-354 | after a comment is added every feedback's counter equals its number of comment rows |
| FeedbackProperties.AddCommentKeepsCounts | src/main/java/com/agora/domain/feedback/application/FeedbackApplicationService.java:338-357 | addComment keeps every counter equal to the number of comment rows |
| FeedbackProperties.VoteCommentKeepsCounts | src/main/java/com/agora/domain/feedback/application/FeedbackApplicationService.java:461-489 | voteComment keeps the counters right |
| FeedbackProperties.CreateFeedbackKeepsCounts | src/main/java/com/agora/domain/feedback/application/FeedbackApplicationService.java:67-100 | a new feedback starts with a correct (zero) counter |
| FeedbackProperties.InsertFeedbackKeepsCounts | src/main/java/com/agora/domain/feedback/application/FeedbackApplicationService.java:98 | inserting a feedback with a zero counter that no comment references keeps every counter equal to its number of comments |
| FeedbackProperties.PutFeedbackKeepsCounts | src/main/java/com/agora/domain/feedback/application/FeedbackApplicationService.java:146 | writing back a row with the same counter keeps the counters right |
| FeedbackProperties.UpdateKeepsCounts | src/main/java/com/agora/domain/feedback/application/FeedbackApplicationService.java:112-148 | updateFeedback keeps the counters right |
| FeedbackProperties.UpdateAsUserKeepsCounts | src/main/java/com/agora/domain/feedback/application/FeedbackApplicationService.java:165-214 | the authorised update keeps the counters right |
| FeedbackProperties.ArchiveKeepsCounts | src/main/java/com/agora/domain/feedback/application/FeedbackApplicationService.java:300-309 | archive keeps the counters right |
| FeedbackProperties.ReopenKeepsCounts | src/main/java/com/agora/domain/feedback/application/FeedbackApplicationService.java:318-327 | reopen keeps the counters right |
| FeedbackProperties.VoteFeedbackKeepsCounts | src/main/java/com/agora/domain/feedback/application/FeedbackApplicationService.java:423-446 | voteFeedback keeps the counters right |
| FeedbackProperties.DeleteKeepsCounts | src/main/java/com/agora/domain/feedback/application/FeedbackApplicationService.java:284-291 | delete keeps the other feedbacks' counters right |
| FeedbackProperties.PutFeedbackKeepsRowsValid | src/main/java/com/agora/domain/feedback/model/entity/Feedback.java:21-46 | writing a row that meets the entity's constraints keeps every stored row valid |
| FeedbackProperties.InsertFeedbackKeepsRowsValid | src/main/java/com/agora/domain/feedback/application/FeedbackApplicationService.java:98 | inserting a row that meets the entity's constraints keeps every stored row valid |
| FeedbackProperties.PutSameColumnsKeepsRowsValid | src/main/java/com/agora/domain/feedback/model/entity/Feedback.java:21-46 | replacing a row by one with the same title, description, sentiment and tags keeps every stored row valid |
| FeedbackProperties.CreateKeepsRowsValid | src/main/java/com/agora/domain/feedback/application/FeedbackApplicationService.java:67-100 | createFeedback keeps every stored row within the entity's constraints |
| FeedbackProperties.UpdateKeepsRowsValid | src/main/java/com/agora/domain/feedback/application/FeedbackApplicationService.java:112-148 | updateFeedback keeps every stored row within the entity's constraints |
| FeedbackProperties.UpdateAsUserKeepsRowsValid | src/main/java/com/agora/domain/feedback/application/FeedbackApplicationService.java:165-214 | the authorised update keeps every stored row within the entity's constraints |
| FeedbackProperties.ArchiveKeepsRowsValid | src/main/java/com/agora/domain/feedback/application/FeedbackApplicationService.java:300-309 | archive keeps every stored row within the entity's constraints |
| FeedbackProperties.ReopenKeepsRowsValid | src/main/java/com/agora/domain/feedback/application/FeedbackApplicationService.java:318-327 | reopen keeps every stored row within the entity's constraints |
| FeedbackProperties.VoteFeedbackKeepsRowsValid | src/main/java/com/agora/domain/feedback/application/FeedbackApplicationService.java:423-446 | voteFeedback keeps every stored row within the entity's constraints |
| FeedbackProperties.CommentAddedKeepsRowsValid | src/main/java/com/agora/domain/feedback/application/FeedbackApplicationService.java:350-354 | the tables after a comment is added keep every feedback row within the entity's constraints |
| FeedbackProperties.AddCommentKeepsRowsValid | src/main/java/com/agora/domain/feedback/application/FeedbackApplicationService.java:338-357 | addComment keeps every stored row within the entity's constraints |
| FeedbackProperties.DeleteKeepsRowsValid | src/main/java/com/agora/domain/feedback/application/FeedbackApplicationService.java:284-291 | delete keeps every remaining row within the entity's constraints |
| FeedbackProperties.VoteCommentKeepsRowsValid | src/main/java/com/agora/domain/feedback/application/FeedbackApplicationService.java:461-489 | voteComment keeps every feedback row within the entity's constraints |
| FeedbackServices.ApplyUpdateSucceeds | src/main/java/com/agora/domain/feedback/application/FeedbackApplicationService.java:185-213 | when the lookups pass and the edited row meets the entity's constraints, the shared update step writes that row back |
| FeedbackServices.ArchiveSucceeds | src/main/java/com/agora/domain/feedback/application/FeedbackApplicationService.java:306-308 | the successful archive writes the archived row back |
| FeedbackServices.ReopenSucceeds | src/main/java/com/agora/domain/feedback/application/FeedbackApplicationService.java:324-326 | the successful reopen writes the reopened row back |
| FeedbackServices.VoteFeedbackSucceeds | src/main/java/com/agora/domain/feedback/application/FeedbackApplicationService.java:434-445 | the successful vote writes the voted row back |
| FeedbackServices.CreateFeedbackSucceeds | src/main/java/com/agora/domain/feedback/application/FeedbackApplicationService.java:69-99 | the successful create appends the built row |
| FeedbackServices.VoteCommentSucceeds | src/main/java/com/agora/domain/feedback/application/FeedbackApplicationService.java:482-488 | the successful comment vote writes the stored comment back |
| FeedbackServices.AddCommentSucceeds | src/main/java/com/agora/domain/feedback/application/FeedbackApplicationService.java:350-356 | the successful add appends the comment and bumps the count |
| FeedbackServices.FeedbackApplicationService.constructor | src/main/java/com/agora/domain/feedback/application/FeedbackApplicationService.java:48-57 | the service's tables are the given ones |
| FeedbackServices.FeedbackApplicationService.CreateFeedback | src/main/java/com/agora/domain/feedback/application/FeedbackApplicationService.java:67-100 | new tables and result are those of `FeedbackSpec.CreateFeedback` |
| FeedbackServices.FeedbackApplicationService.ApplyUpdate | src/main/java/com/agora/domain/feedback/application/FeedbackApplicationService.java:185-213 | new tables and result are those of `FeedbackSpec.ApplyUpdate`: an edited row the entity's constraints reject is not written |
| FeedbackServices.FeedbackApplicationService.UpdateFeedback | src/main/java/com/agora/domain/feedback/application/FeedbackApplicationService.java:112-148 | new tables and result are those of `FeedbackSpec.UpdateFeedback` |
| FeedbackServices.FeedbackApplicationService.UpdateFeedbackAsUser | src/main/java/com/agora/domain/feedback/application/FeedbackApplicationService.java:165-214 | new tables and result are those of `FeedbackSpec.UpdateFeedbackAsUser` |
| FeedbackServices.FeedbackApplicationService.DeleteFeedback | src/main/java/com/agora/domain/feedback/application/FeedbackApplicationService.java:284-291 | new tables and result are those of `FeedbackSpec.DeleteFeedback` |
| FeedbackServices.FeedbackApplicationService.ArchiveFeedback | src/main/java/com/agora/domain/feedback/application/FeedbackApplicationService.java:300-309 | new tables and result are those of `FeedbackSpec.ArchiveFeedback` |
| FeedbackServices.FeedbackApplicationService.ReopenFeedback | src/main/java/com/agora/domain/feedback/application/FeedbackApplicationService.java:318-327 | new tables and result are those of `FeedbackSpec.ReopenFeedback` |
| FeedbackServices.FeedbackApplicationService.AddComment | src/main/java/com/agora/domain/feedback/application/FeedbackApplicationService.java:338-357 | new tables and result are those of `FeedbackSpec.AddComment` |
| FeedbackServices.FeedbackApplicationService.SaveComment | src/main/java/com/agora/domain/feedback/application/FeedbackApplicationService.java:350-356 | the comment row is appended and the feedback counts it; the response is the new comment's |
| FeedbackServices.FeedbackApplicationService.VoteFeedback | src/main/java/com/agora/domain/feedback/application/FeedbackApplicationService.java:423-446 | new tables and result are those of `FeedbackSpec.VoteFeedback` |
| FeedbackServices.FeedbackApplicationService.VoteComment | src/main/java/com/agora/domain/feedback/application/FeedbackApplicationService.java:461-489 | new tables and result are those of `FeedbackSpec.VoteComment` |
| FeedbackResources.ListAll | src/main/java/com/agora/domain/feedback/resource/FeedbackResource.java:70-74 | the listing is served with a page of at least 1 and a size in [1, 20], never more than 20 items |
| FeedbackResources.Create | src/main/java/com/agora/domain/feedback/resource/FeedbackResource.java:130-131 | the service's create with the token subject as the caller; the tables stay well formed |
| FeedbackResources.Update | src/main/java/com/agora/domain/feedback/resource/FeedbackResource.java:171-183 | the tables stay well formed and a failure, including the entity's rejection at commit, changes nothing |
| FeedbackResources.ListAllParameters | src/main/java/com/agora/domain/feedback/resource/FeedbackResource.java:70-72 | size 10 when absent, the request in [1, 20], 20 above, 1 below; page 1 when absent or below 1 |
| FeedbackResources.ListAllNewestFirst | src/main/java/com/agora/domain/feedback/resource/FeedbackResource.java:72 | without `sortBy`, and with anything but "oldest", items run newest first |
| FeedbackResources.UpdateRequiresSubject | src/main/java/com/agora/domain/feedback/resource/FeedbackResource.java:171-173 | no subject: refused with the fixed message before the service, nothing changes, and it maps to 500 |
| FeedbackResources.UpdateDelegates | src/main/java/com/agora/domain/feedback/resource/FeedbackResource.java:176-182 | with parseable subject and id, the endpoint is the authorised update by that caller |
| FeedbackResources.UpdateSubjectParsedFirst | src/main/java/com/agora/domain/feedback/resource/FeedbackResource.java:176 | a malformed subject is reported before the path id |
| FeedbackResources.CreateAuthorIsCaller | src/main/java/com/agora/domain/feedback/resource/FeedbackResource.java:130-131 | a created feedback's author id is the token's subject |
| FeedbackResources.ListPage | src/main/java/com/agora/domain/feedback/resource/FeedbackResource.java:70 | page 1 when absent, the request unchanged otherwise |
| FeedbackResources.ListPageSize | src/main/java/com/agora/domain/feedback/resource/FeedbackResource.java:71 | never above 20; 10 when absent; the request when at most 20 |
| FeedbackResources.ListSortOrder | src/main/java/com/agora/domain/feedback/resource/FeedbackResource.java:72 | the request when present; the default is not a casing of "oldest" |
| Leaderboard.Ranking | src/main/java/com/agora/domain/user/model/repository/UserRepository.java:32-36 | `ORDER BY reputationScore DESC`: every user once, highest first |
| Leaderboard.FindTopByReputation | src/main/java/com/agora/domain/user/model/repository/UserRepository.java:32-36 | the first `limit` users of the ranking (all when fewer) |
| Leaderboard.ToEntry | src/main/java/com/agora/domain/user/application/UserApplicationService.java:77-85 | the entry's id text parses back to the user's id |
| Leaderboard.Entries | src/main/java/com/agora/domain/user/application/UserApplicationService.java:48-50 | one entry per user, in order |
| Leaderboard.GetLeaderboard | src/main/java/com/agora/domain/user/application/UserApplicationService.java:34-57 | page and size clamped, at most `size` entries, the total and page count of the whole table |
| Leaderboard.GetTopUsers | src/main/java/com/agora/domain/user/application/UserApplicationService.java:66-72 | `min(clamped limit, users)` entries, never more than 100 |
| Leaderboard.LeaderboardOkIff | src/main/java/com/agora/domain/user/application/UserApplicationService.java:43-45 | a page fails iff it starts past the last user, with the `IllegalArgumentException` of `subList`, FromIndexAfterToIndex(offset, user count) |
| Leaderboard.LeaderboardIsPageOfRanking | src/main/java/com/agora/domain/user/application/UserApplicationService.java:40-50 | the entries are the page of the whole ranking |
| Leaderboard.PrefixWindowIsPage | src/main/java/com/agora/domain/user/application/UserApplicationService.java:40-45 | the first offset + size ranked users read from the offset on are the page of the whole ranking |
| Leaderboard.LeaderboardOrdered | src/main/java/com/agora/domain/user/application/UserApplicationService.java:40-50 | reputation never rises down a page |
| Leaderboard.PageOfRankingOrdered | src/main/java/com/agora/domain/user/application/UserApplicationService.java:43-50 | a page of a descending ranking is descending |
| Leaderboard.LeaderboardPageNonEmptyIff | src/main/java/com/agora/domain/user/application/UserApplicationService.java:43-54 | a served page has entries iff its number is at most the page count |
| Leaderboard.EmptyLeaderboard | src/main/java/com/agora/domain/user/application/UserApplicationService.java:43-54 | with no users only page 1 is served, empty, with 0 pages |
| Leaderboard.TopUsersIsFirstPage | src/main/java/com/agora/domain/user/application/UserApplicationService.java:66-72 | the top list is the first leaderboard page of the same clamped size |
| Leaderboard.TopUsersOutrankTheRest | src/main/java/com/agora/domain/user/application/UserApplicationService.java:66-72 | every listed user scores at least as high as every user left out |
| UserResources.GetLeaderboardEndpoint | src/main/java/com/agora/domain/user/resource/UserResource.java:64-67 | the page served is at least 1 and its size in [1, 100] |
| UserResources.GetTopUsersEndpoint | src/main/java/com/agora/domain/user/resource/UserResource.java:95-96 | at most 100 entries |
| UserResources.LeaderboardParameters | src/main/java/com/agora/domain/user/resource/UserResource.java:64-65 | size 10 when absent, the request in [1, 100], 100 above, 1 below; page 1 when absent or below 1 |
| UserResources.TopUsersDefault | src/main/java/com/agora/domain/user/resource/UserResource.java:95 | without `limit` the top ten are listed |
| UserResources.TopUsersLimitClamped | src/main/java/com/agora/domain/user/resource/UserResource.java:95-96 | a present limit reaches the service unchanged and is clamped there to [1, 100] |
| UserResources.PageOrDefault | src/main/java/com/agora/domain/user/resource/UserResource.java:64 | page 1 when absent, the request unchanged otherwise |
| UserResources.PageSizeOrDefault | src/main/java/com/agora/domain/user/resource/UserResource.java:65 | never above 100; 10 when absent; the request when at most 100 |
| UserResources.LimitOrDefault | src/main/java/com/agora/domain/user/resource/UserResource.java:95 | 10 when absent, the request unchanged otherwise |
| DiscordUsers.FullUsername | src/main/java/com/agora/domain/user/infrastructure/discord/DiscordUserResponse.java:19-21 | `username + "#" + discriminator` with null as "null": the '#' sits right after the user name |
| DiscordUsers.SplitAtHash | src/main/java/com/agora/domain/user/infrastructure/discord/DiscordUserResponse.java:19-21 | the part before the first '#' holds no '#' |
| DiscordUsers.SplitJoin | src/main/java/com/agora/domain/user/infrastructure/discord/DiscordUserResponse.java:19-21 | splitting at the first '#' undoes the join when the first part has no '#' |
| DiscordUsers.FullUsernameSplits | src/main/java/com/agora/domain/user/infrastructure/discord/DiscordUserResponse.java:19-21 | the full user name gives back user name and discriminator |
| DiscordUsers.AvatarUrl | src/main/java/com/agora/domain/user/infrastructure/discord/DiscordUserResponse.java:23-28 | null iff there is no avatar hash; otherwise starts with the CDN prefix and ends with ".png" |
| DiscordUsers.AvatarUrlParts | src/main/java/com/agora/domain/user/infrastructure/discord/DiscordUserResponse.java:27 | between prefix and suffix sit the account id, '/', and the avatar hash |
| DiscordUsers.LongOrNull | src/main/java/com/agora/domain/user/infrastructure/discord/DiscordUserResponse.java:27 | a null `Long` prints as "null" and nothing else does; a number starts with '-' iff negative |
| DiscordAuth.Upsert | src/main/java/com/agora/domain/auth/DiscordAuthService.java:82-88 | the table never shrinks |
| DiscordAuth.Refreshed | src/main/java/com/agora/domain/auth/DiscordAuthService.java:90-98 | only Discord name, avatar URL and email change, to the account's full name, avatar URL and email |
| DiscordAuth.NewUser | src/main/java/com/agora/domain/auth/DiscordAuthService.java:100-112 | the new user has the given id, the account's Discord id, username, email, full name and avatar URL, reputation 0, no name and no role |
| DiscordAuth.AuthorizationHeader | src/main/java/com/agora/domain/auth/DiscordAuthService.java:74 | token type, one space, access token, a null part printing as "null" |
| DiscordAuth.ResponseFor | src/main/java/com/agora/domain/auth/DiscordAuthService.java:117-132 | the response's id parses to the user's id and its token signs exactly (id text, username, email) |
| DiscordAuth.SignedIn | src/main/java/com/agora/domain/auth/DiscordAuthService.java:50-55 | a failed sign-in leaves the user table unchanged |
| DiscordAuth.UpsertKeepsInvariants | src/main/java/com/agora/domain/auth/DiscordAuthService.java:82-112 | ids and non-null Discord ids stay unique |
| DiscordAuth.UpsertPosition | src/main/java/com/agora/domain/auth/DiscordAuthService.java:82-88 | the returned user is stored; it replaced a row iff one had that Discord id |
| DiscordAuth.UpsertExactlyOne | src/main/java/com/agora/domain/auth/DiscordAuthService.java:82-88 | afterwards exactly one stored user has the signed-in Discord id |
| DiscordAuth.UpsertRefreshesExisting | src/main/java/com/agora/domain/auth/DiscordAuthService.java:90-98 | an existing user is refreshed in place: only Discord name, avatar URL and email change |
| DiscordAuth.UpsertCreatesNew | src/main/java/com/agora/domain/auth/DiscordAuthService.java:100-112 | a new user is appended with Discord id, username, full name, email, avatar URL, reputation 0, no name and no role |
| DiscordAuth.UpsertIdempotent | src/main/java/com/agora/domain/auth/DiscordAuthService.java:82-98 | signing in again with the same account changes nothing |
| DiscordAuth.IndexIsOnlyMatch | src/main/java/com/agora/domain/user/model/repository/UserRepository.java:11-13 | the only row with a Discord id is the one the lookup finds |
| DiscordAuth.NullDiscordIdAlwaysAdds | src/main/java/com/agora/domain/auth/DiscordAuthService.java:83-87 | an account without a Discord id always adds a user |
| DiscordAuth.SignInFailsEarly | src/main/java/com/agora/domain/auth/DiscordAuthService.java:50-53 | a failed exchange or lookup stops before the table is touched |
| DiscordAuth.SignInAnswersForStoredUser | src/main/java/com/agora/domain/auth/DiscordAuthService.java:50-55 | a successful sign-in's id finds the stored user whose name, email and avatar the response carries |
| DiscordAuth.DiscordAuthService.constructor | src/main/java/com/agora/domain/auth/DiscordAuthService.java:39-44 | the service works on the given user table |
| DiscordAuth.DiscordAuthService.Authenticate | src/main/java/com/agora/domain/auth/DiscordAuthService.java:49-55 | the new table and result are those of `SignedIn` |
| DiscordAuth.DiscordAuthService.CreateOrUpdateUser | src/main/java/com/agora/domain/auth/DiscordAuthService.java:82-88 | the new table and user are those of `Upsert` |
| DiscordAuth.DiscordAuthService.UpdateExistingUser | src/main/java/com/agora/domain/auth/DiscordAuthService.java:90-98 | the row is refreshed and written back in place |
| DiscordAuth.DiscordAuthService.CreateNewUser | src/main/java/com/agora/domain/auth/DiscordAuthService.java:100-112 | the new user is built from the account and appended |
| DiscordAuth.DiscordAuthService.GenerateAuthResponse | src/main/java/com/agora/domain/auth/DiscordAuthService.java:117-132 | the token signs (id text, username, email); id, username, email and avatar URL are the user's |
| AuthResources.HandleCallback | src/main/java/com/agora/domain/user/resource/AuthResource.java:29-44 | a plain answer or an error leaves the user table unchanged |
| AuthResources.ErrorTakesPrecedence | src/main/java/com/agora/domain/user/resource/AuthResource.java:31-34 | an `error` gives 401 "Authorization denied: " + error whatever the code |
| AuthResources.MissingCodeRejected | src/main/java/com/agora/domain/user/resource/AuthResource.java:36-38 | no error and no code give 400 "Missing authorization code" |
| AuthResources.SignInOnlyWithCode | src/main/java/com/agora/domain/user/resource/AuthResource.java:36-41 | the table changes only when there is a code and no error, and then the callback is that sign-in |
| AuthResources.RedirectCarriesToken | src/main/java/com/agora/domain/user/resource/AuthResource.java:42-43 | success redirects with 307 to the front-end callback with exactly the issued token appended |

## Left out

- Persistence, transactions and concurrency: the tables are in-memory values, and each service method is one atomic, single-threaded transaction.
- Clocks, id generation, the Discord HTTP calls and JWT signing are parameters. The signer is an arbitrary function of (id text, username, email). `JwtService.generateToken` is not part of this model.
- Timestamps are abstract `Instant` values, and `createdAt` of a feedback is the clock reading at construction. The user entity's timestamps and its `@PrePersist` id fallback are not modelled.
- The user entity's own bean validation is not modelled: `name` is `@NotBlank` and `username` and `email` are unique and non-null columns (`User.java:19-26`). `createNewUser` never sets `name`, so an active validator would refuse every first sign-in. The model stores the user.
- Ids.FromString: the lenient forms the TSID parser also accepts (lower case, I/L/O read as 1/1/0) are not modelled; only canonical text parses.
- Paging.CeilDiv: `Math.ceil` over doubles is modelled as exact integer ceiling division, which agrees whenever the count is below 2^40.
- Leaderboard.GetLeaderboard: Java `int` overflow of `(page - 1) * size + size` is not modelled; the function requires `FetchFitsInt` instead of wrapping around.
- UserResources.GetLeaderboardEndpoint: the same overflow bound is required.
- The order among rows whose sort keys tie is left to the database; the model fixes one (a stable insertion sort).
- `getAllFeedbacks` (unpaged, unsorted listing), `findAllCategories`, and `findLeaderboard` (unused by any service and unsorted) are not modelled.
- Deleting a feedback leaves its comment rows; foreign-key cascades of the database are not modelled.
- Response records are modelled with the fields the service passes; OpenAPI annotations, JAX-RS response building and logging are left out.
- Validation.TextViolations: the violations come in one fixed order (title, description, status, then a null `userId`). Hibernate collects them in a `Set` whose iteration order is unspecified, so only which violations are reported carries meaning, not their order. The same holds for CreateViolations, UpdateViolations, CommentViolations and FeedbackEntityViolations.
- A null command or request body, which `@NotNull` on the `command` and `request` parameters would report as `createFeedback.command` and so on, is not modelled: commands and ids are always-present values here.
- Text.EqualsIgnoreCase: the comparison is exact whenever one side is ASCII, as in its only use, the comparison with "oldest". Two non-ASCII letters that differ only in case (é and É) compare unequal here, though Java finds them equal.
- FeedbackSpec.ListFeedback: the page starts at the exact offset `(page - 1) * size`. Java computes that product in `int`, so for a page number whose offset passes 2^31 - 1 the query starts at a wrapped position, or is refused when the wrapped value is negative. `Paging.FirstResultAsWritten` models that arithmetic; see "## Findings".
- Paging.Offset: the exact product, not the `int` product of the query (`Paging.FirstResultAsWritten`); the two agree while the offset fits in an `int` (`Paging.FirstResultAgreesInRange`).
- FeedbackResources.ListAll: the same exact offset as `FeedbackSpec.ListFeedback`.
- Errors.Message: a row the entity's constraints reject at commit carries only the head of Hibernate's message (the class and "during update time"); the group list and the rendering of each violation that follow are not modelled. How the commit failure is wrapped on its way out of the transaction is not modelled either: it is a failure that none of the core's mappers handles.
- Some calls in the source do not match the declarations they call, so the code as written does not compile there. `DomainExceptionMapper.java:22` and `UserExceptionMapper.java:20` call a two-argument `ErrorResponse` constructor, and `ValidationExceptionMapper.java:23` a no-argument one followed by setters; the record declares neither, and the model reads all three as `ErrorResponse.of`. `DiscordAuthService.java:61-67` calls `exchangeCode` with five of its six parameters, and `DiscordAuthService.java:118-122` calls `generateToken(String, String, String)`, where `JwtService` declares only `generateToken(User)`; the model reads them as the token exchange and as a signer of (id text, username, email).
- Integer widths of the counters (`int`) and of reputation are unbounded here; no counter is ever decremented below zero.

## Findings

| source | as written | input that shows it | evidently intended | confidence | as-written member | corrected member |
|---|---|---|---|---|---|---|
| src/main/java/com/agora/domain/feedback/model/entity/Feedback.java:76-80 | `reopen()` only maps COMPLETED to PENDING and never writes `archived` | any archived feedback: after `reopen()` it is still archived | reopening makes the item active again (`archived == false`), as `FeedbackEntityTest.testReopen_ClearsArchivedFlag` expects | not executed | FeedbackEntities.ReopenAsWrittenKeepsArchived | FeedbackEntities.ReopenStatusRule |
| src/main/java/com/agora/domain/feedback/application/FeedbackApplicationService.java:254 | `Page.of(page - 1, size)` with an unbounded client page number; the query's first result `index * size` is an `int` product | page 214748366 with size 20: the first result wraps to 4, so the page repeats items of page 1; page 107374185 gives a negative first result, which the query refuses | page p starts at item (p - 1) * size, and a page past the end is empty | not executed | Paging.FirstResultWraps | Paging.PageSliceCovers |
