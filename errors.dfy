/**
 * The failures the services raise, their messages, and how the exception mappers turn them into
 * an HTTP status plus an ErrorResponse body.
 */
module Errors {
  import opened Wrappers
  import opened Text
  import opened Ids
  import opened Validation
  import opened FeedbackEntities

  /** `ErrorResponse.FieldError`. */
  datatype FieldError = FieldError(field: string, message: string)

  /** `ErrorResponse`; `errors` is null unless the response carries field errors. */
  datatype ErrorResponse = ErrorResponse(status: int, message: string, timestamp: Instant, errors: Option<seq<FieldError>>)

  /** A mapped response: the HTTP status and the JSON body. */
  datatype HttpError = HttpError(status: int, body: ErrorResponse)

  const NotFound: int := 404
  const BadRequest: int := 400
  const InternalServerError: int := 500
  const ValidationFailedMessage: string := "Validation failed"
  /** The head of the message Hibernate gives a Feedback row its validator rejects at flush time. */
  const EntityRejectedMessage: string :=
    "Validation failed for classes [com.agora.domain.feedback.model.entity.Feedback] during update time"

  /** `ErrorResponse.of(status, message)`; the clock reading is a parameter. */
  function Of(status: int, message: string, now: Instant): (r: ErrorResponse)
    ensures r.status == status && r.message == message && r.timestamp == now
    ensures r.errors.None?
  {
    ErrorResponse(status, message, now, None)
  }

  /** `ErrorResponse.of(status, message, errors)`: the list is kept exactly, in order. */
  function OfErrors(status: int, message: string, now: Instant, errors: seq<FieldError>): (r: ErrorResponse)
    ensures r.status == status && r.message == message && r.timestamp == now
    ensures r.errors == Some(errors)
  {
    ErrorResponse(status, message, now, Some(errors))
  }

  /** Every failure an operation of the core can end with. */
  datatype ServiceError =
    | FeedbackNotFound(idText: string)
    | CategoryNotFound(categoryId: Id)
    | UserNotFound(userId: Id)
    | Unauthorized(reason: string)
    | CommentNotFound(commentId: Id)
    | CommentMismatch
    | InvalidDirection(reason: string)
    | InvalidId(text: string)
    | ValidationFailed(violations: seq<Violation>)
    | EntityConstraintsViolated(violations: seq<Violation>)
    | OtherDomainFailure(reason: string)
    | OtherUserFailure(reason: string)

  /** Which exception hierarchy a failure is thrown as, and so which mapper (if any) handles it. */
  datatype ExceptionKind = FeedbackDomain | UserDomain | IllegalArgument | ConstraintViolation | RolledBack

  function Kind(e: ServiceError): ExceptionKind {
    match e
    case FeedbackNotFound(_) => FeedbackDomain
    case CategoryNotFound(_) => FeedbackDomain
    case Unauthorized(_) => FeedbackDomain
    case OtherDomainFailure(_) => FeedbackDomain
    case UserNotFound(_) => UserDomain
    case OtherUserFailure(_) => UserDomain
    case ValidationFailed(_) => ConstraintViolation
    case EntityConstraintsViolated(_) => RolledBack
    case _ => IllegalArgument
  }

  /** `Long.toString` of an id. */
  function LongText(id: Id): string {
    IntToString(AsLong(id))
  }

  /** `new FeedbackNotFoundException(Long)`: the id in its canonical text form. */
  function FeedbackNotFoundById(id: Id): ServiceError {
    FeedbackNotFound(ToString(id))
  }

  /** The exception message of each failure. */
  function Message(e: ServiceError): (m: string)
    ensures e.FeedbackNotFound? ==> m == "Feedback with id " + e.idText + " not found"
    ensures e.CategoryNotFound? ==> m == "Category with id " + LongText(e.categoryId) + " not found"
    ensures e.UserNotFound? ==> m == "User with id " + LongText(e.userId) + " not found"
    ensures e.Unauthorized? ==> m == e.reason
  {
    match e
    case FeedbackNotFound(t) => "Feedback with id " + t + " not found"
    case CategoryNotFound(id) => "Category with id " + LongText(id) + " not found"
    case UserNotFound(id) => "User with id " + LongText(id) + " not found"
    case Unauthorized(reason) => reason
    case CommentNotFound(id) => "Comment not found: " + LongText(id)
    case CommentMismatch => "Comment does not belong to this feedback"
    case InvalidDirection(reason) => reason
    case InvalidId(t) => t
    case ValidationFailed(_) => ValidationFailedMessage
    case EntityConstraintsViolated(_) => EntityRejectedMessage
    case OtherDomainFailure(reason) => reason
    case OtherUserFailure(reason) => reason
  }

  /** `DomainExceptionMapper.toResponse`: not-found failures give 404, every other domain failure 500. */
  function MapDomainException(e: ServiceError, now: Instant): (r: HttpError)
    requires Kind(e) == FeedbackDomain
    ensures r.status == r.body.status
    ensures r.body == Of(r.status, Message(e), now)
  {
    var status := if e.FeedbackNotFound? || e.CategoryNotFound? then NotFound else InternalServerError;
    HttpError(status, Of(status, Message(e), now))
  }

  /** `UserExceptionMapper.toResponse`: a missing user gives 404, anything else 500. */
  function MapUserException(e: ServiceError, now: Instant): (r: HttpError)
    requires Kind(e) == UserDomain
    ensures r.status == r.body.status
    ensures r.body == Of(r.status, Message(e), now)
  {
    var status := if e.UserNotFound? then NotFound else InternalServerError;
    HttpError(status, Of(status, Message(e), now))
  }

  /** The field errors of a violation list, one per violation and in the same order. */
  function FieldErrors(violations: seq<Violation>): (r: seq<FieldError>)
    ensures |r| == |violations|
    ensures forall i :: 0 <= i < |r| ==> r[i] == FieldError(violations[i].path, violations[i].message)
  {
    if violations == [] then []
    else FieldErrors(violations[..|violations| - 1])
         + [FieldError(violations[|violations| - 1].path, violations[|violations| - 1].message)]
  }

  /** `ValidationExceptionMapper.toResponse`: collect one field error per violation; always 400 "Validation failed". */
  method MapConstraintViolations(violations: seq<Violation>, now: Instant) returns (r: HttpError)
    ensures r.status == BadRequest && r.body.status == BadRequest
    ensures r.body.message == ValidationFailedMessage
    ensures r.body.errors == Some(FieldErrors(violations))
  {
    var fieldErrors: seq<FieldError> := [];
    var i := 0;
    while i < |violations|
      invariant 0 <= i <= |violations|
      invariant fieldErrors == FieldErrors(violations[..i])
    {
      var cv := violations[i];
      fieldErrors := fieldErrors + [FieldError(cv.path, cv.message)];
      i := i + 1;
      assert violations[..i][..i - 1] == violations[..i - 1];
    }
    assert violations[..i] == violations;
    r := HttpError(BadRequest, ErrorResponse(BadRequest, ValidationFailedMessage, now, Some(fieldErrors)));
  }

  /**
   * The status of each mapped failure. IllegalArgumentException has no mapper in this core, and a
   * row rejected at flush time surfaces from the commit as a rollback, which none of the mappers handles.
   */
  function StatusOf(e: ServiceError): (s: Option<int>)
    ensures s.Some? <==> Kind(e) != IllegalArgument && Kind(e) != RolledBack
  {
    match Kind(e)
    case FeedbackDomain => Some(MapDomainException(e, 0).status)
    case UserDomain => Some(MapUserException(e, 0).status)
    case ConstraintViolation => Some(BadRequest)
    case IllegalArgument => None
    case RolledBack => None
  }

  /** A mapped failure is 404 exactly when it is a missing feedback, category or user. */
  lemma NotFoundExactly(e: ServiceError)
    ensures StatusOf(e) == Some(NotFound) <==> e.FeedbackNotFound? || e.CategoryNotFound? || e.UserNotFound?
  {
  }

  /** An authorization failure is reported as a server error, not as 403. */
  lemma UnauthorizedIsServerError(reason: string, now: Instant)
    ensures MapDomainException(Unauthorized(reason), now).status == InternalServerError
    ensures MapDomainException(Unauthorized(reason), now).body.message == reason
  {
  }

  /** Each mapper answers 404 for its not-found failures, 500 for every other failure it handles, and keeps the message. */
  lemma MapperStatusRule(e: ServiceError, now: Instant)
    ensures Kind(e) == FeedbackDomain ==>
      MapDomainException(e, now).status == (if e.FeedbackNotFound? || e.CategoryNotFound? then NotFound else InternalServerError)
    ensures Kind(e) == UserDomain ==>
      MapUserException(e, now).status == (if e.UserNotFound? then NotFound else InternalServerError)
    ensures Kind(e) == FeedbackDomain ==> MapDomainException(e, now).body.errors.None?
    ensures Kind(e) == UserDomain ==> MapUserException(e, now).body.message == Message(e)
  {
  }

  /** The mapped response of a validation failure carries that failure's violations and the fixed message. */
  lemma ValidationMessageFixed(v: seq<Violation>)
    ensures Message(ValidationFailed(v)) == ValidationFailedMessage
    ensures StatusOf(ValidationFailed(v)) == Some(BadRequest)
  {
  }
}
