/**
 * The API's status page: every exception a handler lets escape is turned
 * into an HTTP status (RFC 9110, sections 15.5.1, 15.5.5, 15.6.1 and 15.6.2)
 * and an error body listing messages.
 */
module StatusPage {
  import opened Wrappers
  import opened Errors
  import opened ValidationRun

  /** The four statuses the page answers with. */
  datatype HttpStatus = BadRequest | NotFound | InternalServerError | NotImplemented

  function StatusValue(s: HttpStatus): (code: int)
    ensures s.BadRequest? <==> code == 400
    ensures s.NotFound? <==> code == 404
    ensures s.InternalServerError? <==> code == 500
    ensures s.NotImplemented? <==> code == 501
  {
    match s
    case BadRequest => 400
    case NotFound => 404
    case InternalServerError => 500
    case NotImplemented => 501
  }

  /** The body sent with the status. */
  datatype ErrorResponse = ErrorResponse(code: int, errorCode: Option<ErrorCode>, messages: seq<string>)

  /** `mapToErrorStatus`: a validation failure first, then anything that is
      not an `ApiError`, then the four `ApiError` kinds. */
  function MapToErrorStatus(error: Throwable): HttpStatus
  {
    if error.ValidationFailed? then HttpStatus.BadRequest
    else if !error.Api? then InternalServerError
    else
      match error.error.kind
      case BadRequest => HttpStatus.BadRequest
      case InternalServer => InternalServerError
      case NotFound => HttpStatus.NotFound
      case NotImplementer => NotImplemented
  }

  /** `mapNotNull { it.message }`: the messages that are present, in order. */
  function PresentMessages(ts: seq<Throwable>): (ms: seq<string>)
    ensures |ms| <= |ts|
  {
    if ts == [] then []
    else
      var last := ts[|ts| - 1];
      PresentMessages(ts[..|ts| - 1]) + match Message(last) case Some(m) => [m] case None => []
  }

  /** `listOfNotNull(message)`. */
  function ListOfNotNull(m: Option<string>): (ms: seq<string>)
    ensures m.None? ==> ms == []
    ensures m.Some? ==> ms == [m.value]
  {
    match m case Some(s) => [s] case None => []
  }

  /** `mapToErrorResponse`. */
  function MapToErrorResponse(error: Throwable, status: HttpStatus): ErrorResponse
  {
    match error
    case ValidationFailed(failures) => ErrorResponse(StatusValue(status), None, PresentMessages(failures))
    case Api(e) => ErrorResponse(StatusValue(status), e.errorCode, ListOfNotNull(e.message))
    case _ => ErrorResponse(StatusValue(status), Some(DevDoneGoofed), ListOfNotNull(Message(error)))
  }

  /** The handler installed for every `Throwable`: the status and the body
      it responds with. */
  function Respond(cause: Throwable): (r: (HttpStatus, ErrorResponse))
    ensures r.1.code == StatusValue(r.0)
  {
    var status := MapToErrorStatus(cause);
    (status, MapToErrorResponse(cause, status))
  }

  /** The classification: a validation failure is a client error whatever
      it carries; every throwable outside the `ApiError` hierarchy is a 500;
      each `ApiError` kind has its own status, and only `BadRequestError`
      and `NotFoundError` are client errors. */
  lemma StatusClassification(t: Throwable)
    ensures t.ValidationFailed? ==> MapToErrorStatus(t) == HttpStatus.BadRequest
    ensures !t.ValidationFailed? && !t.Api? ==> MapToErrorStatus(t) == InternalServerError
    ensures t.Api? ==> (StatusValue(MapToErrorStatus(t)) < 500 <==> t.error.kind in {ApiErrorKind.BadRequest, ApiErrorKind.NotFound})
    ensures t.Api? ==> (MapToErrorStatus(t) == InternalServerError <==> t.error.kind == InternalServer)
    ensures StatusValue(MapToErrorStatus(t)) in {400, 404, 500, 501}
  {
  }

  /** Each `ApiError` subclass has its own status: `BadRequestError` 400,
      `NotFoundError` 404, `InternalServerError` 500 and
      `NotImplementerError` 501. */
  lemma ApiErrorStatus(e: ApiError)
    ensures e.kind == ApiErrorKind.BadRequest <==> StatusValue(MapToErrorStatus(Api(e))) == 400
    ensures e.kind == ApiErrorKind.NotFound <==> StatusValue(MapToErrorStatus(Api(e))) == 404
    ensures e.kind == InternalServer <==> StatusValue(MapToErrorStatus(Api(e))) == 500
    ensures e.kind == NotImplementer <==> StatusValue(MapToErrorStatus(Api(e))) == 501
  {
  }

  /** An `ApiError` is answered with its own error code and its message,
      when it has one, and with nothing else. */
  lemma ApiErrorResponse(e: ApiError)
    ensures Respond(Api(e)).1.errorCode == e.errorCode
    ensures e.message.Some? ==> Respond(Api(e)).1.messages == [e.message.value]
    ensures e.message.None? ==> Respond(Api(e)).1.messages == []
  {
  }

  /** Distinct `ApiError` kinds get distinct statuses. */
  lemma ApiStatusInjective(a: ApiError, b: ApiError)
    requires MapToErrorStatus(Api(a)) == MapToErrorStatus(Api(b))
    ensures a.kind == b.kind
  {
  }

  /** An `InternalServerError` always answers 500 with `DevDoneGoofed`, just as
      an exception from outside the hierarchy does. */
  lemma InternalServerErrorResponse(message: Option<string>, cause: Option<Throwable>)
    ensures Respond(Api(NewInternalServerError(message, cause))).0 == InternalServerError
    ensures Respond(Api(NewInternalServerError(message, cause))).1.errorCode == Some(DevDoneGoofed)
  {
  }

  /** Every present message of the failures is listed, in list order, and
      nothing else is. */
  lemma {:induction false} PresentMessagesInOrder(ts: seq<Throwable>)
    requires forall i :: 0 <= i < |ts| ==> Message(ts[i]).Some?
    ensures |PresentMessages(ts)| == |ts|
    ensures forall i :: 0 <= i < |ts| ==> PresentMessages(ts)[i] == Message(ts[i]).value
  {
    if ts != [] {
      PresentMessagesInOrder(ts[..|ts| - 1]);
    }
  }

  /** The messages of a list are those of its parts, in order, and one
      failure contributes its message when it has one: on any mix of
      failures with and without a message, the present ones are listed in
      list order. */
  lemma {:induction false} PresentMessagesAppend(xs: seq<Throwable>, ys: seq<Throwable>)
    ensures PresentMessages(xs + ys) == PresentMessages(xs) + PresentMessages(ys)
    decreases |ys|
  {
    if ys == [] {
      assert xs + ys == xs;
    } else {
      var init := ys[..|ys| - 1];
      assert (xs + ys)[..|xs + ys| - 1] == xs + init;
      PresentMessagesAppend(xs, init);
    }
  }

  lemma PresentMessagesOfOne(t: Throwable)
    ensures PresentMessages([t]) == ListOfNotNull(Message(t))
  {
    assert [t][..0] == [];
  }

  /** A message is listed iff some failure carries it. */
  lemma {:induction false} PresentMessagesMember(ts: seq<Throwable>, m: string)
    ensures m in PresentMessages(ts) <==> exists i :: 0 <= i < |ts| && Message(ts[i]) == Some(m)
  {
    if ts != [] {
      var init := ts[..|ts| - 1];
      PresentMessagesMember(init, m);
      if i :| 0 <= i < |init| && Message(init[i]) == Some(m) {
        assert ts[i] == init[i];
      }
      if i :| 0 <= i < |ts| && Message(ts[i]) == Some(m) {
        if i < |init| {
          assert init[i] == ts[i];
        }
      }
    }
  }

  /** A validation failure whose entries carry no message (nested validation
      failures) lists nothing for them. */
  lemma {:induction false} NoMessageDropped(ts: seq<Throwable>)
    requires forall i :: 0 <= i < |ts| ==> Message(ts[i]).None?
    ensures PresentMessages(ts) == []
  {
    if ts != [] {
      NoMessageDropped(ts[..|ts| - 1]);
    }
  }

  /** From `Validator.run()` to the response: when a run fails only on rule
      failures, the client gets a 400 without an error code, carrying one
      message per failing delegate, in registration order, each the message
      of that delegate's `RuleFailedError`. */
  lemma RunFailureResponse(bs: seq<Binding>)
    requires AllTyped(bs)
    requires AbortIndex(bs) == |bs| && RunThrows(bs).Some?
    ensures Respond(RunThrows(bs).value).0 == HttpStatus.BadRequest
    ensures Respond(RunThrows(bs).value).1.errorCode == None
    ensures |Respond(RunThrows(bs).value).1.messages| == |FailingIndices(bs)|
    ensures forall k :: 0 <= k < |FailingIndices(bs)| ==>
      FailingIndices(bs)[k] < |bs| && Fails(bs[FailingIndices(bs)[k]]) &&
      Respond(RunThrows(bs).value).1.messages[k] == Thrown(bs[FailingIndices(bs)[k]]).value.ruleMessage
  {
    RunFailsIffSomeDelegateFails(bs);
    FailuresInRegistrationOrder(bs);
    var fs := RuleFailures(bs);
    assert forall i :: 0 <= i < |fs| ==> fs[i].RuleFailed? && Message(fs[i]).Some?;
    PresentMessagesInOrder(fs);
  }

  /** When a delegate throws something other than a rule failure (an
      unknown enum constant), the run aborts with that exception and the
      client gets a 500 with `DevDoneGoofed`. */
  lemma RunAbortResponse(bs: seq<Binding>)
    requires AllTyped(bs)
    requires AbortIndex(bs) < |bs| && Thrown(bs[AbortIndex(bs)]).value.Foreign?
    ensures RunThrows(bs) == Thrown(bs[AbortIndex(bs)])
    ensures Respond(RunThrows(bs).value).0 == InternalServerError
    ensures Respond(RunThrows(bs).value).1.errorCode == Some(DevDoneGoofed)
    ensures Respond(RunThrows(bs).value).1.messages == ListOfNotNull(Thrown(bs[AbortIndex(bs)]).value.foreignMessage)
  {
  }
}
