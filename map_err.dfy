/** Error-to-HTTP mapping of pkg/errorx/map_err.go; the JSON write of `SendError` is its result value. */
module MapErr {
  import opened Wrappers
  import opened Errorx

  const StatusBadRequest := 400
  const StatusNotFound := 404
  const StatusConflict := 409
  const StatusInternalServerError := 500

  const InternalMessage := "internal server error, please try again later"
  const UnexpectedMessage := "unexpected system error"

  /** The status for an error type: four possible codes, 500 for Internal and every undeclared type. */
  function MapErrorToStatusCode(kind: ErrorType): (code: int)
    ensures code in {StatusBadRequest, StatusNotFound, StatusConflict, StatusInternalServerError}
    ensures code == StatusNotFound <==> kind == ErrTypeNotFound
    ensures code == StatusConflict <==> kind == ErrTypeConflict
    ensures code == StatusBadRequest <==> kind in {ErrTypeValidation, ErrInsufficientLimit, ErrTenorNotAvail}
  {
    if kind == ErrTypeNotFound then StatusNotFound
    else if kind == ErrTypeConflict then StatusConflict
    else if kind == ErrTypeValidation || kind == ErrInsufficientLimit || kind == ErrTenorNotAvail then StatusBadRequest
    else StatusInternalServerError
  }

  /** The JSON body `ErrorResponse{Message, Err}`; a nil map is `None`. */
  datatype ErrorResponse = ErrorResponse(message: string, errors: Option<map<string, string>>)

  /** What `SendError` writes: a status and a body. */
  datatype Reply = Reply(status: int, body: ErrorResponse)

  /**
    * The decision of `SendError`. An `*AppError` found on the wrap chain gives
    * its type's status and passes its fields through; its message is shown
    * unless the status is 500, so internal text never reaches the client. Any
    * other error is a 500 with a fixed message and no fields.
    */
  function SendError(err: Error): (r: Reply)
    ensures r.status in {StatusBadRequest, StatusNotFound, StatusConflict, StatusInternalServerError}
    ensures r.status == StatusInternalServerError ==> r.body.message in {InternalMessage, UnexpectedMessage}
    ensures AsAppError(err).Some? ==>
      && r.status == MapErrorToStatusCode(AsAppError(err).value.kind)
      && r.body.errors == AsAppError(err).value.fields
      && (r.status != StatusInternalServerError ==> r.body.message == AsAppError(err).value.message)
      && (r.status == StatusInternalServerError ==> r.body.message == InternalMessage)
    ensures AsAppError(err).None? ==> r == Reply(StatusInternalServerError, ErrorResponse(UnexpectedMessage, None))
  {
    match AsAppError(err)
    case Some(appErr) =>
      var status := MapErrorToStatusCode(appErr.kind);
      var message := if status == StatusInternalServerError then InternalMessage else appErr.message;
      Reply(status, ErrorResponse(message, appErr.fields))
    case None =>
      Reply(StatusInternalServerError, ErrorResponse(UnexpectedMessage, None))
  }

  /** A binding failure reaches the client as a 400 carrying the field map. */
  lemma ValidationErrorReply(fields: map<string, string>)
    ensures SendError(App(NewValidationError(fields)))
         == Reply(StatusBadRequest, ErrorResponse("invalid input parameters", Some(fields)))
  {
  }

  /** An `AppError` made by `NewError` shows no field map, whatever its type. */
  lemma NewErrorHasNoFields(kind: ErrorType, msg: string, cause: Option<Error>)
    ensures SendError(App(NewError(kind, msg, cause))).body.errors.None?
  {
  }
}
