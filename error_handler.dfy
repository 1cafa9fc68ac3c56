/** The error-to-response classifier (src/middlewares/errorHandler.js), logging aside. */
module ErrorHandler {
  import opened Base

  /** One entry of a Mongoose `err.errors`. */
  datatype FieldError = FieldError(path: string, message: string)

  /** The parts of a thrown error the handler reads; a missing `code` is None. */
  datatype AppError = AppError(name: string, code: Option<int>, message: string, errors: seq<FieldError>, keyValue: string)

  /** The status and the body parts that vary: validation entries, the duplicate key
      and the development-only detail. */
  datatype ErrorResponse = ErrorResponse(status: int, fields: seq<FieldError>, keyValue: Option<string>, detail: Option<string>)

  const DuplicateKeyCode: int := 11000

  /** `errorHandler(err)` under `NODE_ENV = nodeEnv`: the first rule that matches decides. */
  function HandleError(err: AppError, nodeEnv: string): (r: ErrorResponse)
    ensures err.name == "ValidationError" ==> r.status == 400 && r.fields == err.errors
    ensures err.name != "ValidationError" && err.code == Some(DuplicateKeyCode) ==>
      r.status == 409 && r.keyValue == Some(err.keyValue)
    ensures err.name != "ValidationError" && err.code != Some(DuplicateKeyCode) ==>
      r.status == (if err.name == "UnauthorizedError" then 401
                   else if err.name == "ForbiddenError" then 403
                   else if err.name == "NotFoundError" then 404
                   else 500)
    ensures r.status in {400, 401, 403, 404, 409, 500}
    ensures r.detail.Some? <==> r.status == 500 && nodeEnv == "development"
    ensures r.detail.Some? ==> r.detail.value == err.message
    ensures r.status != 400 ==> r.fields == []
    ensures r.keyValue.Some? <==> r.status == 409
  {
    if err.name == "ValidationError" then ErrorResponse(400, err.errors, None, None)
    else if err.code == Some(DuplicateKeyCode) then ErrorResponse(409, [], Some(err.keyValue), None)
    else if err.name == "UnauthorizedError" then ErrorResponse(401, [], None, None)
    else if err.name == "ForbiddenError" then ErrorResponse(403, [], None, None)
    else if err.name == "NotFoundError" then ErrorResponse(404, [], None, None)
    else ErrorResponse(500, [], None, if nodeEnv == "development" then Some(err.message) else None)
  }

  /** Outside development a 500 never leaks the message; the environment matters for nothing else. */
  lemma EnvironmentOnlyAffectsDetail(err: AppError, env1: string, env2: string)
    ensures HandleError(err, env1).status == HandleError(err, env2).status
    ensures env1 != "development" ==> HandleError(err, env1).detail.None?
  {
  }

  /** A validation error carrying the duplicate-key code is still a 400: the rules are ordered. */
  lemma ValidationBeatsDuplicate(errors: seq<FieldError>, message: string, keyValue: string, nodeEnv: string)
    ensures HandleError(AppError("ValidationError", Some(DuplicateKeyCode), message, errors, keyValue), nodeEnv).status == 400
  {
  }
}
