/**
 * The application's error type (AppError), the mappers that turn database and token errors into
 * AppErrors, the production response decision and the final error-handling middleware.
 */
module ErrorHandler {
  import opened Wrappers
  import opened Decimal
  import opened JsonValue

  const Fail: string := "fail"
  const Error: string := "error"
  const GenericMessage: string := "Something went wrong. Please try again later."

  /**
   * A thrown error as the handler sees it. `name` is the error's OWN name property (the one an
   * object spread copies); `statusCode`, `status` and `code` are None when absent;
   * `isOperational` is false when absent; `details` is JUndefined when absent. The remaining
   * fields are what the database mappers read: the cast path and value, the duplicated key/value
   * pairs and the validation messages.
   */
  datatype ErrorValue = ErrorValue(
    name: Option<string>,
    message: string,
    statusCode: Option<int>,
    status: Option<string>,
    isOperational: bool,
    details: Json,
    code: Option<int>,
    path: string,
    value: string,
    keyValue: seq<(string, string)>,
    errors: seq<string>)

  /** The JSON body sent back: the production shape, or the development shape. */
  datatype Response =
    | ProdBody(statusCode: int, status: string, message: string, errors: Option<Json>)
    | DevBody(statusCode: int, status: string, message: string)

  /** `${statusCode}`.startsWith('4') ? 'fail' : 'error'. */
  function StatusFor(statusCode: int): (s: string)
    ensures s == Fail <==> IntToString(statusCode)[0] == '4'
    ensures s == Fail || s == Error
  {
    if IntToString(statusCode)[0] == '4' then Fail else Error
  }

  /** For HTTP status codes, 'fail' is exactly the 4xx range. */
  lemma StatusOfHttpCode(statusCode: int)
    requires 100 <= statusCode < 1000
    ensures StatusFor(statusCode) == Fail <==> 400 <= statusCode < 500
  {
    NatToStringHead(statusCode);
    ThreeDigitLeading(statusCode);
    assert IntToString(statusCode) == NatToString(statusCode);
    assert DigitChar(4) == '4';
    assert forall d: nat :: d < 10 && d != 4 ==> DigitChar(d) != '4' by {
      assert "0123456789"[4] == '4';
    }
  }

  /** `new AppError(message, statusCode, details)`: always operational, status from the code. */
  function AppError(message: string, statusCode: int, details: Json): (e: ErrorValue)
    ensures e.isOperational && e.message == message && e.statusCode == Some(statusCode)
    ensures e.status == Some(StatusFor(statusCode)) && e.details == details
    ensures e.name.None? && e.code.None?
  {
    ErrorValue(None, message, Some(statusCode), Some(StatusFor(statusCode)), true, details, None, "", "", [], [])
  }

  /** `xs.join(sep)`. */
  function Join(xs: seq<string>, sep: string): string {
    if xs == [] then "" else if |xs| == 1 then xs[0] else xs[0] + sep + Join(xs[1..], sep)
  }

  /** A cast error becomes an operational 400 naming the path and the value. */
  function HandleCastError(e: ErrorValue): (r: ErrorValue)
    ensures r.isOperational && r.statusCode == Some(400) && r.status == Some(Fail)
    ensures r.message == "Invalid " + e.path + ": " + e.value && r.details == JUndefined
  {
    StatusOfHttpCode(400);
    AppError("Invalid " + e.path + ": " + e.value, 400, JUndefined)
  }

  /** The first duplicated key and its value; an empty keyValue reads as `undefined`. */
  function HandleDuplicateFields(e: ErrorValue): (r: ErrorValue)
    ensures r.isOperational && r.statusCode == Some(400) && r.status == Some(Fail) && r.details == JUndefined
    ensures e.keyValue != [] ==>
      r.message == "Duplicate field \"" + e.keyValue[0].0 + "\": \"" + e.keyValue[0].1 + "\""
  {
    StatusOfHttpCode(400);
    var (key, value) := if e.keyValue == [] then ("undefined", "undefined") else e.keyValue[0];
    AppError("Duplicate field \"" + key + "\": \"" + value + "\"", 400, JUndefined)
  }

  /** A validation error becomes an operational 400 listing the messages joined by '. '. */
  function HandleValidationError(e: ErrorValue): (r: ErrorValue)
    ensures r.isOperational && r.statusCode == Some(400) && r.status == Some(Fail)
    ensures r.message == "Invalid input data: " + Join(e.errors, ". ") && r.details == JUndefined
  {
    StatusOfHttpCode(400);
    AppError("Invalid input data: " + Join(e.errors, ". "), 400, JUndefined)
  }

  /** A malformed token becomes an operational 401 asking to log in again. */
  function HandleJwtError(): (r: ErrorValue)
    ensures r.isOperational && r.statusCode == Some(401) && r.status == Some(Fail)
    ensures r.message == "Invalid token. Please log in again."
  {
    StatusOfHttpCode(401);
    AppError("Invalid token. Please log in again.", 401, JUndefined)
  }

  /** An expired token becomes an operational 401 asking to log in again. */
  function HandleJwtExpiredError(): (r: ErrorValue)
    ensures r.isOperational && r.statusCode == Some(401) && r.status == Some(Fail)
    ensures r.message == "Your token has expired. Please log in again."
  {
    StatusOfHttpCode(401);
    AppError("Your token has expired. Please log in again.", 401, JUndefined)
  }

  /** The production chain of independent ifs, each seeing the result of the ones before it. */
  function ProdChain(e: ErrorValue): (r: ErrorValue)
    ensures !Mapped(e) ==> r == e
    ensures Mapped(e) ==>
      r.isOperational && r.status == Some(Fail) && (r.statusCode == Some(400) || r.statusCode == Some(401))
  {
    var e1 := if e.name == Some("CastError") then HandleCastError(e) else e;
    var e2 := if e1.code == Some(11000) then HandleDuplicateFields(e1) else e1;
    var e3 := if e2.name == Some("ValidationError") then HandleValidationError(e2) else e2;
    var e4 := if e3.name == Some("JsonWebTokenError") then HandleJwtError() else e3;
    if e4.name == Some("TokenExpiredError") then HandleJwtExpiredError() else e4
  }

  /** Whether the production chain replaces the error at all. */
  predicate Mapped(e: ErrorValue) {
    e.name == Some("CastError") || e.code == Some(11000) || e.name == Some("ValidationError")
    || e.name == Some("JsonWebTokenError") || e.name == Some("TokenExpiredError")
  }

  /**
   * At most one mapper applies, chosen by the first matching test in source order: database
   * errors become operational 400s, token errors operational 401s, and anything else passes
   * through untouched.
   */
  lemma ProdChainClassifies(e: ErrorValue)
    ensures !Mapped(e) ==> ProdChain(e) == e
    ensures e.name == Some("CastError") ==> ProdChain(e) == HandleCastError(e)
    ensures e.name != Some("CastError") && e.code == Some(11000) ==> ProdChain(e) == HandleDuplicateFields(e)
    ensures e.name == Some("ValidationError") && e.code != Some(11000) ==> ProdChain(e) == HandleValidationError(e)
    ensures e.name == Some("JsonWebTokenError") && e.code != Some(11000) ==> ProdChain(e) == HandleJwtError()
    ensures e.name == Some("TokenExpiredError") && e.code != Some(11000) ==> ProdChain(e) == HandleJwtExpiredError()
    ensures Mapped(e) ==>
      (&& ProdChain(e).isOperational && ProdChain(e).status == Some(Fail)
       && ProdChain(e).statusCode == Some(if e.name == Some("JsonWebTokenError") || e.name == Some("TokenExpiredError")
                                          then (if e.code == Some(11000) then 400 else 401) else 400))
  {
    StatusOfHttpCode(400);
    StatusOfHttpCode(401);
  }

  /**
   * sendErrorProd: an operational error answers with its own code, status and message, plus
   * `errors` exactly when details is a non-null object; any other error answers 500 with the
   * generic message and no details.
   */
  function SendErrorProd(e: ErrorValue): (r: Response)
    requires e.statusCode.Some? && e.status.Some?
    ensures r.ProdBody?
    ensures e.isOperational ==>
      r.statusCode == e.statusCode.value && r.status == e.status.value && r.message == e.message
    ensures e.isOperational ==> (r.errors.Some? <==> IsObject(e.details))
    ensures r.errors.Some? ==> r.errors.value == e.details
    ensures !e.isOperational ==> r == ProdBody(500, Error, GenericMessage, None)
  {
    if e.isOperational then
      ProdBody(e.statusCode.value, e.status.value, e.message,
               if Truthy(e.details) && IsObject(e.details) then Some(e.details) else None)
    else ProdBody(500, Error, GenericMessage, None)
  }

  /** `err.statusCode || 500` and `err.status || 'error'`: falsy values (absent, 0, "") take the default. */
  function Defaulted(e: ErrorValue): (d: ErrorValue)
    ensures d.statusCode == Some(if e.statusCode.Some? && e.statusCode.value != 0 then e.statusCode.value else 500)
    ensures d.status == Some(if e.status.Some? && e.status.value != "" then e.status.value else Error)
    ensures d == e.(statusCode := d.statusCode, status := d.status)
  {
    e.(statusCode := Some(if e.statusCode.Some? && e.statusCode.value != 0 then e.statusCode.value else 500),
       status := Some(if e.status.Some? && e.status.value != "" then e.status.value else Error))
  }

  /** The response errorHandler sends for a thrown error. */
  function Respond(err: ErrorValue, development: bool): (r: Response)
    ensures r.DevBody? <==> development
    ensures r.statusCode != 0 && r.status != ""
  {
    var d := Defaulted(err);
    if development then DevBody(d.statusCode.value, d.status.value, d.message)
    else SendErrorProd(ProdChain(d))
  }

  /** A handler's AppError carries a status code and a status. */
  lemma ProdChainKeepsDefaults(e: ErrorValue)
    requires e.statusCode.Some? && e.status.Some?
    ensures ProdChain(e).statusCode.Some? && ProdChain(e).status.Some?
  {
  }

  /**
   * In production: a mapped error answers 400 or 401 with status 'fail'; an unmapped operational
   * error answers with its code and status (defaulting to 500 and 'error'); an unmapped
   * non-operational error answers 500 with the generic message.
   */
  lemma ProdResponse(err: ErrorValue)
    ensures Mapped(err) ==>
      (Respond(err, false).status == Fail
       && (Respond(err, false).statusCode == 400 || Respond(err, false).statusCode == 401))
    ensures !Mapped(err) && err.isOperational ==>
      Respond(err, false) == ProdBody(Defaulted(err).statusCode.value, Defaulted(err).status.value, err.message,
                                      if IsObject(err.details) then Some(err.details) else None)
    ensures !Mapped(err) && !err.isOperational ==> Respond(err, false) == ProdBody(500, Error, GenericMessage, None)
  {
    var d := Defaulted(err);
    ProdChainClassifies(d);
    assert Mapped(err) <==> Mapped(d);
  }

  /** In development the error is echoed with the defaulted code and status. */
  lemma DevResponse(err: ErrorValue)
    ensures Respond(err, true).statusCode == (if err.statusCode.Some? && err.statusCode.value != 0 then err.statusCode.value else 500)
    ensures Respond(err, true).status == (if err.status.Some? && err.status.value != "" then err.status.value else Error)
    ensures Respond(err, true).message == err.message
  {
  }

  /** The thrown error object, whose statusCode and status the handler overwrites in place. */
  class ErrorObject {
    var name: Option<string>
    var message: string
    var statusCode: Option<int>
    var status: Option<string>
    var isOperational: bool
    var details: Json
    var code: Option<int>
    var path: string
    var value: string
    var keyValue: seq<(string, string)>
    var errors: seq<string>

    /** `{ ...err, message: err.message }`: a plain copy of the own fields. */
    function Snapshot(): ErrorValue
      reads this
    {
      ErrorValue(name, message, statusCode, status, isOperational, details, code, path, value, keyValue, errors)
    }

    constructor (e: ErrorValue)
      ensures Snapshot() == e
    {
      name, message, statusCode, status := e.name, e.message, e.statusCode, e.status;
      isOperational, details, code := e.isOperational, e.details, e.code;
      path, value, keyValue, errors := e.path, e.value, e.keyValue, e.errors;
    }
  }

  /**
   * errorHandler: default the code and status on the error itself, then either echo it
   * (development) or run the production chain on a copy and send the production response.
   */
  method HandleError(err: ErrorObject, development: bool) returns (res: Response)
    modifies err
    ensures err.Snapshot() == Defaulted(old(err.Snapshot()))
    ensures res == Respond(old(err.Snapshot()), development)
  {
    ghost var d := Defaulted(err.Snapshot());
    err.statusCode := Some(if err.statusCode.Some? && err.statusCode.value != 0 then err.statusCode.value else 500);
    err.status := Some(if err.status.Some? && err.status.value != "" then err.status.value else Error);
    assert err.Snapshot() == d;
    if development {
      return DevBody(err.statusCode.value, err.status.value, err.message);
    }
    var error := err.Snapshot();
    if error.name == Some("CastError") { error := HandleCastError(error); }
    if error.code == Some(11000) { error := HandleDuplicateFields(error); }
    if error.name == Some("ValidationError") { error := HandleValidationError(error); }
    if error.name == Some("JsonWebTokenError") { error := HandleJwtError(); }
    if error.name == Some("TokenExpiredError") { error := HandleJwtExpiredError(); }
    assert error == ProdChain(d);
    ProdChainKeepsDefaults(d);
    res := SendErrorProd(error);
  }
}
