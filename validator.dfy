/**
 * Request validation helpers (pkg/validation/validator.go): the checks on
 * path parameters, the product-ID rule, the API-key header lookup and the
 * body of a 422 validation-error response.
 */
module Validation {
  import opened Wrappers
  import opened Text
  import opened Decimal

  // ---------------------------------------------------------------- path parameters

  /** The value ValidatePathParameter hands back: an int64 or the string itself. */
  datatype ParamValue = Int64Value(n: int64) | StringValue(s: string)

  function NotAnInteger(paramName: string): string
  {
    "parameter '" + paramName + "' must be a valid integer"
  }

  function NotPositive(paramName: string): string
  {
    "parameter '" + paramName + "' must be a positive integer"
  }

  function EmptyString(paramName: string): string
  {
    "parameter '" + paramName + "' cannot be empty"
  }

  /**
   * ValidatePathParameter: an "int64" parameter must parse as a base-10
   * int64 and be positive; a "string" parameter must not be blank; any other
   * type is passed through. The error is the fmt.Errorf message.
   */
  function ValidatePathParameter(paramName: string, paramValue: string, paramType: string): Result<ParamValue, string>
  {
    if paramType == "int64" then
      match ParseInt64(paramValue)
      case None => Err(NotAnInteger(paramName))
      case Some(value) => if value <= 0 then Err(NotPositive(paramName)) else Ok(Int64Value(value))
    else if paramType == "string" then
      if Trim(paramValue, IsSpace) == "" then Err(EmptyString(paramName)) else Ok(StringValue(paramValue))
    else
      Ok(StringValue(paramValue))
  }

  /** Every positive int64, written in decimal, is accepted as an "int64" parameter and read back as itself. */
  lemma PositiveIntegerAccepted(paramName: string, n: int64)
    requires n > 0
    ensures ValidatePathParameter(paramName, FormatInt(n), "int64") == Ok(Int64Value(n))
  {
    ParseFormatInt(n);
  }

  /** Zero and every negative int64, written in decimal, is refused as not positive. */
  lemma NonPositiveIntegerRefused(paramName: string, n: int64)
    requires n <= 0
    ensures ValidatePathParameter(paramName, FormatInt(n), "int64") == Err(NotPositive(paramName))
  {
    ParseFormatInt(n);
  }

  /**
   * An "int64" parameter is accepted exactly when it parses as a positive
   * int64, and then the parsed value is returned; a value that does not
   * parse — the empty string, a stray character, an overflow — is refused
   * as not an integer.
   */
  lemma Int64Parameter(paramName: string, paramValue: string)
    ensures var r := ValidatePathParameter(paramName, paramValue, "int64");
      && (r.Ok? <==> ParseInt64(paramValue).Some? && ParseInt64(paramValue).value > 0)
      && (r.Ok? ==> r.value == Int64Value(ParseInt64(paramValue).value))
      && (ParseInt64(paramValue) == None ==> r == Err(NotAnInteger(paramName)))
      && (paramValue == "" ==> r == Err(NotAnInteger(paramName)))
  {
  }

  /** An accepted unsigned "int64" parameter is all decimal digits, and its value is their value. */
  lemma Int64ParameterDigits(paramName: string, paramValue: string)
    requires ValidatePathParameter(paramName, paramValue, "int64").Ok?
    requires paramValue[0] != '+' && paramValue[0] != '-'
    ensures AllDigits(paramValue)
    ensures ValidatePathParameter(paramName, paramValue, "int64").value.n == DigitsValue(paramValue)
  {
  }

  /**
   * A "string" parameter is refused exactly when it is empty or all white
   * space, and an accepted one comes back unchanged, not trimmed.
   */
  lemma StringParameter(paramName: string, paramValue: string)
    ensures var r := ValidatePathParameter(paramName, paramValue, "string");
      && (r.Err? <==> forall i :: 0 <= i < |paramValue| ==> IsSpace(paramValue[i]))
      && (r.Err? ==> r.error == EmptyString(paramName))
      && (r.Ok? ==> r.value == StringValue(paramValue))
  {
    TrimSpec(paramValue, IsSpace);
  }

  /** Any other type passes the value through unchanged and never fails. */
  lemma OtherParameter(paramName: string, paramValue: string, paramType: string)
    requires paramType != "int64" && paramType != "string"
    ensures ValidatePathParameter(paramName, paramValue, paramType) == Ok(StringValue(paramValue))
  {
  }

  /** Every error names the parameter, quoted, after the word "parameter". */
  lemma ErrorNamesParameter(paramName: string, paramValue: string, paramType: string)
    ensures var r := ValidatePathParameter(paramName, paramValue, paramType);
      var prefix := "parameter '" + paramName + "'";
      r.Err? ==> |prefix| <= |r.error| && r.error[..|prefix|] == prefix
  {
  }

  // ---------------------------------------------------------------- product IDs

  /** validateProductID: the field is a non-empty base-10 int64. */
  predicate ValidProductID(productID: string)
  {
    if productID == "" then false else ParseInt64(productID).Some?
  }

  /** The empty check is subsumed by parsing: a product ID is valid exactly when it parses. */
  lemma ValidProductIDParses(productID: string)
    ensures ValidProductID(productID) <==> ParseInt64(productID).Some?
    ensures !ValidProductID("")
  {
  }

  /** The decimal form of every int64 is a valid product ID. */
  lemma FormattedProductID(n: int64)
    ensures ValidProductID(FormatInt(n))
  {
    ParseFormatInt(n);
  }

  // ---------------------------------------------------------------- API key

  /** c.GetHeader(name): the header's value, or "" when the request has none. */
  function GetHeader(headers: map<string, string>, name: string): string
  {
    if name in headers then headers[name] else ""
  }

  /** The API key a request presents: the first non-empty of the headers api_key, Api-Key, API-Key. */
  function PresentedKey(headers: map<string, string>): (apiKey: string)
    ensures apiKey == "" <==>
      GetHeader(headers, "api_key") == "" && GetHeader(headers, "Api-Key") == "" && GetHeader(headers, "API-Key") == ""
  {
    var apiKey := GetHeader(headers, "api_key");
    var apiKey := if apiKey == "" then GetHeader(headers, "Api-Key") else apiKey;
    if apiKey == "" then GetHeader(headers, "API-Key") else apiKey
  }

  /** ValidateAPIKey: the presented key equals the expected one. */
  predicate ValidateAPIKey(headers: map<string, string>, key: string)
  {
    PresentedKey(headers) == key
  }

  /**
   * The header order decides: a non-empty api_key header is the only one
   * looked at; Api-Key counts only when api_key is empty, and API-Key only
   * when both are.
   */
  lemma APIKeyPrecedence(headers: map<string, string>, key: string)
    ensures GetHeader(headers, "api_key") != "" ==>
      (ValidateAPIKey(headers, key) <==> GetHeader(headers, "api_key") == key)
    ensures GetHeader(headers, "api_key") == "" && GetHeader(headers, "Api-Key") != "" ==>
      (ValidateAPIKey(headers, key) <==> GetHeader(headers, "Api-Key") == key)
    ensures GetHeader(headers, "api_key") == "" && GetHeader(headers, "Api-Key") == "" ==>
      (ValidateAPIKey(headers, key) <==> GetHeader(headers, "API-Key") == key)
  {
  }

  /** A request without a non-empty key header is refused whenever some key is configured. */
  lemma MissingKeyRefused(headers: map<string, string>, key: string)
    requires key != ""
    requires GetHeader(headers, "api_key") == "" && GetHeader(headers, "Api-Key") == ""
    requires GetHeader(headers, "API-Key") == ""
    ensures !ValidateAPIKey(headers, key)
  {
  }

  /** Headers other than the three key headers play no part. */
  lemma OtherHeadersIgnored(headers: map<string, string>, name: string, value: string, key: string)
    requires name != "api_key" && name != "Api-Key" && name != "API-Key"
    ensures ValidateAPIKey(headers[name := value], key) == ValidateAPIKey(headers, key)
  {
    assert GetHeader(headers[name := value], "api_key") == GetHeader(headers, "api_key");
    assert GetHeader(headers[name := value], "Api-Key") == GetHeader(headers, "Api-Key");
    assert GetHeader(headers[name := value], "API-Key") == GetHeader(headers, "API-Key");
  }

  /** The cases of the ValidateAPIKey table test, with the key "apitest". */
  lemma APIKeyTable()
    ensures ValidateAPIKey(map["api_key" := "apitest"], "apitest")
    ensures ValidateAPIKey(map["Api-Key" := "apitest"], "apitest")
    ensures ValidateAPIKey(map["API-Key" := "apitest"], "apitest")
    ensures !ValidateAPIKey(map["api_key" := "invalid"], "apitest")
    ensures !ValidateAPIKey(map[], "apitest")
    ensures !ValidateAPIKey(map["api_key" := ""], "apitest")
  {
  }

  /** With no key configured, a request carrying no key header passes. */
  lemma EmptyKeyAcceptsMissingHeader()
    ensures ValidateAPIKey(map[], "")
  {
  }

  // ---------------------------------------------------------------- error responses

  const STATUS_UNPROCESSABLE_ENTITY: int := 422

  /** ErrorResponse, the JSON body of an error reply. */
  datatype ErrorResponse = ErrorResponse(code: int, errorType: string, message: string)

  /** SendErrorResponse: the status written and the body sent with it. */
  datatype Reply = Reply(status: int, body: ErrorResponse)

  function ErrorReply(statusCode: int, errorType: string, message: string): Reply
  {
    Reply(statusCode, ErrorResponse(statusCode, errorType, message))
  }

  /** SendValidationError: a 422 reply whose message lists the errors, separated by "; ". */
  function ValidationErrorReply(errors: seq<string>): Reply
  {
    var message := if |errors| > 0 then Join(errors, "; ") else "Validation failed";
    ErrorReply(STATUS_UNPROCESSABLE_ENTITY, "validation_error", message)
  }

  /**
   * The reply always has status and code 422 and type validation_error; the
   * message is "Validation failed" for no errors, the error itself for one,
   * and one more error appends "; " and that error.
   */
  lemma ValidationErrorMessage(errors: seq<string>, e: string)
    ensures var r := ValidationErrorReply(errors);
      r.status == 422 && r.body.code == 422 && r.body.errorType == "validation_error"
    ensures ValidationErrorReply([]).body.message == "Validation failed"
    ensures ValidationErrorReply([e]).body.message == e
    ensures |errors| > 0 ==>
      ValidationErrorReply(errors + [e]).body.message == ValidationErrorReply(errors).body.message + "; " + e
  {
    if |errors| > 0 {
      JoinAppend(errors, [e], "; ");
    }
  }

  /** Errors listed in two groups give the two groups' messages joined by "; ". */
  lemma ValidationErrorGroups(a: seq<string>, b: seq<string>)
    requires |a| > 0 && |b| > 0
    ensures ValidationErrorReply(a + b).body.message ==
      ValidationErrorReply(a).body.message + "; " + ValidationErrorReply(b).body.message
  {
    JoinAppend(a, b, "; ");
  }
}
