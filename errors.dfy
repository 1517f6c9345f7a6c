/** The exception taxonomy of the mapper and the translation of DynamoDB
    client errors into it (dynantic/exceptions.py). */
module Errors {
  import opened Common
  import opened Values

  /** A botocore `ClientError`: the `Code` and `Message` of its `Error`
      response part when present, and the text `str(e)` would give. */
  datatype ClientFault = ClientFault(code: Option<string>, message: Option<string>, text: string)

  /** What a wrapping exception keeps as `original_error`. */
  datatype Cause =
    | FromClient(fault: ClientFault)
    | FromTypeError

  /** The subclass of `DynanticError` and the attributes it adds. */
  datatype ErrorKind =
    | Generic
    | TableNotFound(tableName: string)
    | ItemNotFound(keyText: string)
    | ConditionalCheckFailed(condition: Option<string>)
    | ProvisionedThroughputExceeded
    | ItemCollectionSizeLimit
    | TransactionConflict
    | RequestTimeout
    | Validation(field: Option<string>, value: Option<Native>)
    | Serialization

  datatype DynanticError = DynanticError(kind: ErrorKind, message: string, originalError: Option<Cause>)

  /** Anything the core raises: one of its own errors, or a plain Python
      `ValueError` / `TypeError` / `AttributeError`. */
  datatype Error =
    | Dynantic(err: DynanticError)
    | ValueError(msg: string)
    | TypeError(msg: string)
    | AttributeError(msg: string)

  const DefaultThrottleMessage: string := "Request rate exceeded"
  const DefaultCollectionSizeMessage: string := "Item collection size limit exceeded"
  const DefaultConflictMessage: string := "Transaction conflict"
  const DefaultTimeoutMessage: string := "Request timed out"

  function TableNotFoundError(tableName: string, cause: Option<Cause>): DynanticError
  {
    DynanticError(TableNotFound(tableName), "Table '" + tableName + "' not found", cause)
  }

  function ItemNotFoundError(keyText: string, cause: Option<Cause>): DynanticError
  {
    DynanticError(ItemNotFound(keyText), "Item with key " + keyText + " not found", cause)
  }

  /** The message names the condition only when one is given and non-empty. */
  function ConditionalCheckFailedError(condition: Option<string>, cause: Option<Cause>): (e: DynanticError)
    ensures e.kind == ConditionalCheckFailed(condition)
    ensures !Given(condition) <==> e.message == "Conditional check failed"
    ensures Given(condition) ==> e.message == "Conditional check failed: " + condition.value
  {
    var msg := "Conditional check failed";
    DynanticError(ConditionalCheckFailed(condition),
      if Given(condition) then msg + ": " + condition.value else msg, cause)
  }

  function SerializationError(message: string, cause: Option<Cause>): DynanticError
  {
    DynanticError(Serialization, message, cause)
  }

  /** The eleven error codes that map to a dedicated subclass. */
  const KnownCodes: set<string> := {
    "ResourceNotFoundException",
    "ConditionalCheckFailedException",
    "ProvisionedThroughputExceededException", "ThrottlingException", "RequestLimitExceeded",
    "ValidationException", "SerializationException",
    "ItemCollectionSizeLimitExceededException",
    "TransactionConflictException",
    "RequestTimeout", "RequestTimeoutException"
  }

  /** The code read from the response, `"Unknown"` when absent. */
  function CodeOf(fault: ClientFault): string
  {
    if fault.code.Some? then fault.code.value else "Unknown"
  }

  /** The message read from the response, `str(e)` when absent. */
  function MessageOf(fault: ClientFault): string
  {
    if fault.message.Some? then fault.message.value else fault.text
  }

  predicate Contains(haystack: string, needle: string)
  {
    exists i, j :: 0 <= i <= j <= |haystack| && haystack[i..j] == needle
  }

  /** `handle_dynamo_errors`: the error raised in place of a client error.
      Every translated error keeps the client error as its cause; exactly
      the codes outside `KnownCodes` become a generic error whose message
      names both the code and the client's message; the throttling,
      validation, size-limit, conflict and timeout errors carry the client's
      message unchanged. */
  function Translate(fault: ClientFault, tableName: Option<string>): (e: DynanticError)
    ensures e.originalError == Some(FromClient(fault))
    ensures e.kind.Generic? <==> CodeOf(fault) !in KnownCodes
    ensures e.kind.Generic? ==> Contains(e.message, CodeOf(fault)) && Contains(e.message, MessageOf(fault))
    ensures e.kind.Generic? ==> e.message == "DynamoDB error (" + CodeOf(fault) + "): " + MessageOf(fault)
    ensures e.kind.TableNotFound? <==> CodeOf(fault) == "ResourceNotFoundException"
    ensures e.kind.TableNotFound? ==> e.kind.tableName == (if Given(tableName) then tableName.value else "unknown")
    ensures e.kind.TableNotFound? ==> e.message == "Table '" + e.kind.tableName + "' not found"
    ensures e.kind.ConditionalCheckFailed? <==> CodeOf(fault) == "ConditionalCheckFailedException"
    ensures e.kind.ConditionalCheckFailed? ==> e.kind.condition == None && e.message == "Conditional check failed"
    ensures e.kind.ProvisionedThroughputExceeded? <==>
      CodeOf(fault) in {"ProvisionedThroughputExceededException", "ThrottlingException", "RequestLimitExceeded"}
    ensures e.kind.Validation? <==> CodeOf(fault) in {"ValidationException", "SerializationException"}
    ensures e.kind.ItemCollectionSizeLimit? <==> CodeOf(fault) == "ItemCollectionSizeLimitExceededException"
    ensures e.kind.TransactionConflict? <==> CodeOf(fault) == "TransactionConflictException"
    ensures e.kind.RequestTimeout? <==> CodeOf(fault) in {"RequestTimeout", "RequestTimeoutException"}
    ensures (e.kind.ProvisionedThroughputExceeded? || e.kind.Validation? || e.kind.ItemCollectionSizeLimit?
             || e.kind.TransactionConflict? || e.kind.RequestTimeout?) ==> e.message == MessageOf(fault)
    ensures e.kind.Validation? ==> e.kind.field == None && e.kind.value == None
    ensures !e.kind.Serialization? && !e.kind.ItemNotFound?
  {
    var code := CodeOf(fault);
    var msg := MessageOf(fault);
    var cause := Some(FromClient(fault));
    if code == "ResourceNotFoundException" then
      TableNotFoundError(if Given(tableName) then tableName.value else "unknown", cause)
    else if code == "ConditionalCheckFailedException" then
      ConditionalCheckFailedError(None, cause)
    else if code in {"ProvisionedThroughputExceededException", "ThrottlingException", "RequestLimitExceeded"} then
      DynanticError(ProvisionedThroughputExceeded, msg, cause)
    else if code in {"ValidationException", "SerializationException"} then
      DynanticError(Validation(None, None), msg, cause)
    else if code == "ItemCollectionSizeLimitExceededException" then
      DynanticError(ItemCollectionSizeLimit, msg, cause)
    else if code == "TransactionConflictException" then
      DynanticError(TransactionConflict, msg, cause)
    else if code in {"RequestTimeout", "RequestTimeoutException"} then
      DynanticError(RequestTimeout, msg, cause)
    else
      var text := "DynamoDB error (" + code + "): " + msg;
      assert text[16..16 + |code|] == code;
      assert text[|text| - |msg|..|text|] == msg;
      DynanticError(Generic, text, cause)
  }

  /** The throttling family all becomes one error kind. */
  lemma ThrottlingCodesAgree(fault: ClientFault, tableName: Option<string>)
    requires CodeOf(fault) in {"ProvisionedThroughputExceededException", "ThrottlingException", "RequestLimitExceeded"}
    ensures Translate(fault, tableName).kind == ProvisionedThroughputExceeded
  {
  }

  /** A response without an error code is the generic `Unknown` error. */
  lemma MissingCodeIsUnknown(fault: ClientFault, tableName: Option<string>)
    requires fault.code.None?
    ensures Translate(fault, tableName).kind == Generic
    ensures Translate(fault, tableName).message == "DynamoDB error (Unknown): " + MessageOf(fault)
  {
  }

  /** The table name only ever matters for a missing table. */
  lemma TableNameOnlyForMissingTable(fault: ClientFault, t1: Option<string>, t2: Option<string>)
    requires CodeOf(fault) != "ResourceNotFoundException"
    ensures Translate(fault, t1) == Translate(fault, t2)
  {
  }
}
