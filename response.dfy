/** The JSON envelopes every endpoint answers with: `{code, message, data}` on success and
    `{code, message, errors}` on failure, with `code` equal to the HTTP status. */
module Response {

  /** The JSON values a response body can carry. */
  datatype Json =
    | JNull
    | JBool(b: bool)
    | JInt(i: int)
    | JStr(s: string)
    | JList(items: seq<Json>)
    | JObject(fields: map<string, Json>)

  /** Python truthiness of the value a JSON document decodes to. */
  predicate Truthy(j: Json)
  {
    match j
    case JNull => false
    case JBool(b) => b
    case JInt(i) => i != 0
    case JStr(s) => s != ""
    case JList(items) => items != []
    case JObject(fields) => fields != map[]
  }

  /** A JSONResponse: the HTTP status and the top-level object of its body. */
  datatype JsonResponse = JsonResponse(statusCode: int, content: map<string, Json>)

  /** An HTTPException as raised by the controllers. */
  datatype HttpException = HttpException(statusCode: int, detail: Json)

  const HTTP_200_OK: int := 200
  const HTTP_422_UNPROCESSABLE_ENTITY: int := 422
  const SUCCESS_MESSAGE: string := "Success"
  const ERROR_MESSAGE: string := "Error occurred"
  const VALIDATION_MESSAGE: string := "Validation Failed"

  /** The envelope's `code` is the response's HTTP status. */
  predicate CodeIsStatus(r: JsonResponse)
  {
    "code" in r.content && r.content["code"] == JInt(r.statusCode)
  }

  /** response_success; `data` absent is JSON null. */
  function ResponseSuccess(data: Json := JNull, message: string := SUCCESS_MESSAGE, statusCode: int := HTTP_200_OK): (r: JsonResponse)
    ensures r.statusCode == statusCode
    ensures r.content.Keys == {"code", "message", "data"}
    ensures r.content["code"] == JInt(statusCode)
    ensures r.content["message"] == JStr(message)
    ensures r.content["data"] == data
  {
    JsonResponse(statusCode, map["code" := JInt(statusCode), "message" := JStr(message), "data" := data])
  }

  /** error_response; `errors` absent is JSON null, and `errors or []` keeps only a truthy value. */
  function ErrorResponse(statusCode: int, message: Json, errors: Json := JNull): (r: JsonResponse)
    ensures r.statusCode == statusCode
    ensures r.content.Keys == {"code", "message", "errors"}
    ensures r.content["code"] == JInt(statusCode)
    ensures r.content["message"] == message
    ensures errors == JNull || errors == JList([]) ==> r.content["errors"] == JList([])
    ensures errors.JList? && errors.items != [] ==> r.content["errors"] == errors
    ensures Truthy(r.content["errors"]) || r.content["errors"] == JList([])
  {
    var kept := if Truthy(errors) then errors else JList([]);
    JsonResponse(statusCode, map["code" := JInt(statusCode), "message" := message, "errors" := kept])
  }

  /** response_error: a string detail is both the message and the one error; any other detail
      becomes the error list under a generic message. */
  function ResponseError(e: HttpException): (r: JsonResponse)
    ensures r.statusCode == e.statusCode
    ensures r.content.Keys == {"code", "message", "errors"}
    ensures e.detail.JStr? ==> r.content["message"] == e.detail && r.content["errors"] == JList([e.detail])
    ensures !e.detail.JStr? ==> r.content["message"] == JStr(ERROR_MESSAGE)
    ensures !e.detail.JStr? && Truthy(e.detail) ==> r.content["errors"] == e.detail
    ensures !e.detail.JStr? && !Truthy(e.detail) ==> r.content["errors"] == JList([])
  {
    ErrorResponse(
      e.statusCode,
      if e.detail.JStr? then e.detail else JStr(ERROR_MESSAGE),
      if e.detail.JStr? then JList([e.detail]) else e.detail)
  }

  /** response_validation_error: always 422 with the validator's error list. */
  function ResponseValidationError(excErrors: seq<Json>): (r: JsonResponse)
    ensures r.statusCode == HTTP_422_UNPROCESSABLE_ENTITY
    ensures r.content.Keys == {"code", "message", "errors"}
    ensures r.content["message"] == JStr(VALIDATION_MESSAGE)
    ensures r.content["errors"] == JList(excErrors)
  {
    ErrorResponse(HTTP_422_UNPROCESSABLE_ENTITY, JStr(VALIDATION_MESSAGE), JList(excErrors))
  }

  /** Every envelope builder reports its HTTP status as `code`. */
  lemma CodeMatchesStatus(data: Json, message: string, statusCode: int, errors: Json, e: HttpException, excErrors: seq<Json>)
    ensures CodeIsStatus(ResponseSuccess(data, message, statusCode))
    ensures CodeIsStatus(ErrorResponse(statusCode, JStr(message), errors))
    ensures CodeIsStatus(ResponseError(e))
    ensures CodeIsStatus(ResponseValidationError(excErrors))
  {
  }

  /** With no arguments, response_success answers 200 "Success" with null data. */
  lemma ResponseSuccessDefaults()
    ensures ResponseSuccess() == JsonResponse(200, map["code" := JInt(200), "message" := JStr("Success"), "data" := JNull])
  {
  }
}
