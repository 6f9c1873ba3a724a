/**
 * The serverless entry point: a request event carrying a base64 image is
 * answered with a status-coded JSON response envelope.
 */
module Ocr {
  import opened Wrappers
  import opened JsonValue
  import opened PyExc
  import opened Gemini
  import opened Reply
  import opened PyStr

  /**
   * The external calls: `json.loads` (a value, or the decoder's message),
   * `base64.b64decode` on a string, and the model call.
   */
  datatype Services = Services(
    loads: string -> Result<Json, string>,
    b64decode: string -> Result<seq<byte>, string>,
    generate: ImagePart -> Result<string, string>)

  /** The `{statusCode, headers, body}` envelope; `body` is the value that `json.dumps` serialises. */
  datatype Response = Response(statusCode: int, headers: map<string, string>, body: Json)

  /** The arguments `process_invoice` was called with. */
  datatype InvoiceCall = InvoiceCall(imageData: Json, mimeType: Json)

  /** The response, and the call to `process_invoice` made on the way, if any. */
  datatype HandlerRun = HandlerRun(response: Response, invoked: Option<InvoiceCall>)

  /** The body of the `try` block: a response, or the exception that leaves it. */
  datatype Attempt = Attempt(result: Result<Response, Exc>, invoked: Option<InvoiceCall>)

  /** The request event: the keys of the handler's `event` dictionary. */
  type Event = map<string, Json>

  const DefaultMime: string := "image/jpeg"
  const JsonHeaders: map<string, string> := map["Content-Type" := "application/json"]
  const GeminiErrorPrefix: string := "Error processing image with Gemini: "
  const InternalErrorPrefix: string := "Internal server error: "
  const NoImageDataMsg: string := "No image_data provided in the request body."
  const InvalidJsonMsg: string := "Invalid JSON in request body."
  const MissingFieldMsg: string := "Request body must contain an 'image_data' field."

  /** `base64.b64decode(x)`: anything but a string is refused with a `TypeError`. */
  function B64Decode(data: Json, b64decode: string -> Result<seq<byte>, string>): (r: Result<seq<byte>, string>)
    ensures !data.JString? ==> r.Failure?
    ensures data.JString? ==> r == b64decode(data.str)
  {
    match data
    case JString(s) => b64decode(s)
    case _ => Failure("argument should be a bytes-like object or ASCII string, not '" + TypeName(data) + "'")
  }

  /**
   * `gemini_output`: the decoded image and the given MIME object form the
   * image part; any failure is re-raised as a plain `Exception`.
   */
  function GeminiOutput(imageData: Json, mimeType: Json, svc: Services): (r: Result<string, Exc>)
    ensures r.Failure? ==> r.error.cls == Exception && StartsWith(r.error.msg, GeminiErrorPrefix)
    ensures r.Success? <==>
              && B64Decode(imageData, svc.b64decode).Success?
              && svc.generate(ImagePart(mimeType, B64Decode(imageData, svc.b64decode).value)).Success?
    ensures r.Success? ==>
              r.value == svc.generate(ImagePart(mimeType, B64Decode(imageData, svc.b64decode).value)).value
    ensures B64Decode(imageData, svc.b64decode).Failure? ==>
              r == Failure(Exc(Exception, GeminiErrorPrefix + B64Decode(imageData, svc.b64decode).error))
    ensures B64Decode(imageData, svc.b64decode).Success?
            && svc.generate(ImagePart(mimeType, B64Decode(imageData, svc.b64decode).value)).Failure? ==>
              r == Failure(Exc(Exception, GeminiErrorPrefix
                                          + svc.generate(ImagePart(mimeType, B64Decode(imageData, svc.b64decode).value)).error))
  {
    match B64Decode(imageData, svc.b64decode)
    case Failure(m) => Failure(Exc(Exception, GeminiErrorPrefix + m))
    case Success(bytes) =>
      match svc.generate(ImagePart(mimeType, bytes))
      case Failure(m) => Failure(Exc(Exception, GeminiErrorPrefix + m))
      case Success(text) => Success(text)
  }

  /** `process_invoice`: model call, reply clean-up, parse. */
  function ProcessInvoice(imageData: Json, mimeType: Json, svc: Services): (r: Result<Json, Exc>)
    ensures r.Failure? ==> r.error.cls in {Exception, ValueError}
    ensures r.Failure? ==> !IsSubclass(r.error.cls, JSONDecodeError) && !IsSubclass(r.error.cls, KeyError)
    ensures GeminiOutput(imageData, mimeType, svc).Failure? ==> r == Failure(GeminiOutput(imageData, mimeType, svc).error)
    ensures GeminiOutput(imageData, mimeType, svc).Success? ==>
              r == ParseReply(GeminiOutput(imageData, mimeType, svc).value, svc.loads)
  {
    CatchClauses(Exception);
    CatchClauses(ValueError);
    match GeminiOutput(imageData, mimeType, svc)
    case Failure(e) => Failure(e)
    case Success(output) => ParseReply(output, svc.loads)
  }

  /** `json.loads(x)`: a string is decoded, anything else is refused with a `TypeError`. */
  function LoadsBody(body: Json, loads: string -> Result<Json, string>): (r: Result<Json, Exc>)
    ensures r.Failure? && r.error.cls == JSONDecodeError <==> body.JString? && loads(body.str).Failure?
    ensures r.Failure? ==> r.error.cls in {JSONDecodeError, TypeError}
    ensures !body.JString? ==> r == Failure(Exc(TypeError, "the JSON object must be str, bytes or bytearray, not " + TypeName(body)))
    ensures body.JString? && loads(body.str).Success? ==> r == Success(loads(body.str).value)
  {
    match body
    case JString(s) =>
      (match loads(s)
       case Success(v) => Success(v)
       case Failure(m) => Failure(Exc(JSONDecodeError, m)))
    case _ => Failure(Exc(TypeError, "the JSON object must be str, bytes or bytearray, not " + TypeName(body)))
  }

  /** `body.get(key)`: `None` for a missing key. */
  function Get(fields: map<string, Json>, key: string): Json {
    if key in fields then fields[key] else JNull
  }

  /** `body.get('mime_type', 'image/jpeg')` */
  function MimeTypeOf(fields: map<string, Json>): Json {
    if "mime_type" in fields then fields["mime_type"] else JString(DefaultMime)
  }

  /** The statements inside the handler's `try`, up to the first exception. */
  function HandlerTry(event: Event, svc: Services): Attempt {
    if "body" !in event then
      Attempt(Failure(Exc(KeyError, "'body'")), None)
    else
      match LoadsBody(event["body"], svc.loads)
      case Failure(e) => Attempt(Failure(e), None)
      case Success(body) => TryBody(body, svc)
  }

  /** The `try` block once `json.loads` has produced the request object. */
  function TryBody(body: Json, svc: Services): Attempt {
    match body
    case JObject(fields) => TryFields(fields, svc)
    case _ => Attempt(Failure(Exc(AttributeError, "'" + TypeName(body) + "' object has no attribute 'get'")), None)
  }

  /** The `try` block once the request object is known to be a dictionary. */
  function TryFields(fields: map<string, Json>, svc: Services): Attempt {
    var imageData := Get(fields, "image_data");
    if !Truthy(imageData) then
      Attempt(Success(Response(400, JsonHeaders, ErrorBody(NoImageDataMsg))), None)
    else
      var call := InvoiceCall(imageData, MimeTypeOf(fields));
      match ProcessInvoice(call.imageData, call.mimeType, svc)
      case Success(result) => Attempt(Success(Response(200, JsonHeaders, result)), Some(call))
      case Failure(e) => Attempt(Failure(e), Some(call))
  }

  /**
   * The handler's `except` clauses, tried in order by subclass: only a
   * `JSONDecodeError` or a `KeyError` is a client error, and every other
   * class, a plain `ValueError` included, falls through to `except Exception`.
   */
  function Catch(e: Exc): (r: Response)
    ensures e.cls == JSONDecodeError ==> r == Response(400, JsonHeaders, ErrorBody(InvalidJsonMsg))
    ensures e.cls == KeyError ==> r == Response(400, JsonHeaders, ErrorBody(MissingFieldMsg))
    ensures e.cls !in {JSONDecodeError, KeyError} ==> r == Response(500, JsonHeaders, ErrorBody(InternalErrorPrefix + e.msg))
  {
    CatchClauses(e.cls);
    if IsSubclass(e.cls, JSONDecodeError) then Response(400, JsonHeaders, ErrorBody(InvalidJsonMsg))
    else if IsSubclass(e.cls, KeyError) then Response(400, JsonHeaders, ErrorBody(MissingFieldMsg))
    else Response(500, JsonHeaders, ErrorBody(InternalErrorPrefix + e.msg))
  }

  /** The request object `json.loads` makes of the event's body, when the body is a string that decodes. */
  function DecodedBody(event: Event, loads: string -> Result<Json, string>): Option<Json> {
    if "body" in event && event["body"].JString? && loads(event["body"].str).Success? then
      Some(loads(event["body"].str).value)
    else
      None
  }

  /** The request is well-formed and names an image: `process_invoice` is reached. */
  predicate ReachesInvoice(event: Event, loads: string -> Result<Json, string>) {
    var body := DecodedBody(event, loads);
    body.Some? && body.value.JObject? && Truthy(Get(body.value.fields, "image_data"))
  }

  /**
   * The three client errors: no body key, a body string that is not
   * JSON, or a JSON object whose image data is missing or falsy.
   */
  predicate BadRequest(event: Event, loads: string -> Result<Json, string>) {
    || "body" !in event
    || (event["body"].JString? && loads(event["body"].str).Failure?)
    || (var body := DecodedBody(event, loads);
        body.Some? && body.value.JObject? && !Truthy(Get(body.value.fields, "image_data")))
  }

  /** `lambda_handler` */
  function Handle(event: Event, svc: Services): (run: HandlerRun)
    ensures run.response.headers == JsonHeaders
    ensures run.response.statusCode in {200, 400, 500}
  {
    var attempt := HandlerTry(event, svc);
    match attempt.result
    case Success(response) => HandlerRun(response, attempt.invoked)
    case Failure(e) => HandlerRun(Catch(e), attempt.invoked)
  }

  /**
   * The decision table of the handler: which requests are client errors,
   * which reach `process_invoice`, and which succeed.
   */
  lemma HandleClassification(event: Event, svc: Services)
    ensures Handle(event, svc).invoked.Some? <==> ReachesInvoice(event, svc.loads)
    ensures Handle(event, svc).response.statusCode == 400 <==> BadRequest(event, svc.loads)
    ensures Handle(event, svc).response.statusCode == 200 <==>
              && ReachesInvoice(event, svc.loads)
              && var call := Handle(event, svc).invoked.value;
                 ProcessInvoice(call.imageData, call.mimeType, svc).Success?
  {
    if "body" !in event {
      HandleMissingBody(event, svc);
    } else if !event["body"].JString? {
      HandleNonStringBody(event, svc);
    } else if svc.loads(event["body"].str).Failure? {
      HandleInvalidJson(event, svc);
    } else if !DecodedBody(event, svc.loads).value.JObject? {
      HandleNonObjectBody(event, svc);
    } else if !ReachesInvoice(event, svc.loads) {
      HandleNoImageData(event, svc, svc.b64decode, svc.generate);
    } else {
      HandleReached(event, svc);
    }
  }

  /** An event without a "body" key is a 400, reported with the image_data message. */
  lemma HandleMissingBody(event: Event, svc: Services)
    requires "body" !in event
    ensures Handle(event, svc) == HandlerRun(Response(400, JsonHeaders, ErrorBody(MissingFieldMsg)), None)
  {
    assert IsSubclass(KeyError, KeyError);
  }

  /** A body string that is not JSON is a 400. */
  lemma HandleInvalidJson(event: Event, svc: Services)
    requires "body" in event && event["body"].JString?
    requires svc.loads(event["body"].str).Failure?
    ensures Handle(event, svc) == HandlerRun(Response(400, JsonHeaders, ErrorBody(InvalidJsonMsg)), None)
  {
  }

  /** A body that is not a string (JSON null, say) makes `json.loads` raise `TypeError`: a 500. */
  lemma HandleNonStringBody(event: Event, svc: Services)
    requires "body" in event && !event["body"].JString?
    ensures Handle(event, svc).response == Response(500, JsonHeaders, ErrorBody(
              InternalErrorPrefix + "the JSON object must be str, bytes or bytearray, not " + TypeName(event["body"])))
  {
    var msg := "the JSON object must be str, bytes or bytearray, not " + TypeName(event["body"]);
    CatchClauses(TypeError);
    assert Handle(event, svc).response == Catch(Exc(TypeError, msg));
    assert InternalErrorPrefix + msg
        == InternalErrorPrefix + "the JSON object must be str, bytes or bytearray, not " + TypeName(event["body"]);
  }

  /** A body that decodes to something other than an object has no `get`: a 500, not a 400. */
  lemma HandleNonObjectBody(event: Event, svc: Services)
    requires DecodedBody(event, svc.loads).Some? && !DecodedBody(event, svc.loads).value.JObject?
    ensures Handle(event, svc).response == Response(500, JsonHeaders, ErrorBody(
              InternalErrorPrefix + "'" + TypeName(DecodedBody(event, svc.loads).value) + "' object has no attribute 'get'"))
    ensures Handle(event, svc).invoked.None?
  {
    var body := DecodedBody(event, svc.loads).value;
    var msg := "'" + TypeName(body) + "' object has no attribute 'get'";
    CatchClauses(AttributeError);
    assert Handle(event, svc) == HandlerRun(Catch(Exc(AttributeError, msg)), None);
    assert InternalErrorPrefix + msg == InternalErrorPrefix + "'" + TypeName(body) + "' object has no attribute 'get'";
  }

  /**
   * Missing, null, empty or otherwise falsy image data is a 400, and the
   * decoder and the model are never consulted.
   */
  lemma HandleNoImageData(event: Event, svc: Services,
                          b64decode: string -> Result<seq<byte>, string>,
                          generate: ImagePart -> Result<string, string>)
    requires DecodedBody(event, svc.loads).Some? && DecodedBody(event, svc.loads).value.JObject?
    requires !Truthy(Get(DecodedBody(event, svc.loads).value.fields, "image_data"))
    ensures Handle(event, svc) == HandlerRun(Response(400, JsonHeaders, ErrorBody(NoImageDataMsg)), None)
    ensures Handle(event, svc) == Handle(event, Services(svc.loads, b64decode, generate))
  {
    var body := DecodedBody(event, svc.loads).value;
    assert LoadsBody(event["body"], svc.loads) == Success(body);
    assert HandlerTry(event, svc) == TryFields(body.fields, svc);
  }

  /** Once reached, `process_invoice` decides the response: 200 with its result, or the `except` clauses. */
  lemma HandleReached(event: Event, svc: Services)
    requires ReachesInvoice(event, svc.loads)
    ensures var fields := DecodedBody(event, svc.loads).value.fields;
            var call := InvoiceCall(Get(fields, "image_data"),
                                    MimeTypeOf(fields));
            Handle(event, svc) ==
              match ProcessInvoice(call.imageData, call.mimeType, svc)
              case Success(result) => HandlerRun(Response(200, JsonHeaders, result), Some(call))
              case Failure(e) => HandlerRun(Response(500, JsonHeaders, ErrorBody(InternalErrorPrefix + e.msg)), Some(call))
  {
    var body := DecodedBody(event, svc.loads).value;
    assert LoadsBody(event["body"], svc.loads) == Success(body);
    assert HandlerTry(event, svc) == TryFields(body.fields, svc);
  }

  /**
   * The image data is passed on as sent; the MIME type is "image/jpeg"
   * only when the key is absent, and otherwise passed on as sent, null included.
   */
  lemma HandleMimeType(event: Event, svc: Services)
    requires ReachesInvoice(event, svc.loads)
    ensures var fields := DecodedBody(event, svc.loads).value.fields;
            && Handle(event, svc).invoked.Some?
            && Handle(event, svc).invoked.value.imageData == fields["image_data"]
            && ("mime_type" !in fields ==> Handle(event, svc).invoked.value.mimeType == JString("image/jpeg"))
            && ("mime_type" in fields ==> Handle(event, svc).invoked.value.mimeType == fields["mime_type"])
  {
    HandleReached(event, svc);
  }

  /** The whole success path: the parsed reply of the model, asked with the request's MIME object, is the 200 body. */
  lemma HandleSuccess(event: Event, svc: Services, mimeType: Json, bytes: seq<byte>, reply: string, result: Json)
    requires ReachesInvoice(event, svc.loads)
    requires var fields := DecodedBody(event, svc.loads).value.fields;
             && B64Decode(fields["image_data"], svc.b64decode) == Success(bytes)
             && mimeType == MimeTypeOf(fields)
    requires svc.generate(ImagePart(mimeType, bytes)) == Success(reply)
    requires svc.loads(CleanReply(reply)) == Success(result)
    ensures Handle(event, svc).response == Response(200, JsonHeaders, result)
  {
    HandleReached(event, svc);
  }

  /**
   * A reply that does not parse after clean-up is a 500 whose message
   * carries the parse failure and the cleaned reply: the `ValueError` is
   * not caught as a `JSONDecodeError`.
   */
  lemma HandleUnparseableReply(event: Event, svc: Services, mimeType: Json, bytes: seq<byte>, reply: string, detail: string)
    requires ReachesInvoice(event, svc.loads)
    requires var fields := DecodedBody(event, svc.loads).value.fields;
             && B64Decode(fields["image_data"], svc.b64decode) == Success(bytes)
             && mimeType == MimeTypeOf(fields)
    requires svc.generate(ImagePart(mimeType, bytes)) == Success(reply)
    requires svc.loads(CleanReply(reply)) == Failure(detail)
    ensures Handle(event, svc).response ==
              Response(500, JsonHeaders, ErrorBody(InternalErrorPrefix + ParseFailureMessage(detail, CleanReply(reply))))
  {
    HandleReached(event, svc);
  }

  /** A failed decode or model call is a 500 carrying "Error processing image with Gemini: " and the cause. */
  lemma HandleUpstreamFailure(event: Event, svc: Services, mimeType: Json, cause: string)
    requires ReachesInvoice(event, svc.loads)
    requires var fields := DecodedBody(event, svc.loads).value.fields;
             && mimeType == MimeTypeOf(fields)
             && var decoded := B64Decode(fields["image_data"], svc.b64decode);
                || decoded == Failure(cause)
                || (decoded.Success? && svc.generate(ImagePart(mimeType, decoded.value)) == Failure(cause))
    ensures Handle(event, svc).response ==
              Response(500, JsonHeaders, ErrorBody(InternalErrorPrefix + GeminiErrorPrefix + cause))
  {
    HandleReached(event, svc);
    var fields := DecodedBody(event, svc.loads).value.fields;
    var g := GeminiOutput(fields["image_data"], mimeType, svc);
    assert g == Failure(Exc(Exception, GeminiErrorPrefix + cause)) by {
      if B64Decode(fields["image_data"], svc.b64decode).Success? {
        assert svc.generate(ImagePart(mimeType, B64Decode(fields["image_data"], svc.b64decode).value)) == Failure(cause);
      }
    }
    assert ProcessInvoice(fields["image_data"], mimeType, svc) == Failure(g.error);
    ConcatAssoc(InternalErrorPrefix, GeminiErrorPrefix, cause);
  }
}
