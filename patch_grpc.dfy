/**
 * Capturing unary-unary gRPC calls: metadata conversion, and the
 * interceptor that runs the real call, hands one capture to the transport
 * and gives the caller the call's own outcome.
 */
module PatchGrpc {
  import opened Wrappers
  import opened PyStr
  import opened Config
  import opened GrpcCodes
  import opened GrpcTarget

  // ---------------------------------------------------------------------------
  // Metadata
  // ---------------------------------------------------------------------------

  /** gRPC metadata: a list of (key, value) pairs. */
  type Metadata = seq<(string, string)>

  /** No pair after position `i` has the key of the pair at `i`. */
  predicate IsLastOccurrence(pairs: Metadata, i: nat)
    requires i < |pairs|
  {
    forall j :: i < j < |pairs| ==> pairs[j].0 != pairs[i].0
  }

  /** `{k: v for k, v in pairs}`: the keys of the pairs, each mapped to the
      value it has at its last occurrence. */
  function PairsToDict(pairs: Metadata): (d: map<string, string>)
    ensures d.Keys == set i | 0 <= i < |pairs| :: pairs[i].0
    ensures forall i :: 0 <= i < |pairs| && IsLastOccurrence(pairs, i) ==> d[pairs[i].0] == pairs[i].1
  {
    if pairs == [] then map[]
    else
      var init := pairs[..|pairs| - 1];
      var last := pairs[|pairs| - 1];
      var d := PairsToDict(init)[last.0 := last.1];
      assert forall i :: 0 <= i < |init| ==> init[i] == pairs[i];
      d
  }

  /** `_metadata_to_dict`: no metadata gives the empty dict. */
  function MetadataToDict(metadata: Option<Metadata>): (d: map<string, string>)
    ensures metadata.None? ==> d == map[]
  {
    if metadata.None? then map[] else PairsToDict(metadata.value)
  }

  lemma MetadataToDictExample()
    ensures MetadataToDict(Some([("key1", "val1"), ("key2", "val2")]))
      == map["key1" := "val1", "key2" := "val2"]
  {
  }

  // ---------------------------------------------------------------------------
  // Captures
  // ---------------------------------------------------------------------------

  /** What one capture attempt hands to the serializer. */
  datatype CaptureRecord = CaptureRecord(
    library: string,
    httpMethod: string,
    url: string,
    requestHeaders: map<string, string>,
    requestBody: string,
    statusCode: int,
    responseHeaders: map<string, string>,
    responseBody: string,
    durationS: real)

  /** Every attempt to capture, and the captures that reached the transport
      queue; an attempt whose serialization or enqueue raises reaches no
      queue. */
  class CaptureSink {
    var attempts: seq<CaptureRecord>
    var queued: seq<CaptureRecord>

    constructor ()
      ensures attempts == [] && queued == []
    {
      attempts := [];
      queued := [];
    }

    /** `_send_capture`: tags the capture with library `grpc` and hands it
        on; `fails` says whether serializing or enqueueing raises. */
    method SendCapture(
      httpMethod: string, url: string, requestHeaders: map<string, string>,
      requestBody: string, statusCode: int, responseHeaders: map<string, string>,
      responseBody: string, durationS: real, fails: bool)
      returns (raised: bool)
      modifies this
      ensures raised == fails
      ensures attempts == old(attempts) + [CaptureRecord("grpc", httpMethod, url,
        requestHeaders, requestBody, statusCode, responseHeaders, responseBody, durationS)]
      ensures queued == if fails then old(queued) else old(queued) + [attempts[|attempts| - 1]]
    {
      var record := CaptureRecord("grpc", httpMethod, url, requestHeaders, requestBody,
        statusCode, responseHeaders, responseBody, durationS);
      attempts := attempts + [record];
      raised := fails;
      if !fails {
        queued := queued + [record];
      }
    }
  }

  // ---------------------------------------------------------------------------
  // The interceptor
  // ---------------------------------------------------------------------------

  /** A method name as the channel gives it: text or UTF-8 bytes. */
  datatype MethodName = Text(text: string) | Bytes(bytes: seq<bv8>)

  /** The parts of the client call details the interceptor reads. */
  datatype CallDetails = CallDetails(methodName: MethodName, metadata: Option<Metadata>)

  /** What `err.code()` gives: the status number (`value[0]`) and its name
      when the code object has one. */
  datatype ErrorCode = ErrorCode(value: int, name: Option<string>)

  /** An exception raised by the call: its text and, when the exception has
      a callable `code()` whose result has a `value`, that code. */
  datatype RpcError = RpcError(message: string, code: Option<ErrorCode>)

  /** What the call gives: a reply with optional trailing metadata, or the
      exception that `result()` raises. */
  datatype CallOutcome<Msg> = Success(reply: Msg, trailing: Option<Metadata>) | Failure(error: RpcError)

  /** What the caller of the interceptor observes: the call's own outcome,
      or the `UnicodeDecodeError` raised when a bytes method name is not
      UTF-8 (the call is then never made). */
  datatype Intercepted<Msg> = Passed(outcome: CallOutcome<Msg>) | MethodDecodeError

  /** The method name as text, if it can be had. */
  function MethodText(m: MethodName, decodeUtf8: seq<bv8> -> Option<string>): Option<string> {
    match m
    case Text(s) => Some(s)
    case Bytes(b) => decodeUtf8(b)
  }

  /** The URL recorded for a call. */
  function GrpcUrl(target: string, methodName: string): string {
    "grpc://" + target + methodName
  }

  /** Response headers of a successful call: the OK status fields, then the
      trailing metadata over them. */
  function SuccessHeaders(trailing: Option<Metadata>): map<string, string> {
    var fixed := map["grpc-status" := "0", "grpc-status-name" := "OK"];
    if trailing.Some? && trailing.value != [] then fixed + MetadataToDict(trailing) else fixed
  }

  /** The status number and name recorded for a failed call: UNKNOWN (2)
      unless the exception carries a code. */
  function ErrorStatus(e: RpcError): (int, string) {
    if e.code.None? then (2, "UNKNOWN")
    else (e.code.value.value, e.code.value.name.GetOr("UNKNOWN"))
  }

  /** Response headers of a failed call. */
  function ErrorHeaders(e: RpcError): map<string, string> {
    map["grpc-status" := IntToString(ErrorStatus(e).0), "grpc-status-name" := ErrorStatus(e).1]
  }

  /** The capture one intercepted call produces. */
  function CaptureOf<Msg>(
    url: string, requestHeaders: map<string, string>, requestBody: string,
    outcome: CallOutcome<Msg>, protoToJson: Msg -> string, elapsed: real): (c: CaptureRecord)
    ensures c.library == "grpc" && c.httpMethod == "POST" && c.url == url
    ensures c.requestHeaders == requestHeaders && c.requestBody == requestBody
    ensures c.durationS == elapsed
    ensures outcome.Success? ==> c.statusCode == 200
  {
    match outcome
    case Success(reply, trailing) =>
      CaptureRecord("grpc", "POST", url, requestHeaders, requestBody, GrpcStatusToHttp(0),
        SuccessHeaders(trailing), protoToJson(reply), elapsed)
    case Failure(e) =>
      CaptureRecord("grpc", "POST", url, requestHeaders, requestBody,
        GrpcStatusToHttp(ErrorStatus(e).0), ErrorHeaders(e), e.message, elapsed)
  }

  /** `_intercept_unary_unary`. The continuation's outcome, the clock
      reading and whether capturing raises are inputs; the protobuf
      rendering and UTF-8 decoding are functions given by the caller. */
  method InterceptUnaryUnary<Msg>(
    config: SmelloConfig, target: string, details: CallDetails, request: Msg,
    outcome: CallOutcome<Msg>, protoToJson: Msg -> string,
    decodeUtf8: seq<bv8> -> Option<string>, elapsed: real, captureFails: bool,
    sink: CaptureSink)
    returns (r: Intercepted<Msg>)
    modifies sink
    // Skip path: the call's outcome, untouched, and no capture.
    ensures !config.ShouldCapture(HostOf(target))
      ==> r == Passed(outcome) && unchanged(sink)
    // A bytes method name that does not decode escapes before the call.
    ensures config.ShouldCapture(HostOf(target))
      && MethodText(details.methodName, decodeUtf8).None?
      ==> r == MethodDecodeError && unchanged(sink)
    // Captured path: the call's outcome whether or not capturing fails,
    // and exactly one capture attempt.
    ensures config.ShouldCapture(HostOf(target))
      && MethodText(details.methodName, decodeUtf8).Some?
      ==> var record := CaptureOf(
            GrpcUrl(target, MethodText(details.methodName, decodeUtf8).value),
            MetadataToDict(details.metadata), protoToJson(request),
            outcome, protoToJson, elapsed);
          && r == Passed(outcome)
          && sink.attempts == old(sink.attempts) + [record]
          && sink.queued == if captureFails then old(sink.queued) else old(sink.queued) + [record]
  {
    var host := ExtractHost(target);
    if !config.ShouldCapture(host) {
      return Passed(outcome);
    }

    var methodName: string;
    match details.methodName {
      case Text(s) =>
        methodName := s;
      case Bytes(b) =>
        // a failing decode raises before the call is made
        var decoded := decodeUtf8(b);
        if decoded.None? {
          return MethodDecodeError;
        }
        methodName := decoded.value;
    }

    var url := "grpc://" + target + methodName;
    var requestHeaders := MetadataToDict(details.metadata);
    var requestBody := protoToJson(request);

    match outcome {
      case Success(reply, trailing) =>
        var statusCode := GrpcStatusToHttp(0);
        var responseBody := protoToJson(reply);
        var responseHeaders := map["grpc-status" := "0", "grpc-status-name" := "OK"];
        if trailing.Some? && trailing.value != [] {
          responseHeaders := responseHeaders + MetadataToDict(trailing);
        }
        var raised := sink.SendCapture("POST", url, requestHeaders, requestBody,
          statusCode, responseHeaders, responseBody, elapsed, captureFails);
      case Failure(err) =>
        var grpcCode := 2;
        var grpcName := "UNKNOWN";
        var responseBody := err.message;
        if err.code.Some? {
          grpcCode := err.code.value.value;
          if err.code.value.name.Some? {
            grpcName := err.code.value.name.value;
          }
        }
        var statusCode := GrpcStatusToHttp(grpcCode);
        var responseHeaders := map["grpc-status" := IntToString(grpcCode), "grpc-status-name" := grpcName];
        var raised := sink.SendCapture("POST", url, requestHeaders, requestBody,
          statusCode, responseHeaders, responseBody, elapsed, captureFails);
    }
    // The response is returned, or the original exception re-raised,
    // whatever the capture did.
    r := Passed(outcome);
  }

  // ---------------------------------------------------------------------------
  // What a capture records
  // ---------------------------------------------------------------------------

  /** A successful call is recorded as HTTP 200 with status 0/OK, except
      where trailing metadata gives a key its own value. */
  lemma SuccessCapture<Msg>(
    url: string, requestHeaders: map<string, string>, requestBody: string,
    reply: Msg, trailing: Option<Metadata>, protoToJson: Msg -> string, elapsed: real)
    ensures var c := CaptureOf(url, requestHeaders, requestBody, Success(reply, trailing), protoToJson, elapsed);
      && c.library == "grpc" && c.httpMethod == "POST" && c.statusCode == 200
      && c.responseBody == protoToJson(reply)
      && c.responseHeaders.Keys == {"grpc-status", "grpc-status-name"} + MetadataToDict(trailing).Keys
      && (forall k :: k in MetadataToDict(trailing) ==> c.responseHeaders[k] == MetadataToDict(trailing)[k])
      && ("grpc-status" !in MetadataToDict(trailing) ==> c.responseHeaders["grpc-status"] == "0")
      && ("grpc-status-name" !in MetadataToDict(trailing) ==> c.responseHeaders["grpc-status-name"] == "OK")
  {
    if trailing.Some? && trailing.value == [] {
      assert MetadataToDict(trailing) == map[];
    }
  }

  /** A failed call is recorded with the table's HTTP code for its status,
      the status number as text, and the exception text as the body; an
      exception without a code counts as UNKNOWN (2, HTTP 500). */
  lemma ErrorCapture<Msg>(
    url: string, requestHeaders: map<string, string>, requestBody: string,
    e: RpcError, protoToJson: Msg -> string, elapsed: real)
    ensures var c := CaptureOf(url, requestHeaders, requestBody, Failure(e), protoToJson, elapsed);
      var code := if e.code.Some? then e.code.value.value else 2;
      && c.library == "grpc" && c.httpMethod == "POST"
      && c.statusCode == GrpcStatusToHttp(code)
      && c.responseHeaders.Keys == {"grpc-status", "grpc-status-name"}
      && ParseDecimal(c.responseHeaders["grpc-status"]) == Some(code)
      && c.responseHeaders["grpc-status-name"]
         == (if e.code.Some? && e.code.value.name.Some? then e.code.value.name.value else "UNKNOWN")
      && c.responseBody == e.message
      && (e.code.None? ==> c.statusCode == 500)
  {
    var code := if e.code.Some? then e.code.value.value else 2;
    IntToStringRoundTrip(code);
  }
}
