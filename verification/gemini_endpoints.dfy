/** The two native generation endpoints, `generateContent` and
    `streamGenerateContent`, as compositions of the caller-key check, the
    router, the request translator, the backend call and the response
    conversion. The backend, project-id discovery and body parsing are
    foreign and enter as parameters; the HTTP plumbing is not modelled. */
module GeminiEndpoints {
  import opened Wrappers
  import opened Json
  import opened Credentials
  import GeminiAuth
  import GeminiRouting
  import GeminiRequest
  import GeminiResponse
  import Seqs

  /** An exception raised by code outside the model: its `str()` and
      whether it is a `ValueError`. */
  datatype Raised = Raised(message: string, isValueError: bool)

  /** The body of every error the handlers answer themselves. */
  datatype ErrorEnvelope = ErrorEnvelope(code: int, message: string, status: string) {
    /** `{"error": {"code": code, "message": message, "status": status}}` */
    function ToJson(): (r: Json)
      ensures Serializable(r)
      ensures r.JObj? && Keys(r.fields) == ["error"] && r.fields[0].1.JObj?
      // the one entry holds the code, the message and the status, in that order
      ensures var inner := r.fields[0].1.fields;
        && Keys(inner) == ["code", "message", "status"]
        && inner[0].1 == JInt(code) && inner[1].1 == JStr(message) && inner[2].1 == JStr(status)
    {
      var inner := JObj([("code", JInt(code)), ("message", JStr(message)), ("status", JStr(status))]);
      assert Serializable(inner);
      JObj([("error", inner)])
    }
  }

  /** A `ValueError` is the caller's fault. */
  function InvalidArgument(message: string): ErrorEnvelope {
    ErrorEnvelope(400, message, "INVALID_ARGUMENT")
  }

  /** Anything else is the gateway's. */
  function Internal(message: string): ErrorEnvelope {
    ErrorEnvelope(500, message, "INTERNAL")
  }

  function Classify(e: Raised): (r: ErrorEnvelope)
    ensures r.message == e.message
    ensures e.isValueError <==> r.code == 400
    ensures r.code == 400 ==> r.status == "INVALID_ARGUMENT"
    ensures r.code != 400 ==> r.code == 500 && r.status == "INTERNAL"
  {
    if e.isValueError then InvalidArgument(e.message) else Internal(e.message)
  }

  /** What reading and validating the body gave. A body that is not JSON
      or fails validation raises a `ValueError`; a JSON body that is not an
      object makes `GeminiRequest(**body)` raise a `TypeError`. */
  datatype Body = Rejected(error: Raised) | Parsed(request: GeminiRequest.GeminiRequest)

  /** The call handed to the SDK: the routed credentials, the project id
      discovered for the express path (when it discovers one), the model
      name and the translated request. */
  datatype Call = Call(
    backend: GeminiRouting.Backend,
    projectId: Option<string>,
    model: string,
    contents: seq<GeminiRequest.BackendContent>,
    config: GeminiRequest.Config)

  /** One response object from the SDK and what its `model_dump` gave. */
  datatype Reply = Reply(response: GeminiResponse.Response, dump: Option<Json>)

  datatype HttpReply =
    | Unauthorized(detail: string)
    | Ok(body: Json)
    | Failed(envelope: ErrorEnvelope)

  /** Project-id discovery on the express path for the model families that
      need it; nothing is discovered otherwise. Whatever it raises is
      classified like any other exception of the handler. */
  function Discovery(backend: GeminiRouting.Backend, discover: string -> Result<string, Raised>): (r: Result<Option<string>, ErrorEnvelope>)
    ensures !(backend.Express? && backend.discoverProject) ==> r == Success(None)
    ensures backend.Express? && backend.discoverProject ==>
      && (r.Success? <==> discover(backend.apiKey).Success?)
      && (r.Success? ==> r.value == Some(discover(backend.apiKey).value))
      && (r.Failure? ==> r.error == Classify(discover(backend.apiKey).error))
  {
    if backend.Express? && backend.discoverProject then
      match discover(backend.apiKey)
      case Success(p) => Success(Some(p))
      case Failure(e) => Failure(Classify(e))
    else Success(None)
  }

  /** The steps both handlers take before calling the backend, in their
      order: validate the body, route (discovering the project id on the
      express path for the families that need it), build the
      configuration, build the contents. The first failure answers. */
  function Prepare(body: Body, modelName: string, pools: Pools, discover: string -> Result<string, Raised>): (r: Result<Call, ErrorEnvelope>)
    ensures body.Rejected? ==> r == Failure(Classify(body.error))
    ensures body.Parsed? && GeminiRouting.Route(modelName, pools).Failure? ==>
      r == Failure(InvalidArgument(GeminiRouting.Route(modelName, pools).error.Message()))
    // every step after routing, in order: the first failure is the answer
    ensures body.Parsed? && GeminiRouting.Route(modelName, pools).Success? ==>
      var routed := GeminiRouting.Route(modelName, pools).value;
      var discovered := Discovery(routed.backend, discover);
      var config := GeminiRequest.BuildGenerationConfig(body.request);
      var contents := GeminiRequest.BuildContents(body.request.contents);
      && (discovered.Failure? ==> r == Failure(discovered.error))
      && (discovered.Success? && config.Failure? ==> r == Failure(Internal(config.error.Message())))
      && (discovered.Success? && config.Success? && contents.Failure? ==>
            r == Failure(Internal(contents.error.Message())))
      && (r.Success? <==> discovered.Success? && config.Success? && contents.Success?)
    ensures r.Success? ==>
      && body.Parsed?
      && GeminiRouting.Route(modelName, pools).Success?
      && var routed := GeminiRouting.Route(modelName, pools).value;
      && r.value.backend == routed.backend
      && r.value.model == routed.model
      && (r.value.projectId.Some? <==> routed.backend.Express? && routed.backend.discoverProject)
      && (r.value.projectId.Some? ==> discover(routed.backend.apiKey) == Success(r.value.projectId.value))
      && GeminiRequest.BuildGenerationConfig(body.request) == Success(r.value.config)
      && GeminiRequest.BuildContents(body.request.contents) == Success(r.value.contents)
    ensures r.Failure? ==> r.error.code == 400 || r.error.code == 500
  {
    match body
    case Rejected(e) => Failure(Classify(e))
    case Parsed(req) =>
      match GeminiRouting.Route(modelName, pools)
      case Failure(e) => Failure(InvalidArgument(e.Message()))
      case Success(routed) =>
        match Discovery(routed.backend, discover)
        case Failure(e) => Failure(e)
        case Success(projectId) =>
          match GeminiRequest.BuildGenerationConfig(req)
          case Failure(e) => Failure(Internal(e.Message()))
          case Success(config) =>
            match GeminiRequest.BuildContents(req.contents)
            case Failure(e) => Failure(Internal(e.Message()))
            case Success(contents) => Success(Call(routed.backend, projectId, routed.model, contents, config))
  }

  /** The message json.dumps raises for a value holding bytes. */
  const BytesNotSerializable: string := "Object of type bytes is not JSON serializable"

  /** A reply whose conversion as written still holds bytes. */
  predicate Leaks(reply: Reply) {
    !Serializable(GeminiResponse.ConvertResponse(reply.response, reply.dump))
  }

  /** `generate_content`: 401 without a valid caller key, the error
      envelope of the first failing step, or the converted response.
      `JSONResponse` serialises inside the `try`, so a conversion that still
      holds bytes is answered as an internal error. */
  function GenerateContent(
    caller: Result<string, GeminiAuth.AuthError>,
    body: Body,
    modelName: string,
    pools: Pools,
    discover: string -> Result<string, Raised>,
    backend: Call -> Result<Reply, Raised>): (r: HttpReply)
    ensures caller.Failure? <==> r.Unauthorized?
    ensures caller.Failure? ==> r.detail == caller.error.Detail()
    ensures caller.Success? && Prepare(body, modelName, pools, discover).Failure? ==>
      r == Failed(Prepare(body, modelName, pools, discover).error)
    // the backend is called with exactly the prepared call; its errors are classified
    ensures caller.Success? && Prepare(body, modelName, pools, discover).Success? ==>
      var call := Prepare(body, modelName, pools, discover).value;
      && (backend(call).Failure? ==> r == Failed(Classify(backend(call).error)))
      && (backend(call).Success? && !Leaks(backend(call).value) ==>
            r == Ok(GeminiResponse.ConvertResponse(backend(call).value.response, backend(call).value.dump)))
      && (backend(call).Success? && Leaks(backend(call).value) ==>
            r == Failed(Internal(BytesNotSerializable)))
    // whatever is sent can be serialised
    ensures r.Ok? ==> Serializable(r.body)
    ensures r.Failed? ==> r.envelope.code == 400 || r.envelope.code == 500
  {
    if caller.Failure? then Unauthorized(caller.error.Detail())
    else match Prepare(body, modelName, pools, discover)
      case Failure(e) => Failed(e)
      case Success(call) =>
        match backend(call)
        case Failure(e) => Failed(Classify(e))
        case Success(reply) =>
          if Leaks(reply) then Failed(Internal(BytesNotSerializable))
          else Ok(GeminiResponse.ConvertResponse(reply.response, reply.dump))
  }

  /** `generate_content` with the corrected conversion: every backend reply
      is answered with its converted body. */
  function GenerateContentCorrected(
    caller: Result<string, GeminiAuth.AuthError>,
    body: Body,
    modelName: string,
    pools: Pools,
    discover: string -> Result<string, Raised>,
    backend: Call -> Result<Reply, Raised>): (r: HttpReply)
    ensures caller.Failure? <==> r.Unauthorized?
    ensures caller.Success? && Prepare(body, modelName, pools, discover).Failure? ==>
      r == Failed(Prepare(body, modelName, pools, discover).error)
    ensures caller.Success? && Prepare(body, modelName, pools, discover).Success? ==>
      var call := Prepare(body, modelName, pools, discover).value;
      && (backend(call).Failure? ==> r == Failed(Classify(backend(call).error)))
      && (backend(call).Success? ==>
            r == Ok(GeminiResponse.ConvertResponseCorrected(backend(call).value.response, backend(call).value.dump)))
    ensures r.Ok? ==> Serializable(r.body)
  {
    if caller.Failure? then Unauthorized(caller.error.Detail())
    else match Prepare(body, modelName, pools, discover)
      case Failure(e) => Failed(e)
      case Success(call) =>
        match backend(call)
        case Failure(e) => Failed(Classify(e))
        case Success(reply) => Ok(GeminiResponse.ConvertResponseCorrected(reply.response, reply.dump))
  }

  /** The written and corrected handlers differ only where the written one
      cannot serialise its reply: there it answers 500 and the corrected one
      sends the reply. */
  lemma GenerateContentAgrees(
    caller: Result<string, GeminiAuth.AuthError>,
    body: Body,
    modelName: string,
    pools: Pools,
    discover: string -> Result<string, Raised>,
    backend: Call -> Result<Reply, Raised>)
    ensures var written := GenerateContent(caller, body, modelName, pools, discover, backend);
      var corrected := GenerateContentCorrected(caller, body, modelName, pools, discover, backend);
      && (written != corrected ==> written == Failed(Internal(BytesNotSerializable)) && corrected.Ok?)
      && (written.Ok? ==> corrected == written)
  {
    var prepared := Prepare(body, modelName, pools, discover);
    if caller.Success? && prepared.Success? && backend(prepared.value).Success? {
      var reply := backend(prepared.value).value;
      if !Leaks(reply) {
        GeminiResponse.ConvertResponseAgrees(reply.response, reply.dump);
      }
    }
  }

  // ---- streaming ----

  /** One server-sent event, `data: <json>\n\n`, by its payload. */
  datatype Frame = DataFrame(payload: Json) | ErrorFrame(envelope: ErrorEnvelope)

  /** What the SDK stream produced: the chunks it yielded, and the message
      of the exception that ended it early (opening the stream counts: it
      then yielded nothing). */
  datatype StreamOutcome = StreamOutcome(chunks: seq<Reply>, failure: Option<string>)

  /** The index of the first chunk whose conversion as written still holds
      bytes, or the number of chunks when there is none. */
  function FirstLeak(chunks: seq<Reply>): (k: nat)
    ensures k <= |chunks|
    ensures forall i :: 0 <= i < k ==> !Leaks(chunks[i])
    ensures k < |chunks| ==> Leaks(chunks[k])
    decreases |chunks|
  {
    if |chunks| == 0 then 0
    else if Leaks(chunks[0]) then 0
    else
      assert forall i :: 1 <= i < |chunks| ==> chunks[i] == chunks[1..][i - 1];
      1 + FirstLeak(chunks[1..])
  }

  /** The generator as written: one data frame per chunk, in order, until
      `json.dumps` raises on a chunk that still holds bytes, which ends the
      stream with an internal-error frame; a stream that fails on its own
      ends with the error frame of its message. Nothing is retried. */
  function Relay(chunks: seq<Reply>, failure: Option<string>): (frames: seq<Frame>)
    ensures FirstLeak(chunks) <= |frames|
    ensures forall i :: 0 <= i < FirstLeak(chunks) ==>
      frames[i] == DataFrame(GeminiResponse.ConvertResponse(chunks[i].response, chunks[i].dump))
    ensures FirstLeak(chunks) < |chunks| ==>
      |frames| == FirstLeak(chunks) + 1 && frames[FirstLeak(chunks)] == ErrorFrame(Internal(BytesNotSerializable))
    ensures FirstLeak(chunks) == |chunks| ==> |frames| == |chunks| + (if failure.Some? then 1 else 0)
    ensures FirstLeak(chunks) == |chunks| && failure.Some? ==> frames[|chunks|] == ErrorFrame(Internal(failure.value))
    decreases |chunks|
  {
    if |chunks| == 0 then
      if failure.Some? then [ErrorFrame(Internal(failure.value))] else []
    else if Leaks(chunks[0]) then [ErrorFrame(Internal(BytesNotSerializable))]
    else
      var rest := Relay(chunks[1..], failure);
      assert forall i :: 1 <= i < |chunks| ==> chunks[i] == chunks[1..][i - 1];
      assert FirstLeak(chunks) == 1 + FirstLeak(chunks[1..]);
      [DataFrame(GeminiResponse.ConvertResponse(chunks[0].response, chunks[0].dump))] + rest
  }

  /** A frame of the corrected generator. */
  function ChunkFrame(chunk: Reply): Frame {
    DataFrame(GeminiResponse.ConvertResponseCorrected(chunk.response, chunk.dump))
  }

  /** The generator with the corrected conversion: one data frame per
      chunk, in order, then one error frame when the stream failed. */
  function RelayCorrected(chunks: seq<Reply>, failure: Option<string>): (frames: seq<Frame>)
    ensures |frames| == |chunks| + (if failure.Some? then 1 else 0)
    ensures forall i :: 0 <= i < |chunks| ==> frames[i] == ChunkFrame(chunks[i])
    ensures forall i :: 0 <= i < |chunks| ==> frames[i].DataFrame? && Serializable(frames[i].payload)
    ensures failure.Some? ==> frames[|chunks|] == ErrorFrame(Internal(failure.value))
    decreases |chunks|
  {
    if |chunks| == 0 then
      if failure.Some? then [ErrorFrame(Internal(failure.value))] else []
    else
      var rest := RelayCorrected(chunks[1..], failure);
      assert forall i :: 1 <= i < |chunks| ==> chunks[i] == chunks[1..][i - 1];
      [ChunkFrame(chunks[0])] + rest
  }

  /** One step of the written generator: the first chunk's frame, then the
      rest unless that chunk leaked. */
  lemma RelayStep(chunks: seq<Reply>, failure: Option<string>)
    requires |chunks| > 0
    ensures Leaks(chunks[0]) ==> Relay(chunks, failure) == [ErrorFrame(Internal(BytesNotSerializable))]
    ensures !Leaks(chunks[0]) ==>
      Relay(chunks, failure) == [DataFrame(GeminiResponse.ConvertResponse(chunks[0].response, chunks[0].dump))] + Relay(chunks[1..], failure)
  {
  }

  /** A prefix of the written stream without a leak is relayed, and the rest
      follows. */
  lemma {:induction false} RelayAppendClean(a: seq<Reply>, b: seq<Reply>, failure: Option<string>)
    requires forall i :: 0 <= i < |a| ==> !Leaks(a[i])
    ensures Relay(a + b, failure) == Relay(a, None) + Relay(b, failure)
    decreases |a|
  {
    if |a| > 0 {
      assert (a + b)[0] == a[0];
      assert (a + b)[1..] == a[1..] + b;
      assert forall i :: 1 <= i < |a| ==> a[i] == a[1..][i - 1];
      RelayStep(a + b, failure);
      RelayStep(a, None);
      RelayAppendClean(a[1..], b, failure);
      var head := DataFrame(GeminiResponse.ConvertResponse(a[0].response, a[0].dump));
      Seqs.ConsAppend(head, Relay(a[1..], None), Relay(b, failure));
    } else {
      assert a + b == b;
    }
  }

  /** A leak inside a prefix of the written stream ends it there, whatever
      follows. */
  lemma {:induction false} RelayAppendLeak(a: seq<Reply>, b: seq<Reply>, failure: Option<string>, k: nat)
    requires k < |a| && Leaks(a[k])
    ensures Relay(a + b, failure) == Relay(a, failure)
    decreases |a|
  {
    assert (a + b)[0] == a[0];
    if Leaks(a[0]) {
      RelayStep(a + b, failure);
      RelayStep(a, failure);
    } else {
      assert (a + b)[1..] == a[1..] + b;
      assert a[1..][k - 1] == a[k];
      RelayAppendLeak(a[1..], b, failure, k - 1);
      RelayStep(a + b, failure);
      RelayStep(a, failure);
    }
  }

  /** The written generator sends frames as the chunks come in, until a
      chunk leaks: a prefix without a leak is relayed and the rest follows;
      a leak inside the prefix ends the stream there, whatever comes after. */
  lemma RelayAppend(a: seq<Reply>, b: seq<Reply>, failure: Option<string>)
    ensures FirstLeak(a) == |a| ==> Relay(a + b, failure) == Relay(a, None) + Relay(b, failure)
    ensures FirstLeak(a) < |a| ==> Relay(a + b, failure) == Relay(a, failure)
  {
    if FirstLeak(a) == |a| {
      RelayAppendClean(a, b, failure);
    } else {
      RelayAppendLeak(a, b, failure, FirstLeak(a));
    }
  }

  /** In the written generator an error frame occurs only last, and only
      when the stream failed or a chunk leaked. */
  lemma ErrorFrameIsLast(chunks: seq<Reply>, failure: Option<string>, i: nat)
    requires i < |Relay(chunks, failure)|
    requires Relay(chunks, failure)[i].ErrorFrame?
    ensures i == |Relay(chunks, failure)| - 1
    ensures failure.Some? || FirstLeak(chunks) < |chunks|
  {
  }

  /** The written stream ends with an error frame exactly when the stream
      failed or a chunk leaked. */
  lemma EndsWithErrorExactly(chunks: seq<Reply>, failure: Option<string>)
    ensures var frames := Relay(chunks, failure);
      (|frames| > 0 && frames[|frames| - 1].ErrorFrame?) <==> failure.Some? || FirstLeak(chunks) < |chunks|
  {
  }

  /** The corrected generator sends frames as the chunks come in: the
      frames of a longer stream extend those of its prefix. */
  lemma {:induction false} RelayCorrectedAppend(a: seq<Reply>, b: seq<Reply>, failure: Option<string>)
    ensures RelayCorrected(a + b, failure) == RelayCorrected(a, None) + RelayCorrected(b, failure)
    decreases |a|
  {
    if |a| > 0 {
      assert (a + b)[1..] == a[1..] + b;
      RelayCorrectedAppend(a[1..], b, failure);
    } else {
      assert a + b == b;
    }
  }

  /** In the corrected generator at most one error frame, only as the last
      frame, and only when the stream failed. */
  lemma CorrectedErrorFrameIsLast(chunks: seq<Reply>, failure: Option<string>, i: nat)
    requires i < |RelayCorrected(chunks, failure)|
    requires RelayCorrected(chunks, failure)[i].ErrorFrame?
    ensures i == |RelayCorrected(chunks, failure)| - 1
    ensures failure.Some?
  {
  }

  /** The written generator and the corrected one send the same frames
      whenever every chunk converts to something serialisable. */
  lemma {:induction false} RelayAgrees(chunks: seq<Reply>, failure: Option<string>)
    requires forall i :: 0 <= i < |chunks| ==> !Leaks(chunks[i])
    ensures Relay(chunks, failure) == RelayCorrected(chunks, failure)
    decreases |chunks|
  {
    if |chunks| > 0 {
      GeminiResponse.ConvertResponseAgrees(chunks[0].response, chunks[0].dump);
      assert forall i :: 1 <= i < |chunks| ==> chunks[i] == chunks[1..][i - 1];
      RelayAgrees(chunks[1..], failure);
    }
  }

  /** A chunk the written conversion leaves holding bytes (one with an
      inline-data part whose SDK dump failed, say) ends the written stream
      at once, dropping every later chunk and any stream failure, while the
      corrected generator relays them all. */
  lemma RelayStopsAtBytes(first: Reply, later: seq<Reply>, failure: Option<string>)
    requires Leaks(first)
    ensures Relay([first] + later, failure) == [ErrorFrame(Internal(BytesNotSerializable))]
    ensures |RelayCorrected([first] + later, failure)| == 1 + |later| + (if failure.Some? then 1 else 0)
  {
    assert ([first] + later)[0] == first;
  }

  datatype StreamReply = Refused(reply: HttpReply) | Streaming(frames: seq<Frame>)

  /** `stream_generate_content`: the same checks as `generate_content`
      before the stream opens, answered as plain replies; after that every
      outcome is a frame of the event stream. */
  function StreamGenerateContent(
    caller: Result<string, GeminiAuth.AuthError>,
    body: Body,
    modelName: string,
    pools: Pools,
    discover: string -> Result<string, Raised>,
    openStream: Call -> StreamOutcome): (r: StreamReply)
    ensures caller.Failure? ==> r == Refused(Unauthorized(caller.error.Detail()))
    ensures caller.Success? && Prepare(body, modelName, pools, discover).Failure? ==>
      r == Refused(Failed(Prepare(body, modelName, pools, discover).error))
    ensures r.Streaming? <==> caller.Success? && Prepare(body, modelName, pools, discover).Success?
    ensures r.Streaming? ==>
      var outcome := openStream(Prepare(body, modelName, pools, discover).value);
      r.frames == Relay(outcome.chunks, outcome.failure)
  {
    if caller.Failure? then Refused(Unauthorized(caller.error.Detail()))
    else match Prepare(body, modelName, pools, discover)
      case Failure(e) => Refused(Failed(e))
      case Success(call) =>
        var outcome := openStream(call);
        Streaming(Relay(outcome.chunks, outcome.failure))
  }

  /** `stream_generate_content` with the corrected generator. */
  function StreamGenerateContentCorrected(
    caller: Result<string, GeminiAuth.AuthError>,
    body: Body,
    modelName: string,
    pools: Pools,
    discover: string -> Result<string, Raised>,
    openStream: Call -> StreamOutcome): (r: StreamReply)
    ensures r.Streaming? <==> caller.Success? && Prepare(body, modelName, pools, discover).Success?
    ensures r.Refused? ==> r == StreamGenerateContent(caller, body, modelName, pools, discover, openStream)
    ensures r.Streaming? ==>
      var outcome := openStream(Prepare(body, modelName, pools, discover).value);
      r.frames == RelayCorrected(outcome.chunks, outcome.failure)
  {
    if caller.Failure? then Refused(Unauthorized(caller.error.Detail()))
    else match Prepare(body, modelName, pools, discover)
      case Failure(e) => Refused(Failed(e))
      case Success(call) =>
        var outcome := openStream(call);
        Streaming(RelayCorrected(outcome.chunks, outcome.failure))
  }

  /** Before streaming both endpoints answer the same way: given the same
      inputs, the stream is refused exactly when the plain call fails before
      reaching the backend, and with the same reply. */
  lemma EndpointsAgreeBeforeBackend(
    caller: Result<string, GeminiAuth.AuthError>,
    body: Body,
    modelName: string,
    pools: Pools,
    discover: string -> Result<string, Raised>,
    backend: Call -> Result<Reply, Raised>,
    openStream: Call -> StreamOutcome)
    ensures StreamGenerateContent(caller, body, modelName, pools, discover, openStream).Refused? ==>
      StreamGenerateContent(caller, body, modelName, pools, discover, openStream).reply
        == GenerateContent(caller, body, modelName, pools, discover, backend)
  {
  }
}
