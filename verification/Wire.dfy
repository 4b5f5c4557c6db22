/** Classification of text frames and the messages the client builds: `fastapi_ws_rpc/wire.py`. */
module Wire {
  import opened Prelude
  import opened Json

  datatype Request = Request(name: string, callId: string, arguments: Option<JsonObject>)

  function Get(o: JsonObject, key: string): Json {
    if key in o then o[key] else Null
  }

  predicate IsPendingRpcCall(msg: JsonObject) {
    var req := Get(msg, "request");
    req.Obj? && "call_id" in req.fields && "method" in req.fields && Get(msg, "response").Null?
  }

  function ExtractRequest(lib: Library, msg: JsonObject): Option<Request> {
    if !IsPendingRpcCall(msg) then None
    else
      var req := msg["request"].fields;
      if !req["method"].Str? || req["call_id"].Null? then None
      else
        var args := Get(req, "arguments");
        Some(Request(req["method"].s, Text(lib, req["call_id"]), if args.Obj? then Some(args.fields) else None))
  }

  /** `str(v)` */
  function Text(lib: Library, v: Json): string {
    if v.Str? then v.s else lib.toStr(v)
  }

  function CallRequestMessage(name: string, arguments: JsonObject, callId: string): JsonObject {
    map["request" := Obj(map["method" := Str(name), "arguments" := Obj(arguments), "call_id" := Str(callId)])]
  }

  function ResponseMessage(result: Json, callId: string, resultType: string): JsonObject {
    map["response" := Obj(map["call_id" := Str(callId), "result" := result, "result_type" := Str(resultType)])]
  }

  /** The call a frame answers, if it is a response that names one. */
  function AnswersCall(lib: Library, msg: JsonObject): Option<string> {
    var resp := Get(msg, "response");
    if !resp.Obj? || Get(resp.fields, "call_id").Null? then None
    else Some(Text(lib, resp.fields["call_id"]))
  }

  const PING_RESPONSE := "pong"

  function BuiltinResult(name: string, channelId: string): Option<Json> {
    if name == "_ping_" then Some(Str(PING_RESPONSE))
    else if name == "_get_channel_id_" then Some(Str(channelId))
    else None
  }

  predicate KnownMethod(name: string) {
    name in {"_ping_", "_get_channel_id_", "receive_envelope"}
  }

  /** The value is present and reads as this text: a string itself, any other value as `str` prints it. */
  ghost predicate ReadsAs(lib: Library, o: JsonObject, key: string, s: string) {
    key in o && o[key] != Null && (o[key] == Str(s) || (!o[key].Str? && lib.toStr(o[key]) == s))
  }

  /** A frame is read as a call exactly if it has one and no response; other arguments than an object count as none. */
  lemma CallsAreRead(lib: Library, msg: JsonObject, r: Request)
    ensures ExtractRequest(lib, msg) == Some(r)
       <==> && "request" in msg && msg["request"].Obj? && ("response" in msg ==> msg["response"] == Null)
            && var req := msg["request"].fields;
               && "method" in req && req["method"] == Str(r.name) && ReadsAs(lib, req, "call_id", r.callId)
               && r.arguments == (if "arguments" in req && req["arguments"].Obj? then Some(req["arguments"].fields)
                                  else None)
  {
  }

  /** A frame is read as the answer to a call exactly if it has a response object with that id. */
  lemma AnswersAreRead(lib: Library, msg: JsonObject, id: string)
    ensures AnswersCall(lib, msg) == Some(id)
       <==> "response" in msg && msg["response"].Obj? && ReadsAs(lib, msg["response"].fields, "call_id", id)
  {
  }

  /** No frame is both an answer and a call, so the order of the reader's two tests does not matter. */
  lemma AnswerIsNotCall(lib: Library, msg: JsonObject)
    requires AnswersCall(lib, msg).Some?
    ensures !IsPendingRpcCall(msg)
  {}

  /**
   * The two ends understand each other: a printed call is read as that call, and the reply built for it is read
   * as the answer to it, carrying the result.
   */
  lemma CallAndReplyAreRead(lib: Library, name: string, arguments: JsonObject, callId: string, result: Json, rt: string)
    ensures var call := CallRequestMessage(name, arguments, callId);
            && AnswersCall(lib, call).None?
            && ExtractRequest(lib, call) == Some(Request(name, callId, Some(arguments)))
    ensures var reply := ResponseMessage(result, callId, rt);
            && AnswersCall(lib, reply) == Some(callId)
            && Get(Get(reply, "response").fields, "result") == result
            && Get(Get(reply, "response").fields, "result_type") == Str(rt)
            && ExtractRequest(lib, reply).None?
  {
    var call := CallRequestMessage(name, arguments, callId);
    assert call["request"].fields["method"] == Str(name);
    var reply := ResponseMessage(result, callId, rt);
    assert reply["response"].fields["result"] == result;
  }
}
