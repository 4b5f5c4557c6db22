/**
 * The reader loop without its interleaving: what each frame makes the client do (`_reader_loop`,
 * `_dispatch_inbound`, `_invoke_receive_envelope`), and what a whole sequence of frames comes to.
 */
module Reader {
  import opened Prelude
  import Text
  import opened Json
  import opened OrderedDicts
  import opened Chunking
  import opened Reassembly
  import opened Wire

  /** What one turn of the loop receives. */
  datatype Frame =
    | Closed                    // the end of the connection
    | Skipped                   // a binary frame, text that is not JSON, or JSON that is not an object
    | LoadFails                 // text on which `json.loads` raises something else than a `JSONDecodeError`
    | Loaded(msg: JsonObject)   // a JSON object

  datatype ReaderError = LoadFailed | BadChunk(error: ChunkError)

  datatype Reaction =
    | Nothing                                   // no reply and nothing delivered
    | Reply(callId: string, result: Json)       // answered at once
    | Deliver(callId: string, args: JsonObject) // published, and `receive_envelope` is entered
    | Clash(args: JsonObject)                   // published, but the call of `receive_envelope` itself raises
    | Crash(error: ReaderError)                 // an exception ends the loop
    | Leave                                     // the loop ends

  /** The loop does not go on after this reaction. */
  predicate Ends(r: Reaction) { r.Clash? || r.Crash? || r.Leave? }

  /** The arguments are published, and passed to `receive_envelope`. */
  predicate Passes(r: Reaction) { r.Deliver? || r.Clash? }

  function ArgStr(lib: Library, args: JsonObject, key: string): string {
    if key !in args || args[key].Null? then "" else Wire.Text(lib, args[key])
  }

  /** The keyword arguments of one `receive_envelope` call. */
  datatype Delivery = Delivery(messageType: string, kind: string, clientId: string, sender: string, receiver: string,
                               body: Option<JsonObject>, requestId: string, extra: JsonObject)

  const ENVELOPE_KEYS := {"message_type", "kind", "client_id", "sender", "receiver", "body", "request_id"}

  function DeliveryOf(lib: Library, args: JsonObject): Delivery {
    Delivery(ArgStr(lib, args, "message_type"), ArgStr(lib, args, "kind"), ArgStr(lib, args, "client_id"),
             ArgStr(lib, args, "sender"), ArgStr(lib, args, "receiver"),
             if Get(args, "body").Obj? then Some(args["body"].fields) else None,
             ArgStr(lib, args, "request_id"), args - ENVELOPE_KEYS)
  }

  /**
   * The seven named arguments: texts as they are, other values as `str` prints them, absent and null as the empty text;
   * the body if it is an object; and everything else as extra arguments.
   */
  lemma DeliveryIsExact(lib: Library, args: JsonObject, key: string, s: string)
    ensures ArgStr(lib, args, key) == s <==> HasText(lib, args, key, "", s)
    ensures var d := DeliveryOf(lib, args);
            var named := {"message_type", "kind", "client_id", "sender", "receiver", "body", "request_id"};
            && HasText(lib, args, "message_type", "", d.messageType) && HasText(lib, args, "kind", "", d.kind)
            && HasText(lib, args, "client_id", "", d.clientId) && HasText(lib, args, "sender", "", d.sender)
            && HasText(lib, args, "receiver", "", d.receiver) && HasText(lib, args, "request_id", "", d.requestId)
            && d.body == (if "body" in args && args["body"].Obj? then Some(args["body"].fields) else None)
            && (key in d.extra <==> key in args && key !in named)
            && (key in d.extra ==> d.extra[key] == args[key])
  {
  }

  /** The arguments after reassembly: the original body, the logical id unless blank, and the transfer's data. */
  function AssembledArgs(args: JsonObject, m: Message): JsonObject {
    var withBody := args["body" := Obj(m.body)];
    var withId := if Text.Blank(m.requestId) then withBody else withBody["request_id" := Str(m.requestId)];
    withId[
      "chunk_transfer_id" := Str(m.transferId)]["chunk_count" := Int(m.chunkCount)][
      "chunk_total_bytes" := Int(m.totalBytes)]["chunk_sha256" := Str(m.sha256)][
      "chunk_content_encoding" := Str(m.encoding)]
  }

  /**
   * The call `self.receive_envelope(..., **extra)`: Python refuses it when an extra argument is named like the
   * parameter that the object itself is bound to.
   */
  function Pass(callId: string, args: JsonObject): Reaction {
    if "self" in args then Clash(args) else Deliver(callId, args)
  }

  function Ack(ok: bool): Json { Obj(map["ok" := Bool(ok)]) }

  /** `_invoke_receive_envelope` up to the first `await` of `receive_envelope` */
  function Invoke(lib: Library, cap: nat, t: Table, callId: string, args: JsonObject): (Table, Reaction)
    requires TableOk(cap, t)
  {
    var body := Get(args, "body");
    if !body.Obj? then (t, Pass(callId, args))
    else
      match IsChunkEnvelope(lib, body.fields)
      case Failure(e) => (t, Crash(BadChunk(e)))
      case Success(false) => (t, Pass(callId, args))
      case Success(true) =>
        var (t', out) := PushStep(lib, cap, t, body.fields);
        (t', match out
             case Raised(_) => Reply(callId, Ack(false))
             case NeedMore => Reply(callId, Ack(true))
             case Completed(m) => Pass(callId, AssembledArgs(args, m)))
  }

  /** `_dispatch_inbound` up to its first `await` */
  function Dispatch(lib: Library, cap: nat, channelId: string, t: Table, msg: JsonObject): (Table, Reaction)
    requires TableOk(cap, t)
  {
    match ExtractRequest(lib, msg)
    case None => (t, Nothing)
    case Some(req) =>
      match BuiltinResult(req.name, channelId)
      case Some(result) => (t, Reply(req.callId, result))
      case None =>
        if req.name == "receive_envelope" then
          Invoke(lib, cap, t, req.callId, if req.arguments.Some? then req.arguments.value else map[])
        else (t, Nothing)
  }

  /** An answer to one of the client's own calls is not dispatched. */
  lemma AnswersAreNotDispatched(lib: Library, cap: nat, channelId: string, t: Table, msg: JsonObject)
    requires TableOk(cap, t) && AnswersCall(lib, msg).Some?
    ensures Dispatch(lib, cap, channelId, t, msg) == (t, Nothing)
  {
    AnswerIsNotCall(lib, msg);
  }

  /** One turn of the reader loop; answers to the client's own calls are Calls.TryComplete's business. */
  function React(lib: Library, cap: nat, channelId: string, t: Table, frame: Frame): (Table, Reaction)
    requires TableOk(cap, t)
  {
    match frame
    case Closed => (t, Leave)
    case Skipped => (t, Nothing)
    case LoadFails => (t, Crash(LoadFailed))
    case Loaded(msg) => Dispatch(lib, cap, channelId, t, msg)
  }

  // ---- what a reaction owes the peer ----

  /** The id of a call that a peer makes of a method the client knows. */
  function KnownCall(lib: Library, frame: Frame): Option<string> {
    if !frame.Loaded? then None
    else
      match ExtractRequest(lib, frame.msg)
      case Some(req) => if KnownMethod(req.name) then Some(req.callId) else None
      case None => None
  }

  function EnvelopeArgs(lib: Library, frame: Frame): Option<JsonObject> {
    if !frame.Loaded? then None
    else
      match ExtractRequest(lib, frame.msg)
      case Some(req) =>
        if req.name != "receive_envelope" then None
        else Some(if req.arguments.Some? then req.arguments.value else map[])
      case None => None
  }

  /** The body of a frame that carries a chunk envelope. */
  function ChunkIn(lib: Library, frame: Frame): Option<JsonObject> {
    match EnvelopeArgs(lib, frame)
    case Some(args) =>
      if Get(args, "body").Obj? && IsChunkEnvelope(lib, args["body"].fields) == Success(true)
      then Some(args["body"].fields) else None
    case None => None
  }

  /** The frame carries a marker object without a usable `version`. */
  predicate BadVersion(lib: Library, frame: Frame) {
    match EnvelopeArgs(lib, frame)
    case Some(args) => Get(args, "body").Obj? && IsChunkEnvelope(lib, args["body"].fields).Failure?
    case None => false
  }

  function ReplyId(r: Reaction): Option<string> {
    match r
    case Reply(id, _) => Some(id)
    case Deliver(id, _) => Some(id)
    case _ => None
  }

  /** The arguments passed to `receive_envelope`: a plain envelope's own, or those of the transfer a chunk completes. */
  function Passing(lib: Library, cap: nat, t: Table, frame: Frame): Option<JsonObject>
    requires TableOk(cap, t)
  {
    match ChunkIn(lib, frame)
    case Some(body) =>
      (match PushStep(lib, cap, t, body).1
       case Completed(m) => Some(AssembledArgs(EnvelopeArgs(lib, frame).value, m))
       case _ => None)
    case None => if BadVersion(lib, frame) then None else EnvelopeArgs(lib, frame)
  }

  /** The call of `receive_envelope` has an extra argument named `self`. */
  predicate Clashes(lib: Library, cap: nat, t: Table, frame: Frame)
    requires TableOk(cap, t)
  {
    Passing(lib, cap, t, frame).Some? && "self" in Passing(lib, cap, t, frame).value
  }

  /** What an envelope call comes to, by the kind of its body. */
  lemma InvokeIsOwed(lib: Library, cap: nat, t: Table, callId: string, args: JsonObject)
    requires TableOk(cap, t)
    ensures var (t', r) := Invoke(lib, cap, t, callId, args);
            var kind := if Get(args, "body").Obj? then IsChunkEnvelope(lib, args["body"].fields) else Success(false);
            && !r.Leave? && !r.Nothing? && (r.Crash? <==> kind.Failure?)
            && (!Ends(r) ==> ReplyId(r) == Some(callId))
            && (kind != Success(true) ==> t' == t && (if kind.Failure? then !Passes(r) else r == Pass(callId, args)))
            && (kind == Success(true) ==>
                  var (t2, out) := PushStep(lib, cap, t, args["body"].fields);
                  t' == t2 && if out.Completed? then r == Pass(callId, AssembledArgs(args, out.msg))
                              else r.Reply? && r.result == Ack(out.NeedMore?))
  {
  }

  /**
   * One turn of the loop, in terms of the frame and the reassembler. It owes a reply exactly for a call of a known
   * method that does not end the loop, and under that call's id; it raises exactly on a failed load, a bad version and
   * a clash of arguments; it touches the reassembler exactly for a chunk, and acknowledges one that completes nothing;
   * and it passes on exactly a plain envelope with its own arguments, or a completed transfer.
   */
  lemma ReactionIsOwed(lib: Library, cap: nat, channelId: string, t: Table, frame: Frame)
    requires TableOk(cap, t)
    ensures var (t', r) := React(lib, cap, channelId, t, frame);
            && (r.Leave? <==> frame.Closed?)
            && (r.Crash? <==> frame.LoadFails? || BadVersion(lib, frame))
            && (r.Clash? <==> Clashes(lib, cap, t, frame))
            && (!Ends(r) ==> ReplyId(r) == KnownCall(lib, frame))
            && Passing(lib, cap, t, frame) == (if Passes(r) then Some(r.args) else None)
            && (match ChunkIn(lib, frame)
                case None => t' == t
                case Some(body) =>
                  var (t2, out) := PushStep(lib, cap, t, body);
                  t' == t2 && (!out.Completed? ==> r.Reply? && r.result == Obj(map["ok" := Bool(out.NeedMore?)])))
  {
    ReactionPasses(lib, cap, channelId, t, frame);
    ReactionReplies(lib, cap, channelId, t, frame);
    ReactionPushes(lib, cap, channelId, t, frame);
  }

  lemma ReactionReplies(lib: Library, cap: nat, channelId: string, t: Table, frame: Frame)
    requires TableOk(cap, t)
    ensures var r := React(lib, cap, channelId, t, frame).1;
            && (r.Leave? <==> frame.Closed?)
            && (r.Crash? <==> frame.LoadFails? || BadVersion(lib, frame))
            && (!Ends(r) ==> ReplyId(r) == KnownCall(lib, frame))
  {
    if EnvelopeArgs(lib, frame).Some? {
      InvokeIsOwed(lib, cap, t, ExtractRequest(lib, frame.msg).value.callId, EnvelopeArgs(lib, frame).value);
    }
  }

  lemma ReactionPushes(lib: Library, cap: nat, channelId: string, t: Table, frame: Frame)
    requires TableOk(cap, t)
    ensures var (t', r) := React(lib, cap, channelId, t, frame);
            match ChunkIn(lib, frame)
            case None => t' == t
            case Some(body) =>
              var (t2, out) := PushStep(lib, cap, t, body);
              t' == t2 && (!out.Completed? ==> r.Reply? && r.result == Obj(map["ok" := Bool(out.NeedMore?)]))
  {
    if EnvelopeArgs(lib, frame).Some? {
      InvokeIsOwed(lib, cap, t, ExtractRequest(lib, frame.msg).value.callId, EnvelopeArgs(lib, frame).value);
    }
  }

  lemma ReactionPasses(lib: Library, cap: nat, channelId: string, t: Table, frame: Frame)
    requires TableOk(cap, t)
    ensures var r := React(lib, cap, channelId, t, frame).1;
            && Passing(lib, cap, t, frame) == (if Passes(r) then Some(r.args) else None)
            && (r.Clash? <==> Clashes(lib, cap, t, frame))
  {
    if EnvelopeArgs(lib, frame).Some? {
      InvokeIsOwed(lib, cap, t, ExtractRequest(lib, frame.msg).value.callId, EnvelopeArgs(lib, frame).value);
    }
  }

  /** The frame asks for `receive_envelope` with these arguments. */
  ghost predicate Envelopes(lib: Library, frame: Frame, args: JsonObject) {
    && frame.Loaded?
    && exists r: Request ::
         && ExtractRequest(lib, frame.msg) == Some(r) && r.name == "receive_envelope"
         && args == (if r.arguments.Some? then r.arguments.value else map[])
  }

  /** The body of the arguments is an object with a marker object of another version than 1, or with none at all. */
  ghost predicate PlainBody(lib: Library, args: JsonObject) {
    "body" in args && args["body"].Obj? && Marked(args["body"].fields) ==>
      exists v :: v != 1 && HasInt(lib, args["body"].fields["__rpcproxy_chunk__"].fields, "version", v)
  }

  /** The body is an object with a marker object of version 1. */
  ghost predicate ChunkBodied(lib: Library, args: JsonObject) {
    && "body" in args && args["body"].Obj? && Marked(args["body"].fields)
    && HasInt(lib, args["body"].fields["__rpcproxy_chunk__"].fields, "version", 1)
  }

  /**
   * What becomes of an envelope, by the version in its body. Without a marker object, or with another version, it is
   * passed on with its own arguments and the reassembler does not see it. With version 1 it goes to the reassembler.
   * A marker object without a version that is an integer ends the loop.
   */
  lemma EnvelopesAreSorted(lib: Library, cap: nat, channelId: string, t: Table, frame: Frame, args: JsonObject)
    requires TableOk(cap, t) && Envelopes(lib, frame, args)
    ensures var (t', r) := React(lib, cap, channelId, t, frame);
            && (PlainBody(lib, args) ==>
                  t' == t && if "self" in args then r == Clash(args) else r.Deliver? && r.args == args)
            && (ChunkBodied(lib, args) ==> t' == PushStep(lib, cap, t, args["body"].fields).0 && !r.Crash?)
            && (!PlainBody(lib, args) && !ChunkBodied(lib, args) ==> t' == t && r.Crash?)
  {
    if "body" in args && args["body"].Obj? {
      VersionDecides(lib, args["body"].fields);
    }
    ReactionIsOwed(lib, cap, channelId, t, frame);
  }

  // ---- whole sequences of frames ----

  /** The reassembler and the reactions so far; `running` until a frame ends the loop. */
  datatype Reading = Reading(table: Table, reactions: seq<Reaction>, running: bool)

  ghost function Read(lib: Library, cap: nat, channelId: string, frames: seq<Frame>): (r: Reading)
    requires cap >= 1
    ensures TableOk(cap, r.table) && |r.reactions| <= |frames| && (r.running ==> |r.reactions| == |frames|)
  {
    if frames == [] then Reading(Empty(), [], true)
    else
      var n := |frames| - 1;
      var before := Read(lib, cap, channelId, frames[..n]);
      if !before.running then before
      else
        ReactKeepsTable(lib, cap, channelId, before.table, frames[n]);
        var (t, r) := React(lib, cap, channelId, before.table, frames[n]);
        Reading(t, before.reactions + [r], !Ends(r))
  }

  lemma ReactKeepsTable(lib: Library, cap: nat, channelId: string, t: Table, frame: Frame)
    requires cap >= 1 && TableOk(cap, t)
    ensures TableOk(cap, React(lib, cap, channelId, t, frame).0)
  {
    ReactionIsOwed(lib, cap, channelId, t, frame);
    if ChunkIn(lib, frame).Some? {
      PushKeepsTable(lib, cap, t, ChunkIn(lib, frame).value);
    }
  }

  /** The reassembler after the chunks among these frames, whatever the reader makes of them. */
  ghost function TableAfter(lib: Library, cap: nat, frames: seq<Frame>): (t: Table)
    requires cap >= 1
    ensures TableOk(cap, t)
  {
    if frames == [] then Empty()
    else
      var t, body := TableAfter(lib, cap, frames[..|frames| - 1]), ChunkIn(lib, frames[|frames| - 1]);
      if body.None? then t
      else
        PushKeepsTable(lib, cap, t, body.value);
        PushStep(lib, cap, t, body.value).0
  }

  /** While the reader runs, its reassembler has seen every chunk. */
  lemma {:induction false} TableOfReading(lib: Library, cap: nat, channelId: string, frames: seq<Frame>)
    requires cap >= 1 && Read(lib, cap, channelId, frames).running
    ensures Read(lib, cap, channelId, frames).table == TableAfter(lib, cap, frames)
  {
    if frames != [] {
      var n := |frames| - 1;
      TableOfReading(lib, cap, channelId, frames[..n]);
      ReactionIsOwed(lib, cap, channelId, TableAfter(lib, cap, frames[..n]), frames[n]);
    }
  }

  predicate EndsLoop(lib: Library, cap: nat, t: Table, frame: Frame)
    requires TableOk(cap, t)
  {
    frame.Closed? || frame.LoadFails? || BadVersion(lib, frame) || Clashes(lib, cap, t, frame)
  }

  lemma LoopEnds(lib: Library, cap: nat, channelId: string, t: Table, frame: Frame)
    requires TableOk(cap, t)
    ensures Ends(React(lib, cap, channelId, t, frame).1) <==> EndsLoop(lib, cap, t, frame)
  {
    ReactionIsOwed(lib, cap, channelId, t, frame);
  }

  /** The i-th frame ends the loop, if it gets that far. */
  ghost predicate EndsAt(lib: Library, cap: nat, frames: seq<Frame>, i: nat)
    requires cap >= 1 && i < |frames|
  {
    EndsLoop(lib, cap, TableAfter(lib, cap, frames[..i]), frames[i])
  }

  lemma ReadStep(lib: Library, cap: nat, channelId: string, frames: seq<Frame>)
    requires cap >= 1 && frames != []
    ensures Read(lib, cap, channelId, frames).running
       <==> Read(lib, cap, channelId, frames[..|frames| - 1]).running && !EndsAt(lib, cap, frames, |frames| - 1)
  {
    var before, last := frames[..|frames| - 1], frames[|frames| - 1];
    if Read(lib, cap, channelId, before).running {
      TableOfReading(lib, cap, channelId, before);
      LoopEnds(lib, cap, channelId, TableAfter(lib, cap, before), last);
    }
  }

  lemma EndsAtInPrefix(lib: Library, cap: nat, frames: seq<Frame>, n: nat)
    requires cap >= 1 && n <= |frames|
    ensures forall i: nat | i < n :: EndsAt(lib, cap, frames[..n], i) == EndsAt(lib, cap, frames, i)
  {
    assert forall i: nat | i < n :: frames[..n][i] == frames[i] && frames[..n][..i] == frames[..i];
  }

  /**
   * As far as the frames decide, the loop survives a sequence of them exactly when none closes the connection, none
   * fails to load with an unexpected error, none has a marker without a usable version, and none makes
   * `receive_envelope` be called with an argument named `self`. What user code raises and a send that fails are events
   * of their own.
   */
  lemma {:induction false} ReaderSurvives(lib: Library, cap: nat, channelId: string, frames: seq<Frame>)
    requires cap >= 1
    ensures Read(lib, cap, channelId, frames).running
       <==> forall i: nat | i < |frames| :: !EndsAt(lib, cap, frames, i)
  {
    if frames != [] {
      var n := |frames| - 1;
      ReaderSurvives(lib, cap, channelId, frames[..n]);
      ReadStep(lib, cap, channelId, frames);
      EndsAtInPrefix(lib, cap, frames, n);
    }
  }

  ghost function KnownCalls(lib: Library, frames: seq<Frame>): seq<string> {
    if frames == [] then []
    else
      var before, id := KnownCalls(lib, frames[..|frames| - 1]), KnownCall(lib, frames[|frames| - 1]);
      if id.Some? then before + [id.value] else before
  }

  ghost function OwedReplies(reactions: seq<Reaction>): seq<string> {
    if reactions == [] then []
    else
      var before, id := OwedReplies(reactions[..|reactions| - 1]), ReplyId(reactions[|reactions| - 1]);
      if id.Some? then before + [id.value] else before
  }

  /** The replies a surviving reader owes are the known calls, in order of arrival, under their own ids. */
  lemma {:induction false} RepliesInOrder(lib: Library, cap: nat, channelId: string, frames: seq<Frame>)
    requires cap >= 1 && Read(lib, cap, channelId, frames).running
    ensures OwedReplies(Read(lib, cap, channelId, frames).reactions) == KnownCalls(lib, frames)
  {
    if frames != [] {
      var n := |frames| - 1;
      var before := Read(lib, cap, channelId, frames[..n]);
      RepliesInOrder(lib, cap, channelId, frames[..n]);
      ReactionIsOwed(lib, cap, channelId, before.table, frames[n]);
      assert Read(lib, cap, channelId, frames).reactions[..n] == before.reactions;
    }
  }
}
