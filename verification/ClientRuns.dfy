/**
 * The whole single-reader client as a state machine: any interleaving of its calls, waits, reader turns and close.
 * Every step is one stretch of code between two `await`s.
 */
module ClientRuns {
  import opened Prelude
  import Text
  import opened Json
  import opened OrderedDicts
  import opened Chunking
  import opened Reassembly
  import opened Wire
  import opened Reader
  import Relay
  import Calls

  /** Where the reader task is. */
  datatype ReaderStatus =
    | Absent                               // no reader task
    | Receiving                            // awaiting `recv`
    | Handling(callId: string)             // awaiting `receive_envelope`
    | Sending(callId: string, result: Json) // awaiting the send of a reply
    | Ended                                // the reader task returned
    | Failed                               // the reader task ended with an exception

  datatype ClientState = ClientState(
    calls: Calls.CallState, relay: Relay.RelayState, table: Table, reader: ReaderStatus, connected: bool)

  datatype Config = Config(channelId: string, stashMax: int, maxPending: nat, ids: Calls.Ids)

  function InitialClient(): ClientState {
    ClientState(Calls.InitialCalls(), Relay.InitialRelay(), Empty(), Absent, false)
  }

  ghost predicate ClientOk(lib: Library, cfg: Config, s: ClientState) {
    && cfg.maxPending >= 1
    && Calls.CallsOk(lib, cfg.ids, s.calls)
    && Relay.RelayOk(cfg.stashMax, s.relay)
    && TableOk(cfg.maxPending, s.table)
    && (!s.connected ==> s.reader.Absent?)
    && (s.reader.Absent? ==> s.table == Empty())
  }

  // ---- the steps ----

  /** The `finally` block of the reader loop. */
  function ReaderFinally(s: ClientState, how: ReaderStatus): ClientState {
    s.(calls := Calls.CancelAll(s.calls), relay := Relay.Cleanup(s.relay), reader := how)
  }

  predicate Active(r: ReaderStatus) {
    r.Receiving? || r.Handling? || r.Sending?
  }

  predicate InBounds(s: ClientState) {
    && (forall k | k in s.calls.pending :: s.calls.pending[k] < |s.calls.calls|)
    && (forall k | k in s.relay.waiting :: s.relay.waiting[k] < |s.relay.waiters|)
  }

  /** `_relay_publish` for the arguments of an envelope. */
  function AfterPublish(lib: Library, cfg: Config, s: ClientState, args: JsonObject): ClientState
    requires forall k | k in s.relay.waiting :: s.relay.waiting[k] < |s.relay.waiters|
  {
    s.(relay := Relay.Publish(cfg.stashMax, s.relay, ArgStr(lib, args, "request_id"), args))
  }

  /** The part of a loop turn that follows from the reaction to the frame. */
  function Carry(lib: Library, cfg: Config, s: ClientState, reaction: Reaction): ClientState
    requires InBounds(s)
  {
    match reaction
    case Nothing => s
    case Reply(id, result) => s.(reader := Sending(id, result))
    case Deliver(id, args) => AfterPublish(lib, cfg, s, args).(reader := Handling(id))
    case Clash(args) => ReaderFinally(AfterPublish(lib, cfg, s, args), Failed)
    case Crash(_) => ReaderFinally(s, Failed)
    case Leave => ReaderFinally(s, Ended)
  }

  /** Where the reader task is after a reaction. */
  function StatusAfter(reaction: Reaction): ReaderStatus {
    match reaction
    case Nothing => Receiving
    case Reply(id, result) => Sending(id, result)
    case Deliver(id, _) => Handling(id)
    case Clash(_) => Failed
    case Crash(_) => Failed
    case Leave => Ended
  }

  /** The client's own calls see the frame first. */
  function Complete(lib: Library, s: ClientState, frame: Frame): ClientState
    requires InBounds(s)
  {
    if frame.Loaded? then s.(calls := Calls.TryComplete(lib, s.calls, frame.msg).0) else s
  }

  /** One turn of the loop, from a frame to the next `await`. */
  function OnFrame(lib: Library, cfg: Config, s: ClientState, frame: Frame): ClientState
    requires TableOk(cfg.maxPending, s.table) && InBounds(s)
  {
    var (table, reaction) := React(lib, cfg.maxPending, cfg.channelId, s.table, frame);
    Carry(lib, cfg, Complete(lib, s, frame).(table := table), reaction)
  }

  /** `close()` once its reader task is over. Awaiting a failed task raises, and nothing below that line happens. */
  function CloseCleanup(s: ClientState): ClientState {
    if s.reader.Failed? then s
    else ReaderFinally(s, Absent).(table := Empty())
  }

  datatype ClientEvent =
    | Connect
    | FrameArrives(frame: Frame)
    | HandlerReturns(result: Json)
    | HandlerRaises
    | SendDone
    | SendFails
    | ReaderCancelled
    | Close
    | SocketClosed
    | CallEv(call: Calls.CallEvent)
    | RelayEv(relay: Relay.RelayEvent)

  /** Which events can happen: user code never publishes, completes or tears down by itself. */
  predicate Enabled(s: ClientState, e: ClientEvent) {
    match e
    case Connect => !s.connected
    case FrameArrives(_) => s.reader.Receiving?
    case HandlerReturns(_) => s.reader.Handling?
    case HandlerRaises => s.reader.Handling?
    case SendDone => s.reader.Sending?
    case SendFails => s.reader.Sending?
    case ReaderCancelled => Active(s.reader)
    case Close => !Active(s.reader)
    case SocketClosed => s.connected && s.reader.Absent?
    case CallEv(c) => (c.CallBeginEv? && s.connected) || c.InterruptEv? || c.CallEndEv?
    case RelayEv(r) => r.WaitBeginEv? || r.InterruptEv? || r.WaitEndEv?
  }

  function ClientStep(lib: Library, cfg: Config, s: ClientState, e: ClientEvent): ClientState
    requires ClientOk(lib, cfg, s) && Enabled(s, e)
  {
    match e
    case Connect => s.(reader := Receiving, connected := true)
    case FrameArrives(frame) => OnFrame(lib, cfg, s, frame)
    case HandlerReturns(result) => s.(reader := Sending(s.reader.callId, result))
    case HandlerRaises => ReaderFinally(s, Failed)
    case SendDone => s.(reader := Receiving)
    case SendFails => ReaderFinally(s, Failed)
    case ReaderCancelled => ReaderFinally(s, Ended)
    case Close => CloseCleanup(s)
    case SocketClosed => s.(connected := false)
    case CallEv(c) => s.(calls := Calls.CallStep(lib, cfg.ids, s.calls, c))
    case RelayEv(r) => s.(relay := Relay.RelayStep(cfg.stashMax, s.relay, r))
  }

  // ---- what every run keeps ----

  lemma FinallyOk(lib: Library, cfg: Config, s: ClientState, how: ReaderStatus)
    requires ClientOk(lib, cfg, s.(reader := Receiving, connected := true)) && s.connected && !how.Absent?
    ensures ClientOk(lib, cfg, ReaderFinally(s, how))
  {
    CleanedUpOk(lib, cfg, s);
  }

  lemma CleanedUpOk(lib: Library, cfg: Config, s: ClientState)
    requires Calls.CallsOk(lib, cfg.ids, s.calls) && Relay.RelayOk(cfg.stashMax, s.relay)
    ensures Calls.CallsOk(lib, cfg.ids, Calls.CancelAll(s.calls)) && Relay.RelayOk(cfg.stashMax, Relay.Cleanup(s.relay))
  {
    Calls.CancelAllOk(lib, cfg.ids, s.calls);
    RelayCleanedUp(cfg.stashMax, s.relay);
  }

  lemma RelayCleanedUp(cap: int, s: Relay.RelayState)
    requires Relay.RelayOk(cap, s)
    ensures Relay.RelayOk(cap, Relay.Cleanup(s))
  {
    Relay.RelayStepOk(cap, s, Relay.CleanupEv);
  }

  lemma PublishKeepsClient(lib: Library, cfg: Config, s: ClientState, args: JsonObject)
    requires ClientOk(lib, cfg, s)
    ensures ClientOk(lib, cfg, AfterPublish(lib, cfg, s, args))
  {
    Relay.RelayStepOk(cfg.stashMax, s.relay, Relay.PublishEv(ArgStr(lib, args, "request_id"), args));
  }

  lemma CarryKeepsClient(lib: Library, cfg: Config, s: ClientState, reaction: Reaction)
    requires ClientOk(lib, cfg, s) && s.reader.Receiving?
    ensures ClientOk(lib, cfg, Carry(lib, cfg, s, reaction))
  {
    match reaction
    case Deliver(_, args) => PublishKeepsClient(lib, cfg, s, args);
    case Clash(args) =>
      PublishKeepsClient(lib, cfg, s, args);
      FinallyOk(lib, cfg, AfterPublish(lib, cfg, s, args), Failed);
    case Crash(_) => FinallyOk(lib, cfg, s, Failed);
    case Leave => FinallyOk(lib, cfg, s, Ended);
    case _ =>
  }

  lemma FrameKeepsClient(lib: Library, cfg: Config, s: ClientState, frame: Frame)
    requires ClientOk(lib, cfg, s) && s.reader.Receiving?
    ensures ClientOk(lib, cfg, OnFrame(lib, cfg, s, frame))
  {
    ReactKeepsTable(lib, cfg.maxPending, cfg.channelId, s.table, frame);
    if frame.Loaded? {
      Calls.TryCompleteOk(lib, cfg.ids, s.calls, frame.msg);
    }
    var (table, reaction) := React(lib, cfg.maxPending, cfg.channelId, s.table, frame);
    CarryKeepsClient(lib, cfg, Complete(lib, s, frame).(table := table), reaction);
  }

  lemma CloseKeepsClient(lib: Library, cfg: Config, s: ClientState)
    requires ClientOk(lib, cfg, s)
    ensures ClientOk(lib, cfg, CloseCleanup(s))
  {
    CleanedUpOk(lib, cfg, s);
  }

  lemma PartsKeepClient(lib: Library, cfg: Config, s: ClientState, c: Calls.CallEvent, r: Relay.RelayEvent)
    requires ClientOk(lib, cfg, s)
    ensures ClientOk(lib, cfg, s.(calls := Calls.CallStep(lib, cfg.ids, s.calls, c)))
    ensures ClientOk(lib, cfg, s.(relay := Relay.RelayStep(cfg.stashMax, s.relay, r)))
  {
    Calls.CallStepOk(lib, cfg.ids, s.calls, c);
    Relay.RelayStepOk(cfg.stashMax, s.relay, r);
  }

  lemma ClientStepOk(lib: Library, cfg: Config, s: ClientState, e: ClientEvent)
    requires ClientOk(lib, cfg, s) && Enabled(s, e)
    ensures ClientOk(lib, cfg, ClientStep(lib, cfg, s, e))
  {
    match e
    case Connect =>
    case FrameArrives(frame) => FrameKeepsClient(lib, cfg, s, frame);
    case HandlerReturns(_) =>
    case HandlerRaises => FinallyOk(lib, cfg, s, Failed);
    case SendDone =>
    case SendFails => FinallyOk(lib, cfg, s, Failed);
    case ReaderCancelled => FinallyOk(lib, cfg, s, Ended);
    case Close => CloseKeepsClient(lib, cfg, s);
    case SocketClosed =>
    case CallEv(c) => PartsKeepClient(lib, cfg, s, c, Relay.CleanupEv);
    case RelayEv(r) => PartsKeepClient(lib, cfg, s, Calls.CancelAllEv, r);
  }

  // ---- teardown ----

  /** Nobody is left waiting: the tables are empty and every future registered so far is done or cancelled. */
  ghost predicate TornDown(s: ClientState) {
    && s.calls.pending == map[] && s.relay.waiting == map[] && s.relay.stash == Empty()
    && (forall c | 0 <= c < |s.calls.calls| :: !s.calls.calls[c].fut.Pending?)
    && (forall w | 0 <= w < |s.relay.waiters| :: !s.relay.waiters[w].fut.Pending?)
  }

  lemma CarryTearsDown(lib: Library, cfg: Config, s: ClientState, reaction: Reaction)
    requires ClientOk(lib, cfg, s) && s.reader.Receiving?
    ensures if Ends(reaction) then TornDown(Carry(lib, cfg, s, reaction))
            else Active(Carry(lib, cfg, s, reaction).reader)
  {
    if reaction.Clash? {
      PublishKeepsClient(lib, cfg, s, reaction.args);
      FinallyTearsDown(lib, cfg, AfterPublish(lib, cfg, s, reaction.args), Failed);
    } else if Ends(reaction) {
      FinallyTearsDown(lib, cfg, s, StatusAfter(reaction));
    }
  }

  lemma FinallyTearsDown(lib: Library, cfg: Config, s: ClientState, how: ReaderStatus)
    requires ClientOk(lib, cfg, s)
    ensures TornDown(ReaderFinally(s, how))
  {
    CancelledAll(lib, cfg, s);
    assert ReaderFinally(s, how).(table := s.table) == ReaderFinally(s, how);
  }

  /** Whatever ends the reader loop, its `finally` block releases everybody. */
  lemma ReaderEndTearsDown(lib: Library, cfg: Config, s: ClientState, e: ClientEvent)
    requires ClientOk(lib, cfg, s) && Enabled(s, e) && Active(s.reader)
    requires !Active(ClientStep(lib, cfg, s, e).reader)
    ensures TornDown(ClientStep(lib, cfg, s, e))
  {
    if e.FrameArrives? {
      var (table, reaction) := React(lib, cfg.maxPending, cfg.channelId, s.table, e.frame);
      ReactKeepsTable(lib, cfg.maxPending, cfg.channelId, s.table, e.frame);
      if e.frame.Loaded? {
        Calls.TryCompleteOk(lib, cfg.ids, s.calls, e.frame.msg);
      }
      CarryTearsDown(lib, cfg, Complete(lib, s, e.frame).(table := table), reaction);
    } else if !e.CallEv? && !e.RelayEv? {
      CancelledAll(lib, cfg, s);
    }
  }

  lemma CancelledAll(lib: Library, cfg: Config, s: ClientState)
    requires ClientOk(lib, cfg, s)
    ensures forall how, table :: TornDown(ReaderFinally(s, how).(table := table))
  {
    var calls, relay := Calls.CancelAll(s.calls), Relay.Cleanup(s.relay);
    assert forall c | 0 <= c < |calls.calls| :: !calls.calls[c].fut.Pending?;
    assert forall w | 0 <= w < |relay.waiters| :: !relay.waiters[w].fut.Pending?;
  }

  /**
   * `close()` releases everybody and empties the reassembler exactly when the reader task did not fail
   * (or there was nothing to release): after a failure, awaiting that task raises before the cleanup.
   */
  lemma CloseTearsDownUnlessFailed(lib: Library, cfg: Config, s: ClientState)
    requires ClientOk(lib, cfg, s) && Enabled(s, Close)
    ensures var s' := ClientStep(lib, cfg, s, Close);
            && (TornDown(s') && s'.table == Empty() <==> !s.reader.Failed? || (TornDown(s) && s.table == Empty()))
            && (s.reader.Failed? ==> s' == s)
  {
    CancelledAll(lib, cfg, s);
  }

  /**
   * Where the reader task is after each event. It returns at the end of the connection and when it is cancelled; it
   * fails with an exception of the load, of the version test, of the call of `receive_envelope`, of user code or of a
   * send; it is in `receive_envelope` exactly after a frame that enters it; and it waits for the next frame after one
   * that owes nothing, and after a reply. Only `connect` starts it, and only `close` forgets it.
   */
  lemma ReaderMoves(lib: Library, cfg: Config, s: ClientState, e: ClientEvent)
    requires ClientOk(lib, cfg, s) && Enabled(s, e)
    ensures var s' := ClientStep(lib, cfg, s, e);
            && (e.Connect? ==> s'.reader == Receiving && s'.connected)
            && (e.FrameArrives? ==> FrameLeads(lib, cfg, s, e.frame, s'.reader))
            && (e.HandlerReturns? ==> s'.reader == Sending(s.reader.callId, e.result))
            && (e.HandlerRaises? || e.SendFails? ==> s'.reader == Failed)
            && (e.SendDone? ==> s'.reader == Receiving)
            && (e.ReaderCancelled? ==> s'.reader == Ended)
            && (e.Close? ==> s'.reader == if s.reader.Failed? then Failed else Absent)
            && (e.SocketClosed? || e.CallEv? || e.RelayEv? ==> s'.reader == s.reader)
            && s'.connected == (e.Connect? || (s.connected && !e.SocketClosed?))
  {
    if e.FrameArrives? {
      ReactionIsOwed(lib, cfg.maxPending, cfg.channelId, s.table, e.frame);
      FrameMoves(lib, cfg, s, e.frame, React(lib, cfg.maxPending, cfg.channelId, s.table, e.frame).0,
                 React(lib, cfg.maxPending, cfg.channelId, s.table, e.frame).1);
    }
  }

  /**
   * The answer to a call that is under way resolves it, and does nothing else: the reader goes on waiting, and the
   * relay, the reassembler and all other calls are as before.
   */
  lemma AnswerResolvesCall(lib: Library, cfg: Config, s: ClientState, msg: JsonObject, c: nat)
    requires ClientOk(lib, cfg, s) && s.reader.Receiving?
    requires c < |s.calls.calls| && s.calls.calls[c].fut.Pending? && AnswersCall(lib, msg) == Some(cfg.ids(c))
    ensures var s' := ClientStep(lib, cfg, s, FrameArrives(Loaded(msg)));
            && s'.calls.calls == s.calls.calls[c := Calls.Call(cfg.ids(c), Relay.Done(msg["response"].fields), true)]
            && s'.calls.pending == s.calls.pending - {cfg.ids(c)}
            && s' == s.(calls := s'.calls)
  {
    AnswersAreNotDispatched(lib, cfg.maxPending, cfg.channelId, s.table, msg);
  }

  /** The steps of a caller or a waiter are those of its own part, and touch nothing else. */
  lemma OtherTasksStepAlone(lib: Library, cfg: Config, s: ClientState, c: Calls.CallEvent, r: Relay.RelayEvent)
    requires ClientOk(lib, cfg, s)
    ensures Enabled(s, CallEv(c)) ==>
              var s' := ClientStep(lib, cfg, s, CallEv(c));
              s'.calls == Calls.CallStep(lib, cfg.ids, s.calls, c) && s' == s.(calls := s'.calls)
    ensures Enabled(s, RelayEv(r)) ==>
              var s' := ClientStep(lib, cfg, s, RelayEv(r));
              s'.relay == Relay.RelayStep(cfg.stashMax, s.relay, r) && s' == s.(relay := s'.relay)
  {
  }

  /** Where a frame leads the reader task. */
  ghost predicate FrameLeads(lib: Library, cfg: Config, s: ClientState, frame: Frame, reader: ReaderStatus)
    requires TableOk(cfg.maxPending, s.table)
  {
    var call := KnownCall(lib, frame);
    if frame.Closed? then reader == Ended
    else if EndsLoop(lib, cfg.maxPending, s.table, frame) then reader == Failed
    else if call.None? then reader == Receiving
    else if Passing(lib, cfg.maxPending, s.table, frame).Some? then reader == Handling(call.value)
    else reader.Sending? && reader.callId == call.value
  }

  /** A frame that makes the reader fail, whatever the library does: a chunk marker without a version. */
  function BadFrame(): Frame {
    Loaded(CallRequestMessage("receive_envelope", map["body" := Obj(map[CHUNK_MARKER := Obj(map[])])], "id"))
  }

  lemma BadFrameFails(lib: Library, cfg: Config, s: ClientState)
    requires ClientOk(lib, cfg, s) && s.reader.Receiving?
    ensures var s' := ClientStep(lib, cfg, s, FrameArrives(BadFrame()));
            s'.reader == Failed && s'.connected == s.connected && |s'.calls.calls| == |s.calls.calls|
  {
    var args := map["body" := Obj(map[CHUNK_MARKER := Obj(map[])])];
    CallAndReplyAreRead(lib, "receive_envelope", args, "id", Null, "");
    assert BadVersion(lib, BadFrame()) by {
      assert ChunkMeta(args["body"].fields) == Success(map[]);
    }
    ReactionIsOwed(lib, cfg.maxPending, cfg.channelId, s.table, BadFrame());
  }

  /** Another one: a call of `receive_envelope` with an extra argument named `self`. */
  function SelfFrame(): Frame {
    Loaded(CallRequestMessage("receive_envelope", map["self" := Int(1)], "id"))
  }

  lemma SelfArgumentFails(lib: Library, cfg: Config, s: ClientState)
    requires ClientOk(lib, cfg, s) && s.reader.Receiving?
    ensures var s' := ClientStep(lib, cfg, s, FrameArrives(SelfFrame()));
            s'.reader == Failed && s'.connected == s.connected && TornDown(s')
  {
    var args: JsonObject := map["self" := Int(1)];
    CallAndReplyAreRead(lib, "receive_envelope", args, "id", Null, "");
    assert EnvelopeArgs(lib, SelfFrame()) == Some(args);
    ReactionIsOwed(lib, cfg.maxPending, cfg.channelId, s.table, SelfFrame());
    ReaderEndTearsDown(lib, cfg, s, FrameArrives(SelfFrame()));
  }

  /**
   * Such a failure really leaves a caller behind: a call that starts afterwards is still pending when `close`,
   * which the failed task makes raise, is over.
   */
  lemma CloseAfterFailureLeavesACall(lib: Library, cfg: Config, s: ClientState)
    requires ClientOk(lib, cfg, s) && s.reader.Failed?
    ensures Enabled(s, CallEv(Calls.CallBeginEv)) && Enabled(s, Close)
    ensures var calling := s.(calls := Calls.CallStep(lib, cfg.ids, s.calls, Calls.CallBeginEv));
            var closed := CloseCleanup(calling);
            !TornDown(closed) && closed.calls.calls[|s.calls.calls|].fut.Pending?
  {
    var calling := s.(calls := Calls.CallStep(lib, cfg.ids, s.calls, Calls.CallBeginEv));
    assert calling.calls.calls[|s.calls.calls|].fut.Pending?;
  }

  // ---- the serial log of the reader ----

  /** Since the last `connect`: the frames read, the handler's results, the replies sent and the deliveries made. */
  datatype Log = Log(arrived: seq<Frame>, handled: seq<Json>, sent: seq<(string, Json)>, delivered: seq<Delivery>)

  function LogStep(lib: Library, cfg: Config, s: ClientState, log: Log, e: ClientEvent): Log
    requires ClientOk(lib, cfg, s) && Enabled(s, e)
  {
    match e
    case Connect => Log([], [], [], [])
    case FrameArrives(frame) =>
      var r := React(lib, cfg.maxPending, cfg.channelId, s.table, frame).1;
      log.(arrived := log.arrived + [frame],
           delivered := if r.Deliver? then log.delivered + [DeliveryOf(lib, r.args)] else log.delivered)
    case HandlerReturns(result) => log.(handled := log.handled + [result])
    case SendDone => log.(sent := log.sent + [(s.reader.callId, s.reader.result)])
    case _ => log
  }

  ghost function SentIds(sent: seq<(string, Json)>): (r: seq<string>)
    ensures |r| == |sent|
  {
    seq(|sent|, i requires 0 <= i < |sent| => sent[i].0)
  }

  ghost function Deliveries(lib: Library, reactions: seq<Reaction>): seq<Delivery> {
    if reactions == [] then []
    else
      var before, r := Deliveries(lib, reactions[..|reactions| - 1]), reactions[|reactions| - 1];
      if r.Deliver? then before + [DeliveryOf(lib, r.args)] else before
  }

  /**
   * The replies that are due: an immediate reaction's own result, and for the k-th delivery the k-th result of the
   * handler, once there is one.
   */
  ghost function Due(reactions: seq<Reaction>, handled: seq<Json>): seq<(string, Json)> {
    if reactions == [] then []
    else
      var n := |reactions| - 1;
      var before, k := Due(reactions[..n], handled), CountDeliveries(reactions[..n]);
      match reactions[n]
      case Reply(id, result) => before + [(id, result)]
      case Deliver(id, _) => if k < |handled| then before + [(id, handled[k])] else before
      case _ => before
  }

  ghost function CountDeliveries(reactions: seq<Reaction>): nat {
    if reactions == [] then 0
    else CountDeliveries(reactions[..|reactions| - 1]) + (if reactions[|reactions| - 1].Deliver? then 1 else 0)
  }

  /** While a connection lasts, the log is that of the sequential reader over the same frames. */
  ghost predicate LogOk(lib: Library, cfg: Config, s: ClientState, log: Log)
    requires cfg.maxPending >= 1
  {
    var reading := Read(lib, cfg.maxPending, cfg.channelId, log.arrived);
    && log.delivered == Deliveries(lib, reading.reactions)
    && (Active(s.reader) ==> reading.running && s.table == reading.table)
    && IdsOk(s.reader, log.sent, reading.reactions)
    && ResultsOk(s.reader, log.handled, log.sent, reading.reactions)
    && |KnownCalls(lib, log.arrived)| <= |log.sent| + 1
  }

  /** The ids of the replies sent are those owed, up to the one in hand. */
  ghost predicate IdsOk(reader: ReaderStatus, sent: seq<(string, Json)>, reactions: seq<Reaction>) {
    match reader
    case Receiving => SentIds(sent) == OwedReplies(reactions)
    case Handling(id) => SentIds(sent) + [id] == OwedReplies(reactions)
    case Sending(id, _) => SentIds(sent) + [id] == OwedReplies(reactions)
    case _ => SentIds(sent) <= OwedReplies(reactions)
  }

  /** The replies sent are those due, results included, up to the one in hand. */
  ghost predicate ResultsOk(reader: ReaderStatus, handled: seq<Json>, sent: seq<(string, Json)>,
                            reactions: seq<Reaction>)
  {
    match reader
    case Receiving => |handled| == CountDeliveries(reactions) && sent == Due(reactions, handled)
    case Handling(id) =>
      && |handled| + 1 == CountDeliveries(reactions) && sent == Due(reactions, handled)
      && reactions != [] && reactions[|reactions| - 1].Deliver? && reactions[|reactions| - 1].callId == id
    case Sending(id, result) =>
      |handled| == CountDeliveries(reactions) && sent + [(id, result)] == Due(reactions, handled)
    case _ => sent <= Due(reactions, handled)
  }

  /** The reading and the deliveries of one more frame. */
  lemma ReadMore(lib: Library, cfg: Config, frames: seq<Frame>, frame: Frame)
    requires cfg.maxPending >= 1 && Read(lib, cfg.maxPending, cfg.channelId, frames).running
    ensures var before := Read(lib, cfg.maxPending, cfg.channelId, frames);
            var after := Read(lib, cfg.maxPending, cfg.channelId, frames + [frame]);
            var (t, r) := React(lib, cfg.maxPending, cfg.channelId, before.table, frame);
            && after == Reading(t, before.reactions + [r], !Ends(r))
            && Deliveries(lib, after.reactions)
               == Deliveries(lib, before.reactions) + (if r.Deliver? then [DeliveryOf(lib, r.args)] else [])
  {
    var all := frames + [frame];
    assert all[..|frames|] == frames && all[|frames|] == frame;
    var before := Read(lib, cfg.maxPending, cfg.channelId, frames);
    var (t, r) := React(lib, cfg.maxPending, cfg.channelId, before.table, frame);
    assert (before.reactions + [r])[..|before.reactions|] == before.reactions;
  }

  /** One more reaction, and where it leaves the reader. */
  lemma ReactionKeepsReplies(handled: seq<Json>, sent: seq<(string, Json)>, reactions: seq<Reaction>, r: Reaction)
    requires IdsOk(Receiving, sent, reactions) && ResultsOk(Receiving, handled, sent, reactions)
    ensures IdsOk(StatusAfter(r), sent, reactions + [r]) && ResultsOk(StatusAfter(r), handled, sent, reactions + [r])
  {
    assert (reactions + [r])[..|reactions|] == reactions;
  }

  lemma FrameKeepsLog(lib: Library, cfg: Config, s: ClientState, log: Log, frame: Frame)
    requires ClientOk(lib, cfg, s) && s.reader.Receiving? && LogOk(lib, cfg, s, log)
    ensures LogOk(lib, cfg, OnFrame(lib, cfg, s, frame), LogStep(lib, cfg, s, log, FrameArrives(frame)))
  {
    var before := Read(lib, cfg.maxPending, cfg.channelId, log.arrived);
    var (t, r) := React(lib, cfg.maxPending, cfg.channelId, s.table, frame);
    ReadMore(lib, cfg, log.arrived, frame);
    RepliesInOrder(lib, cfg.maxPending, cfg.channelId, log.arrived);
    ReactionKeepsReplies(log.handled, log.sent, before.reactions, r);
    KnownCallsAppend(lib, log.arrived, frame);
    FrameMoves(lib, cfg, s, frame, t, r);
    assert Active(StatusAfter(r)) <==> !Ends(r);
  }

  lemma KnownCallsAppend(lib: Library, frames: seq<Frame>, frame: Frame)
    ensures |KnownCalls(lib, frames + [frame])| <= |KnownCalls(lib, frames)| + 1
  {
    assert (frames + [frame])[..|frames|] == frames;
  }

  lemma FrameMoves(lib: Library, cfg: Config, s: ClientState, frame: Frame, t: Table, r: Reaction)
    requires TableOk(cfg.maxPending, s.table) && InBounds(s) && s.reader.Receiving?
    requires (t, r) == React(lib, cfg.maxPending, cfg.channelId, s.table, frame)
    ensures OnFrame(lib, cfg, s, frame).reader == StatusAfter(r) && OnFrame(lib, cfg, s, frame).table == t
  {
  }

  /** The handler's result makes its delivery's reply due. */
  lemma {:induction false} DueStays(reactions: seq<Reaction>, handled: seq<Json>, more: seq<Json>)
    requires CountDeliveries(reactions) <= |handled|
    ensures Due(reactions, handled + more) == Due(reactions, handled)
  {
    if reactions != [] {
      DueStays(reactions[..|reactions| - 1], handled, more);
    }
  }

  lemma HandlerKeepsLog(lib: Library, cfg: Config, s: ClientState, log: Log, result: Json)
    requires ClientOk(lib, cfg, s) && s.reader.Handling? && LogOk(lib, cfg, s, log)
    ensures LogOk(lib, cfg, s.(reader := Sending(s.reader.callId, result)), log.(handled := log.handled + [result]))
  {
    var reactions := Read(lib, cfg.maxPending, cfg.channelId, log.arrived).reactions;
    DueStays(reactions[..|reactions| - 1], log.handled, [result]);
  }

  lemma SendKeepsLog(lib: Library, cfg: Config, s: ClientState, log: Log)
    requires ClientOk(lib, cfg, s) && s.reader.Sending? && LogOk(lib, cfg, s, log)
    ensures LogOk(lib, cfg, s.(reader := Receiving), LogStep(lib, cfg, s, log, SendDone))
  {
    assert SentIds(log.sent + [(s.reader.callId, s.reader.result)]) == SentIds(log.sent) + [s.reader.callId];
  }

  lemma LogStepOk(lib: Library, cfg: Config, s: ClientState, log: Log, e: ClientEvent)
    requires ClientOk(lib, cfg, s) && Enabled(s, e) && LogOk(lib, cfg, s, log)
    ensures LogOk(lib, cfg, ClientStep(lib, cfg, s, e), LogStep(lib, cfg, s, log, e))
  {
    match e
    case FrameArrives(frame) => FrameKeepsLog(lib, cfg, s, log, frame);
    case HandlerReturns(result) => HandlerKeepsLog(lib, cfg, s, log, result);
    case SendDone => SendKeepsLog(lib, cfg, s, log);
    case _ =>
  }

  // ---- runs ----

  /** A run from the initial state, with its log; events that are not enabled are skipped. */
  ghost function ClientRun(lib: Library, cfg: Config, es: seq<ClientEvent>): (r: (ClientState, Log))
    requires cfg.maxPending >= 1 && Calls.Fresh(cfg.ids)
    ensures ClientOk(lib, cfg, r.0) && LogOk(lib, cfg, r.0, r.1)
  {
    if es == [] then (InitialClient(), Log([], [], [], []))
    else
      var (s, log) := ClientRun(lib, cfg, es[..|es| - 1]);
      var e := es[|es| - 1];
      if !Enabled(s, e) then (s, log)
      else
        ClientStepOk(lib, cfg, s, e);
        LogStepOk(lib, cfg, s, log, e);
        (ClientStep(lib, cfg, s, e), LogStep(lib, cfg, s, log, e))
  }

  /**
   * The serial reader over every run: the replies sent on a connection are, in order of arrival, one for each call of a
   * known method, under that call's own id. All are sent while the reader waits for the next frame; at most the last
   * one is missing while it is busy or after it ended. And each carries its own result: the reaction's, or what the
   * handler returned for that delivery.
   */
  lemma RepliesAreSerial(lib: Library, cfg: Config, es: seq<ClientEvent>)
    requires cfg.maxPending >= 1 && Calls.Fresh(cfg.ids)
    ensures var (s, log) := ClientRun(lib, cfg, es);
            var owed := KnownCalls(lib, log.arrived);
            var due := Due(Read(lib, cfg.maxPending, cfg.channelId, log.arrived).reactions, log.handled);
            && SentIds(log.sent) <= owed && |owed| <= |log.sent| + 1
            && log.sent <= due
            && (s.reader.Receiving? ==> SentIds(log.sent) == owed && log.sent == due)
  {
    var (s, log) := ClientRun(lib, cfg, es);
    OwedArePrefix(lib, cfg.maxPending, cfg.channelId, log.arrived);
    if Active(s.reader) {
      RepliesInOrder(lib, cfg.maxPending, cfg.channelId, log.arrived);
    }
  }

  lemma {:induction false} OwedArePrefix(lib: Library, cap: nat, channelId: string, frames: seq<Frame>)
    requires cap >= 1
    ensures OwedReplies(Read(lib, cap, channelId, frames).reactions) <= KnownCalls(lib, frames)
  {
    if frames != [] {
      var n := |frames| - 1;
      var before := Read(lib, cap, channelId, frames[..n]);
      OwedArePrefix(lib, cap, channelId, frames[..n]);
      if before.running {
        RepliesInOrder(lib, cap, channelId, frames[..n]);
        ReactionIsOwed(lib, cap, channelId, before.table, frames[n]);
        assert Read(lib, cap, channelId, frames).reactions[..n] == before.reactions;
      }
    }
  }

  // ---- the whole client inherits what its parts keep ----

  function PublishEvent(lib: Library, args: JsonObject): Relay.RelayEvent {
    Relay.PublishEv(ArgStr(lib, args, "request_id"), args)
  }

  /** What a reaction means for the relay. */
  function ReactionEvents(lib: Library, r: Reaction): seq<Relay.RelayEvent> {
    match r
    case Deliver(_, args) => [PublishEvent(lib, args)]
    case Clash(args) => [PublishEvent(lib, args), Relay.CleanupEv]
    case Crash(_) => [Relay.CleanupEv]
    case Leave => [Relay.CleanupEv]
    case _ => []
  }

  /** What one step means for the relay. */
  ghost function RelayEventsOf(lib: Library, cfg: Config, s: ClientState, e: ClientEvent): seq<Relay.RelayEvent>
    requires ClientOk(lib, cfg, s) && Enabled(s, e)
  {
    match e
    case FrameArrives(frame) =>
      ReactionEvents(lib, React(lib, cfg.maxPending, cfg.channelId, s.table, frame).1)
    case HandlerRaises => [Relay.CleanupEv]
    case SendFails => [Relay.CleanupEv]
    case ReaderCancelled => [Relay.CleanupEv]
    case Close => if s.reader.Failed? then [] else [Relay.CleanupEv]
    case RelayEv(r) => [r]
    case _ => []
  }

  /** What one step means for the outgoing calls. */
  ghost function CallEventsOf(lib: Library, cfg: Config, s: ClientState, e: ClientEvent): seq<Calls.CallEvent>
    requires ClientOk(lib, cfg, s) && Enabled(s, e)
  {
    match e
    case FrameArrives(frame) => FrameCallEvents(frame, React(lib, cfg.maxPending, cfg.channelId, s.table, frame).1)
    case HandlerRaises => [Calls.CancelAllEv]
    case SendFails => [Calls.CancelAllEv]
    case ReaderCancelled => [Calls.CancelAllEv]
    case Close => if s.reader.Failed? then [] else [Calls.CancelAllEv]
    case CallEv(c) => [c]
    case _ => []
  }

  ghost function FrameCallEvents(frame: Frame, r: Reaction): seq<Calls.CallEvent> {
    (if frame.Loaded? then [Calls.FrameEv(frame.msg)] else [])
    + (if Ends(r) then [Calls.CancelAllEv] else [])
  }

  ghost function Traces(lib: Library, cfg: Config, es: seq<ClientEvent>): (seq<Calls.CallEvent>, seq<Relay.RelayEvent>)
    requires cfg.maxPending >= 1 && Calls.Fresh(cfg.ids)
  {
    if es == [] then ([], [])
    else
      var n := |es| - 1;
      var (calls, relay) := Traces(lib, cfg, es[..n]);
      var s := ClientRun(lib, cfg, es[..n]).0;
      if !Enabled(s, es[n]) then (calls, relay)
      else (calls + CallEventsOf(lib, cfg, s, es[n]), relay + RelayEventsOf(lib, cfg, s, es[n]))
  }

  lemma RelayRunAppend(cap: int, es: seq<Relay.RelayEvent>, s: Relay.RelayState, e: Relay.RelayEvent)
    requires Relay.RelayRun(cap, Relay.InitialRelay(), es) == s
    ensures Relay.RelayOk(cap, s) && Relay.RelayOk(cap, Relay.RelayStep(cap, s, e))
    ensures Relay.RelayRun(cap, Relay.InitialRelay(), es + [e]) == Relay.RelayStep(cap, s, e)
  {
    assert (es + [e])[..|es|] == es && (es + [e])[|es|] == e;
    Relay.RelayStepOk(cap, s, e);
  }

  lemma CallRunAppend(lib: Library, ids: Calls.Ids, es: seq<Calls.CallEvent>, e: Calls.CallEvent)
    requires Calls.Fresh(ids)
    ensures Calls.CallRun(lib, ids, es + [e]) == Calls.CallStep(lib, ids, Calls.CallRun(lib, ids, es), e)
  {
    assert (es + [e])[..|es|] == es && (es + [e])[|es|] == e;
  }

  lemma RelayStepProjects(lib: Library, cfg: Config, s: ClientState, e: ClientEvent, before: seq<Relay.RelayEvent>)
    requires ClientOk(lib, cfg, s) && Enabled(s, e)
    requires Relay.RelayRun(cfg.stashMax, Relay.InitialRelay(), before) == s.relay
    ensures Relay.RelayRun(cfg.stashMax, Relay.InitialRelay(), before + RelayEventsOf(lib, cfg, s, e))
         == ClientStep(lib, cfg, s, e).relay
  {
    if e.FrameArrives? {
      var (table, reaction) := React(lib, cfg.maxPending, cfg.channelId, s.table, e.frame);
      if e.frame.Loaded? {
        Calls.TryCompleteOk(lib, cfg.ids, s.calls, e.frame.msg);
      }
      CarryProjectsRelay(lib, cfg, Complete(lib, s, e.frame).(table := table), reaction, before);
    } else {
      var events := RelayEventsOf(lib, cfg, s, e);
      if events == [] {
        assert before + events == before;
      } else {
        assert events == [events[0]];
        RelayRunAppend(cfg.stashMax, before, s.relay, events[0]);
      }
    }
  }

  lemma CarryProjectsRelay(lib: Library, cfg: Config, s: ClientState, r: Reaction, before: seq<Relay.RelayEvent>)
    requires InBounds(s) && Relay.RelayRun(cfg.stashMax, Relay.InitialRelay(), before) == s.relay
    ensures Relay.RelayRun(cfg.stashMax, Relay.InitialRelay(), before + ReactionEvents(lib, r))
         == Carry(lib, cfg, s, r).relay
  {
    match r
    case Deliver(_, args) => RelayRunAppend(cfg.stashMax, before, s.relay, PublishEvent(lib, args));
    case Clash(args) => ClashProjectsRelay(lib, cfg, s, args, AfterPublish(lib, cfg, s, args).relay, before);
    case Crash(_) => RelayRunAppend(cfg.stashMax, before, s.relay, Relay.CleanupEv);
    case Leave => RelayRunAppend(cfg.stashMax, before, s.relay, Relay.CleanupEv);
    case _ => assert before + [] == before;
  }

  /** `published` is the relay between the publication and the cleanup. */
  lemma ClashProjectsRelay(lib: Library, cfg: Config, s: ClientState, args: JsonObject, published: Relay.RelayState,
                           before: seq<Relay.RelayEvent>)
    requires InBounds(s) && Relay.RelayRun(cfg.stashMax, Relay.InitialRelay(), before) == s.relay
    requires published == AfterPublish(lib, cfg, s, args).relay
    ensures Relay.RelayRun(cfg.stashMax, Relay.InitialRelay(), before + ReactionEvents(lib, Clash(args)))
         == Carry(lib, cfg, s, Clash(args)).relay
  {
    RelayRunAppend(cfg.stashMax, before, s.relay, PublishEvent(lib, args));
    ClashedRun(cfg.stashMax, before, published, PublishEvent(lib, args));
    ClashedRelay(lib, cfg, s, args, published);
  }

  lemma ClashedRelay(lib: Library, cfg: Config, s: ClientState, args: JsonObject, published: Relay.RelayState)
    requires InBounds(s) && published == AfterPublish(lib, cfg, s, args).relay
    ensures Carry(lib, cfg, s, Clash(args)).relay == Relay.Cleanup(published)
  {
  }

  lemma ClashedRun(cap: int, es: seq<Relay.RelayEvent>, published: Relay.RelayState, publish: Relay.RelayEvent)
    requires Relay.RelayRun(cap, Relay.InitialRelay(), es + [publish]) == published
    ensures Relay.RelayRun(cap, Relay.InitialRelay(), es + [publish, Relay.CleanupEv]) == Relay.Cleanup(published)
  {
    RelayRunAppend(cap, es + [publish], published, Relay.CleanupEv);
    assert es + [publish] + [Relay.CleanupEv] == es + [publish, Relay.CleanupEv];
  }

  lemma CompleteProjectsCalls(lib: Library, cfg: Config, s: ClientState, frame: Frame, before: seq<Calls.CallEvent>)
    requires ClientOk(lib, cfg, s) && Calls.CallRun(lib, cfg.ids, before) == s.calls
    ensures Calls.CallRun(lib, cfg.ids, before + (if frame.Loaded? then [Calls.FrameEv(frame.msg)] else []))
         == Complete(lib, s, frame).calls
  {
    if frame.Loaded? {
      CallRunAppend(lib, cfg.ids, before, Calls.FrameEv(frame.msg));
    } else {
      assert before + [] == before;
    }
  }

  lemma CarryCalls(lib: Library, cfg: Config, s: ClientState, r: Reaction)
    requires InBounds(s)
    ensures Carry(lib, cfg, s, r).calls == if Ends(r) then Calls.CancelAll(s.calls) else s.calls
  {}

  lemma FrameProjectsCalls(lib: Library, cfg: Config, s: ClientState, frame: Frame, t: Table, r: Reaction,
                           before: seq<Calls.CallEvent>)
    requires ClientOk(lib, cfg, s) && s.reader.Receiving? && Calls.CallRun(lib, cfg.ids, before) == s.calls
    requires InBounds(Complete(lib, s, frame))
    ensures Calls.CallRun(lib, cfg.ids, before + FrameCallEvents(frame, r))
         == Carry(lib, cfg, Complete(lib, s, frame).(table := t), r).calls
  {
    var first: seq<Calls.CallEvent> := if frame.Loaded? then [Calls.FrameEv(frame.msg)] else [];
    var after: seq<Calls.CallEvent> := if Ends(r) then [Calls.CancelAllEv] else [];
    CompleteProjectsCalls(lib, cfg, s, frame, before);
    CarryCalls(lib, cfg, Complete(lib, s, frame).(table := t), r);
    ConcatAssociates(before, first, after);
    if Ends(r) {
      CallRunAppend(lib, cfg.ids, before + first, Calls.CancelAllEv);
      CancelIsStep(lib, cfg.ids, Complete(lib, s, frame).calls);
    } else {
      assert before + first + after == before + first;
    }
  }

  lemma CancelIsStep(lib: Library, ids: Calls.Ids, s: Calls.CallState)
    requires forall k | k in s.pending :: s.pending[k] < |s.calls|
    ensures Calls.CallStep(lib, ids, s, Calls.CancelAllEv) == Calls.CancelAll(s)
  {}

  lemma CallStepProjects(lib: Library, cfg: Config, s: ClientState, e: ClientEvent, before: seq<Calls.CallEvent>)
    requires ClientOk(lib, cfg, s) && Enabled(s, e) && Calls.CallRun(lib, cfg.ids, before) == s.calls
    ensures Calls.CallRun(lib, cfg.ids, before + CallEventsOf(lib, cfg, s, e)) == ClientStep(lib, cfg, s, e).calls
  {
    if e.FrameArrives? {
      var (t, r) := React(lib, cfg.maxPending, cfg.channelId, s.table, e.frame);
      if e.frame.Loaded? {
        Calls.TryCompleteOk(lib, cfg.ids, s.calls, e.frame.msg);
      }
      FrameProjectsCalls(lib, cfg, s, e.frame, t, r, before);
    } else {
      var events := CallEventsOf(lib, cfg, s, e);
      if events == [] {
        assert before + events == before;
      } else {
        assert events == [events[0]];
        CallRunAppend(lib, cfg.ids, before, events[0]);
      }
    }
  }

  /** The calls and the relay of the whole client are reachable on their own, so what their runs keep holds of it. */
  lemma {:induction false} RunProjects(lib: Library, cfg: Config, es: seq<ClientEvent>)
    requires cfg.maxPending >= 1 && Calls.Fresh(cfg.ids)
    ensures var s := ClientRun(lib, cfg, es).0;
            var (calls, relay) := Traces(lib, cfg, es);
            && s.calls == Calls.CallRun(lib, cfg.ids, calls)
            && s.relay == Relay.RelayRun(cfg.stashMax, Relay.InitialRelay(), relay)
  {
    if es != [] {
      var n := |es| - 1;
      RunProjects(lib, cfg, es[..n]);
      var s := ClientRun(lib, cfg, es[..n]).0;
      var (calls, relay) := Traces(lib, cfg, es[..n]);
      if Enabled(s, es[n]) {
        RelayStepProjects(lib, cfg, s, es[n], relay);
        CallStepProjects(lib, cfg, s, es[n], calls);
      }
    }
  }

  /**
   * In any run of the whole client, the ledger of receipts is exact, each fate has its cause, and every call result is
   * its own answer.
   */
  lemma WholeClientConserves(lib: Library, cfg: Config, es: seq<ClientEvent>)
    requires cfg.maxPending >= 1 && Calls.Fresh(cfg.ids)
    ensures var s := ClientRun(lib, cfg, es).0;
            var (calls, relay) := Traces(lib, cfg, es);
            && Relay.LedgerOk(s.relay) && Relay.Genuine(s.relay, Relay.Published(relay))
            && (forall n: nat | n < |s.relay.fates| :: Relay.HasCause(cfg.stashMax, relay, n, s.relay.fates[n]))
            && (forall c | 0 <= c < |s.calls.calls| && Calls.CallResult(s.calls, c).Some? ::
                  exists i | 0 <= i < |calls| ::
                    Calls.Answers(lib, calls[i], cfg.ids(c), Calls.CallResult(s.calls, c).value))
  {
    RunProjects(lib, cfg, es);
    var s := ClientRun(lib, cfg, es).0;
    var (calls, relay) := Traces(lib, cfg, es);
    Relay.ReceiptsAreConserved(cfg.stashMax, relay);
    forall c | 0 <= c < |s.calls.calls| && Calls.CallResult(s.calls, c).Some?
      ensures exists i | 0 <= i < |calls| ::
                Calls.Answers(lib, calls[i], cfg.ids(c), Calls.CallResult(s.calls, c).value)
    {
      Calls.ResultsAreCorrelated(lib, cfg.ids, calls, c);
    }
  }

  // ---- envelopes and publications over runs ----

  /** What one step passes to `receive_envelope`. */
  ghost function PassedBy(lib: Library, cfg: Config, s: ClientState, e: ClientEvent): (r: seq<JsonObject>)
    requires ClientOk(lib, cfg, s) && Enabled(s, e)
    ensures |r| <= 1
  {
    if !e.FrameArrives? then []
    else
      match Passing(lib, cfg.maxPending, s.table, e.frame)
      case Some(args) => [args]
      case None => []
  }

  /** Everything that a run passes to `receive_envelope`, in order. */
  ghost function RunPasses(lib: Library, cfg: Config, es: seq<ClientEvent>): seq<JsonObject>
    requires cfg.maxPending >= 1 && Calls.Fresh(cfg.ids)
  {
    if es == [] then []
    else
      var n := |es| - 1;
      var before, s := RunPasses(lib, cfg, es[..n]), ClientRun(lib, cfg, es[..n]).0;
      if Enabled(s, es[n]) then before + PassedBy(lib, cfg, s, es[n]) else before
  }

  /** The envelopes that are published: those with a request id that is not blank, under that id. */
  ghost function Publications(lib: Library, envelopes: seq<JsonObject>): seq<(string, JsonObject)> {
    if envelopes == [] then []
    else
      var before, args := Publications(lib, envelopes[..|envelopes| - 1]), envelopes[|envelopes| - 1];
      var rid := ArgStr(lib, args, "request_id");
      if Text.Blank(rid) then before else before + [(rid, args)]
  }

  lemma {:induction false} PublishedAppend(es: seq<Relay.RelayEvent>, more: seq<Relay.RelayEvent>)
    ensures Relay.Published(es + more) == Relay.Published(es) + Relay.Published(more)
  {
    if more == [] {
      assert es + more == es;
    } else {
      var n := |more| - 1;
      assert (es + more)[..|es| + n] == es + more[..n] && (es + more)[|es| + n] == more[n];
      PublishedAppend(es, more[..n]);
    }
  }

  lemma {:induction false} PublicationsAppend(lib: Library, envelopes: seq<JsonObject>, more: seq<JsonObject>)
    ensures Publications(lib, envelopes + more) == Publications(lib, envelopes) + Publications(lib, more)
  {
    if more == [] {
      assert envelopes + more == envelopes;
    } else {
      var n := |more| - 1;
      assert (envelopes + more)[..|envelopes| + n] == envelopes + more[..n];
      assert (envelopes + more)[|envelopes| + n] == more[n];
      PublicationsAppend(lib, envelopes, more[..n]);
    }
  }

  /** Publishing one envelope, whether or not a cleanup follows. */
  lemma PublishesOne(lib: Library, args: JsonObject)
    ensures Relay.Published([PublishEvent(lib, args)]) == Publications(lib, [args])
    ensures Relay.Published([PublishEvent(lib, args), Relay.CleanupEv]) == Publications(lib, [args])
  {
    var events := [PublishEvent(lib, args), Relay.CleanupEv];
    assert events[..1] == [PublishEvent(lib, args)];
    assert Relay.Published([PublishEvent(lib, args)][..0]) == [] == Publications(lib, [args][..0]);
  }

  /** One step publishes exactly what it passes to `receive_envelope`. */
  lemma StepPublishes(lib: Library, cfg: Config, s: ClientState, e: ClientEvent)
    requires ClientOk(lib, cfg, s) && Enabled(s, e)
    ensures Relay.Published(RelayEventsOf(lib, cfg, s, e)) == Publications(lib, PassedBy(lib, cfg, s, e))
  {
    if e.FrameArrives? {
      ReactionPasses(lib, cfg.maxPending, cfg.channelId, s.table, e.frame);
      var passed := PassedBy(lib, cfg, s, e);
      if passed != [] {
        PublishesOne(lib, passed[0]);
      } else {
        NothingPublished();
      }
    } else {
      NothingPublished();
    }
  }

  lemma NothingPublished()
    ensures forall e: Relay.RelayEvent | !e.PublishEv? :: Relay.Published([e]) == []
  {
    forall e: Relay.RelayEvent | !e.PublishEv? ensures Relay.Published([e]) == [] {
      assert Relay.Published([e][..0]) == [];
    }
  }

  /**
   * Over every run the receipts published are the envelopes passed to `receive_envelope`, in order: one for each plain
   * envelope and each completed transfer that has a request id, with the arguments passed, and none for any other
   * frame or event. That includes an envelope whose arguments Python then refuses.
   */
  lemma {:induction false} DeliveriesArePublished(lib: Library, cfg: Config, es: seq<ClientEvent>)
    requires cfg.maxPending >= 1 && Calls.Fresh(cfg.ids)
    ensures Relay.Published(Traces(lib, cfg, es).1) == Publications(lib, RunPasses(lib, cfg, es))
  {
    if es != [] {
      var n := |es| - 1;
      DeliveriesArePublished(lib, cfg, es[..n]);
      var s := ClientRun(lib, cfg, es[..n]).0;
      if Enabled(s, es[n]) {
        StepPublishes(lib, cfg, s, es[n]);
        PublishedAppend(Traces(lib, cfg, es[..n]).1, RelayEventsOf(lib, cfg, s, es[n]));
        PublicationsAppend(lib, RunPasses(lib, cfg, es[..n]), PassedBy(lib, cfg, s, es[n]));
      }
    }
  }
}
