/**
 * `RpcProxyClientBase` as an object: its tables are fields that the methods reassign, its loops are loops, and
 * each method is one stretch of the source's code between two `await`s.
 */
module Client {
  import opened Prelude
  import Text
  import opened Json
  import opened OrderedDicts
  import opened Chunking
  import opened Reassembly
  import opened Wire
  import opened Reader
  import opened ClientRuns
  import Relay
  import Calls

  /** The relay after a reaction: an envelope is published before it is passed on. */
  ghost function Reacted(lib: Library, stashMax: int, relay: Relay.RelayState, reaction: Reaction): Relay.RelayState
    requires forall k | k in relay.waiting :: relay.waiting[k] < |relay.waiters|
  {
    if Passes(reaction) then Relay.Publish(stashMax, relay, ArgStr(lib, reaction.args, "request_id"), reaction.args)
    else relay
  }

  /** A loop turn, part by part. */
  lemma TurnParts(lib: Library, cfg: Config, s: ClientState, frame: Frame, table: Table, reaction: Reaction)
    requires TableOk(cfg.maxPending, s.table) && InBounds(s) && s.reader.Receiving?
    requires (table, reaction) == React(lib, cfg.maxPending, cfg.channelId, s.table, frame)
    ensures var calls := ClientRuns.Complete(lib, s, frame).calls;
            var relay := Reacted(lib, cfg.stashMax, s.relay, reaction);
            var next := StatusAfter(reaction);
            && OnFrame(lib, cfg, s, frame) ==
               ClientState(if Active(next) then calls else Calls.CancelAll(calls),
                           if Active(next) then relay else Relay.Cleanup(relay), table, next, s.connected)
  {
  }

  class RpcClient {
    const channelId: string
    const stashMax: int
    const reassembler: ChunkReassembler

    var connected: bool
    var reader: ReaderStatus
    var pending: map<string, nat>
    var calls: seq<Calls.Call>
    var stashOrder: seq<string>
    var stash: map<string, Relay.Receipt>
    var waiting: map<string, nat>
    var waiters: seq<Relay.Waiter>
    var published: nat
    ghost var fates: seq<Relay.Fate>

    ghost function CallView(): Calls.CallState
      reads `pending, `calls
    {
      Calls.CallState(pending, calls)
    }

    ghost function RelayView(): Relay.RelayState
      reads `stashOrder, `stash, `waiting, `waiters, `fates
    {
      Relay.RelayState(OrderedDict(stashOrder, stash), waiting, waiters, fates)
    }

    ghost predicate CallsValid(lib: Library, ids: Calls.Ids)
      reads `pending, `calls
    {
      Calls.CallsOk(lib, ids, CallView())
    }

    ghost predicate RelayValid()
      reads `stashOrder, `stash, `waiting, `waiters, `published, `fates
    {
      Relay.RelayOk(stashMax, RelayView()) && published == |fates|
    }

    ghost predicate Valid(lib: Library, ids: Calls.Ids)
      reads this, reassembler, reassembler.pending.Values
    {
      CallsValid(lib, ids) && RelayValid() && reassembler.Valid()
    }

    constructor (channelId: string, stashMax: int, maxPending: nat)
      requires maxPending >= 1
      ensures fresh(reassembler) && reassembler.Valid() && reassembler.maxPending == maxPending
      ensures this.channelId == channelId && this.stashMax == stashMax && !connected && reader.Absent?
      ensures CallView() == Calls.InitialCalls() && RelayView() == Relay.InitialRelay() && published == 0
      ensures reassembler.Model() == Empty()
    {
      this.channelId, this.stashMax := channelId, stashMax;
      connected, reader := false, Absent;
      pending, calls := map[], [];
      stashOrder, stash, waiting, waiters, published, fates := [], map[], map[], [], 0, [];
      reassembler := new ChunkReassembler(maxPending);
    }

    /** `connect` once the socket is open: false when it raises "already connected". */
    method Connect() returns (ok: bool)
      modifies `connected, `reader
      ensures ok <==> !old(connected)
      ensures connected && reader == if ok then Receiving else old(reader)
    {
      if connected {
        return false;
      }
      connected, reader := true, Receiving;
      return true;
    }

    // ---- outgoing calls ----

    /** `_call_remote` up to its first `await`: `None` when it raises "not connected". */
    method CallBegin(id: string) returns (call: Option<nat>)
      modifies `pending, `calls
      ensures !connected ==> call == None && CallView() == old(CallView())
      ensures connected ==> call == Some(old(|calls|)) && CallView() == Calls.CallBegin(old(CallView()), id)
    {
      if !connected {
        return None;
      }
      call := Some(|calls|);
      pending := pending[id := |calls|];
      calls := calls + [Calls.Call(id, Relay.Pending, true)];
    }

    /** The `finally` block of `_call_remote`. */
    method CallEnd(c: nat)
      requires c < |calls| && calls[c].running
      modifies `pending, `calls
      ensures CallView() == Calls.CallEnd(old(CallView()), c)
    {
      pending := pending - {calls[c].id};
      var fut := calls[c].fut;
      if fut.Pending? {
        fut := Relay.Cancelled;
      }
      calls := calls[c := calls[c].(running := false, fut := fut)];
    }

    method TryCompletePending(lib: Library, msg: JsonObject) returns (used: bool)
      requires forall k | k in pending :: pending[k] < |calls|
      modifies `pending, `calls
      ensures (CallView(), used) == Calls.TryComplete(lib, old(CallView()), msg)
    {
      var answered := AnswersCall(lib, msg);
      if answered.None? || answered.value !in pending {
        return false;
      }
      var c := pending[answered.value];
      pending := pending - {answered.value};
      if calls[c].fut.Pending? {
        calls := calls[c := calls[c].(fut := Relay.Done(msg["response"].fields))];
      }
      assert calls == old(calls)[c := calls[c]];
      return true;
    }

    /** The loop over `_pending.values()` that cancels what is still open, and the `clear` after it. */
    method CancelPending()
      requires forall k | k in pending :: pending[k] < |calls| && calls[pending[k]].id == k
      modifies `pending, `calls
      ensures CallView() == Calls.CancelAll(old(CallView()))
    {
      ghost var was := calls;
      var todo := pending.Keys;
      while todo != {}
        invariant pending == old(pending) && todo <= pending.Keys && |calls| == |was|
        invariant forall i | 0 <= i < |was| ::
                    calls[i] == if was[i].id in pending && pending[was[i].id] == i && was[i].id !in todo
                                then was[i].(fut := Relay.Cancel(was[i].fut)) else was[i]
        decreases |todo|
      {
        var k :| k in todo;
        var c := pending[k];
        if calls[c].fut.Pending? {
          calls := calls[c := calls[c].(fut := Relay.Cancelled)];
        }
        todo := todo - {k};
      }
      pending := map[];
      assert calls == Calls.CancelAll(old(CallView())).calls;
    }

    // ---- relay receipts ----

    method RelayPublish(rid: string, args: JsonObject)
      requires RelayValid()
      modifies `stashOrder, `stash, `waiting, `waiters, `published, `fates
      ensures RelayValid() && RelayView() == Relay.Publish(stashMax, old(RelayView()), rid, args)
    {
      Relay.RelayStepOk(stashMax, RelayView(), Relay.PublishEv(rid, args));
      if Text.Blank(rid) {
        return;
      }
      var receipt := Relay.Receipt(published, args);
      published := published + 1;
      var waiter := if rid in waiting then Some(waiting[rid]) else None;
      waiting := waiting - {rid};
      if waiter.Some? && waiters[waiter.value].fut.Pending? {
        waiters := waiters[waiter.value := waiters[waiter.value].(fut := Relay.Done(receipt))];
        fates := fates + [Relay.Resolved(waiter.value)];
        return;
      }
      if stashMax <= 0 {
        fates := fates + [Relay.Dropped];
        return;
      }
      StashReceipt(rid, receipt);
    }

    /** The last four lines of `_relay_publish`. */
    method StashReceipt(rid: string, receipt: Relay.Receipt)
      requires stashMax > 0 && OrderedDict(stashOrder, stash).Valid() && receipt.serial == |fates|
      modifies `stashOrder, `stash, `fates
      ensures RelayView() == Relay.EvictStash(stashMax, Relay.AddToStash(
                               Relay.Unstash(old(RelayView()), rid, Relay.Superseded), rid, receipt.args))
    {
      ghost var s := RelayView();
      Relay.StashShape(stashMax, s, rid, receipt.args);
      stashOrder, stash := Without(stashOrder, rid), stash - {rid};
      fates := Relay.Mark(fates, {rid}, Relay.Superseded);
      stashOrder, stash := stashOrder + [rid], stash[rid := receipt];
      fates := fates + [Relay.Stashed(rid)];
      WithoutAbsent(Without(s.stash.keys, rid), rid);
      assert RelayView() == Relay.AddToStash(Relay.Unstash(s, rid, Relay.Superseded), rid, receipt.args);
      EvictStash();
    }

    /** `while len(self._relay_stash) > self._relay_stash_max_size: popitem(last=False)` */
    method EvictStash()
      requires stashMax > 0 && OrderedDict(stashOrder, stash).Valid()
      modifies `stashOrder, `stash, `fates
      ensures RelayView() == Relay.EvictStash(stashMax, old(RelayView()))
    {
      ghost var before := RelayView().stash;
      while |stashOrder| > stashMax
        invariant OrderedDict(stashOrder, stash).Valid()
        invariant OrderedDict(stashOrder, stash).EvictTo(stashMax) == before.EvictTo(stashMax)
        invariant fates == old(fates)
        decreases |stashOrder|
      {
        DropOldest(OrderedDict(stashOrder, stash));
        stash := stash - {stashOrder[0]};
        stashOrder := stashOrder[1..];
      }
      assert OrderedDict(stashOrder, stash) == before.EvictTo(stashMax);
      fates := Relay.Mark(fates, before.vals.Keys - stash.Keys, Relay.Evicted);
    }

    /** `wait_relay_predicate` up to its `await`. */
    method WaitBegin(rid: string) returns (start: Relay.WaitStart)
      modifies `stashOrder, `stash, `waiting, `waiters, `fates
      ensures (RelayView(), start) == Relay.WaitBegin(old(RelayView()), rid)
      ensures |fates| == old(|fates|)
    {
      if Text.Blank(rid) {
        return Relay.BlankId;
      }
      if rid in stash {
        start := Relay.Stash(stash[rid]);
        stashOrder, stash := Without(stashOrder, rid), stash - {rid};
        fates := Relay.Mark(fates, {rid}, Relay.Taken);
        return;
      }
      if rid in waiting {
        return Relay.AlreadyWaiting;
      }
      start := Relay.Registered(|waiters|);
      waiting := waiting[rid := |waiters|];
      waiters := waiters + [Relay.Waiter(rid, Relay.Pending, true)];
    }

    /** The `finally` block of `wait_relay_predicate`: only its own future is removed and cancelled. */
    method WaitEnd(w: nat)
      requires w < |waiters| && waiters[w].running
      modifies `waiting, `waiters
      ensures RelayView() == Relay.WaitEnd(old(RelayView()), w)
    {
      var own := waiters[w];
      if own.rid in waiting && waiting[own.rid] == w {
        waiting := waiting - {own.rid};
        if own.fut.Pending? {
          own := own.(fut := Relay.Cancelled);
        }
      }
      waiters := waiters[w := own.(running := false)];
    }

    method RelayCleanup()
      requires forall k | k in waiting :: waiting[k] < |waiters| && waiters[waiting[k]].rid == k
      modifies `stashOrder, `stash, `waiting, `waiters, `fates
      ensures RelayView() == Relay.Cleanup(old(RelayView()))
    {
      ghost var was := waiters;
      var todo := waiting.Keys;
      while todo != {}
        invariant waiting == old(waiting) && stash == old(stash) && fates == old(fates)
        invariant todo <= waiting.Keys && |waiters| == |was|
        invariant forall i | 0 <= i < |was| ::
                    waiters[i] == if was[i].rid in waiting && waiting[was[i].rid] == i && was[i].rid !in todo
                                  then was[i].(fut := Relay.Cancel(was[i].fut)) else was[i]
        decreases |todo|
      {
        var k :| k in todo;
        var w := waiting[k];
        if waiters[w].fut.Pending? {
          waiters := waiters[w := waiters[w].(fut := Relay.Cancelled)];
        }
        todo := todo - {k};
      }
      fates := Relay.Mark(fates, stash.Keys, Relay.Cleared);
      waiting := map[];
      stashOrder, stash := [], map[];
      assert RelayView() == Relay.Cleanup(old(RelayView()));
    }

    // ---- the reader and close ----

    ghost function View(): ClientState
      reads this, reassembler, reassembler.pending.Values
    {
      ClientState(CallView(), RelayView(), reassembler.Model(), reader, connected)
    }

    ghost function Cfg(ids: Calls.Ids): Config {
      Config(channelId, stashMax, reassembler.maxPending, ids)
    }

    /** The first half of `_invoke_receive_envelope`: a chunk goes to the reassembler. */
    method Reassemble(lib: Library, callId: string, args: JsonObject) returns (reaction: Reaction)
      requires reassembler.Valid()
      modifies reassembler, reassembler.pending.Values
      ensures reassembler.Valid() && fresh(reassembler.pending.Values - old(reassembler.pending.Values))
      ensures (reassembler.Model(), reaction)
           == Invoke(lib, reassembler.maxPending, old(reassembler.Model()), callId, args)
    {
      var body := Get(args, "body");
      if !body.Obj? {
        return Pass(callId, args);
      }
      var isChunk := IsChunkEnvelope(lib, body.fields);
      if isChunk.Failure? {
        return Crash(BadChunk(isChunk.error));
      }
      if !isChunk.value {
        return Pass(callId, args);
      }
      var assembled := reassembler.Push(lib, body.fields);
      if assembled.Raised? {
        return Reply(callId, Ack(false));
      }
      if assembled.NeedMore? {
        return Reply(callId, Ack(true));
      }
      return Pass(callId, AssembledArgs(args, assembled.msg));
    }

    /** `_invoke_receive_envelope` up to the call of `receive_envelope`, with the publication it makes. */
    method InvokeReceiveEnvelope(lib: Library, ghost ids: Calls.Ids, callId: string, args: JsonObject)
      returns (reaction: Reaction)
      requires Valid(lib, ids)
      modifies `stashOrder, `stash, `waiting, `waiters, `published, `fates, reassembler, reassembler.pending.Values
      ensures Valid(lib, ids) && fresh(reassembler.pending.Values - old(reassembler.pending.Values))
      ensures (reassembler.Model(), reaction)
           == Invoke(lib, reassembler.maxPending, old(reassembler.Model()), callId, args)
      ensures RelayView() == Reacted(lib, stashMax, old(RelayView()), reaction)
    {
      reaction := Reassemble(lib, callId, args);
      if Passes(reaction) {
        var rid := ArgStr(lib, reaction.args, "request_id");
        label reassembled:
        RelayPublish(rid, reaction.args);
        ModelUnchanged@reassembled(reassembler);
      }
    }

    /** The `finally` block of the reader loop. */
    method ReaderFinally(ghost lib: Library, ghost ids: Calls.Ids, how: ReaderStatus)
      requires Valid(lib, ids)
      modifies `pending, `calls, `stashOrder, `stash, `waiting, `waiters, `fates, `reader
      ensures Valid(lib, ids) && reader == how
      ensures CallView() == Calls.CancelAll(old(CallView())) && RelayView() == Relay.Cleanup(old(RelayView()))
    {
      label before:
      CancelCalls(lib, ids);
      CleanRelay();
      reader := how;
      assert CallsValid(lib, ids) && RelayValid();
      ModelUnchanged@before(reassembler);
    }

    method CancelCalls(ghost lib: Library, ghost ids: Calls.Ids)
      requires CallsValid(lib, ids)
      modifies `pending, `calls
      ensures CallsValid(lib, ids) && CallView() == Calls.CancelAll(old(CallView()))
    {
      Calls.CallStepOk(lib, ids, CallView(), Calls.CancelAllEv);
      CancelPending();
    }

    method CleanRelay()
      requires RelayValid()
      modifies `stashOrder, `stash, `waiting, `waiters, `fates
      ensures RelayValid() && RelayView() == Relay.Cleanup(old(RelayView()))
    {
      Relay.RelayStepOk(stashMax, RelayView(), Relay.CleanupEv);
      RelayCleanup();
    }

    /** `_dispatch_inbound` up to its first `await`. */
    method DispatchInbound(lib: Library, ghost ids: Calls.Ids, msg: JsonObject) returns (reaction: Reaction)
      requires Valid(lib, ids)
      modifies `stashOrder, `stash, `waiting, `waiters, `published, `fates, reassembler, reassembler.pending.Values
      ensures Valid(lib, ids) && fresh(reassembler.pending.Values - old(reassembler.pending.Values))
      ensures (reassembler.Model(), reaction)
           == Dispatch(lib, reassembler.maxPending, channelId, old(reassembler.Model()), msg)
      ensures RelayView() == Reacted(lib, stashMax, old(RelayView()), reaction)
    {
      var req := ExtractRequest(lib, msg);
      if req.None? {
        return Nothing;
      }
      var builtin := BuiltinResult(req.value.name, channelId);
      if builtin.Some? {
        return Reply(req.value.callId, builtin.value);
      }
      if req.value.name != "receive_envelope" {
        return Nothing;
      }
      var args := if req.value.arguments.Some? then req.value.arguments.value else map[];
      reaction := InvokeReceiveEnvelope(lib, ids, req.value.callId, args);
    }

    /** What the loop does once a reaction is known: start a send, await the handler, or leave through `finally`. */
    method CarryOut(ghost lib: Library, ghost ids: Calls.Ids, reaction: Reaction)
      requires Valid(lib, ids) && reader.Receiving?
      modifies `pending, `calls, `stashOrder, `stash, `waiting, `waiters, `fates, `reader
      ensures Valid(lib, ids) && reader == StatusAfter(reaction)
      ensures CallView() == if Active(reader) then old(CallView()) else Calls.CancelAll(old(CallView()))
      ensures RelayView() == if Active(reader) then old(RelayView()) else Relay.Cleanup(old(RelayView()))
    {
      match reaction
      case Nothing =>
      case Reply(id, result) => reader := Sending(id, result);
      case Deliver(id, _) => reader := Handling(id);
      case Clash(_) => ReaderFinally(lib, ids, Failed);
      case Crash(_) => ReaderFinally(lib, ids, Failed);
      case Leave => ReaderFinally(lib, ids, Ended);
    }

    /** A JSON object: an answer to a call of this client, or perhaps a call of the peer. */
    method OnMessage(lib: Library, ghost ids: Calls.Ids, msg: JsonObject) returns (reaction: Reaction)
      requires Valid(lib, ids)
      modifies `pending, `calls, `stashOrder, `stash, `waiting, `waiters, `published, `fates,
               reassembler, reassembler.pending.Values
      ensures Valid(lib, ids) && fresh(reassembler.pending.Values - old(reassembler.pending.Values))
      ensures (reassembler.Model(), reaction)
           == Dispatch(lib, reassembler.maxPending, channelId, old(reassembler.Model()), msg)
      ensures CallView() == Calls.TryComplete(lib, old(CallView()), msg).0
      ensures RelayView() == Reacted(lib, stashMax, old(RelayView()), reaction)
    {
      var used := CompletePending(lib, ids, msg);
      if used {
        AnswersAreNotDispatched(lib, reassembler.maxPending, channelId, reassembler.Model(), msg);
        return Nothing;
      }
      ghost var calls := CallView();
      reaction := DispatchInbound(lib, ids, msg);
      assert CallView() == calls;
    }

    method CompletePending(lib: Library, ghost ids: Calls.Ids, msg: JsonObject) returns (used: bool)
      requires CallsValid(lib, ids)
      modifies `pending, `calls
      ensures CallsValid(lib, ids) && (CallView(), used) == Calls.TryComplete(lib, old(CallView()), msg)
      ensures reassembler.Model() == old(reassembler.Model())
      ensures RelayView() == old(RelayView()) && RelayValid() == old(RelayValid())
      ensures reassembler.Valid() == old(reassembler.Valid())
    {
      Calls.TryCompleteOk(lib, ids, CallView(), msg);
      used := TryCompletePending(lib, msg);
      ModelUnchanged(reassembler);
    }

    /** The frame is read, and what to do about it is known. */
    method ReadFrame(lib: Library, ghost ids: Calls.Ids, frame: Frame) returns (reaction: Reaction)
      requires Valid(lib, ids)
      modifies `pending, `calls, `stashOrder, `stash, `waiting, `waiters, `published, `fates,
               reassembler, reassembler.pending.Values
      ensures Valid(lib, ids) && fresh(reassembler.pending.Values - old(reassembler.pending.Values))
      ensures (reassembler.Model(), reaction)
           == React(lib, reassembler.maxPending, channelId, old(reassembler.Model()), frame)
      ensures CallView() == ClientRuns.Complete(lib, old(View()), frame).calls
      ensures RelayView() == Reacted(lib, stashMax, old(RelayView()), reaction)
    {
      match frame
      case Closed => reaction := Leave;
      case Skipped => reaction := Nothing;
      case LoadFails => reaction := Crash(LoadFailed);
      case Loaded(msg) => reaction := OnMessage(lib, ids, msg);
    }

    /** One turn of the reader loop, from a frame to the next `await`. */
    method ReaderTurn(lib: Library, ghost ids: Calls.Ids, frame: Frame)
      requires Valid(lib, ids) && reader.Receiving?
      modifies this, reassembler, reassembler.pending.Values
      ensures Valid(lib, ids) && fresh(reassembler.pending.Values - old(reassembler.pending.Values))
      ensures View() == OnFrame(lib, Cfg(ids), old(View()), frame)
    {
      ghost var was := View();
      var reaction := ReadFrame(lib, ids, frame);
      TurnParts(lib, Cfg(ids), was, frame, reassembler.Model(), reaction);
      FinishTurn(lib, ids, reaction);
    }

    /** `CarryOut`, as seen in the whole object. */
    method FinishTurn(ghost lib: Library, ghost ids: Calls.Ids, reaction: Reaction)
      requires Valid(lib, ids) && reader.Receiving?
      modifies `pending, `calls, `stashOrder, `stash, `waiting, `waiters, `fates, `reader
      ensures Valid(lib, ids)
      ensures var was, next := old(View()), StatusAfter(reaction);
              && View() == ClientState(if Active(next) then was.calls else Calls.CancelAll(was.calls),
                                       if Active(next) then was.relay else Relay.Cleanup(was.relay),
                                       was.table, next, was.connected)
    {
      CarryOut(lib, ids, reaction);
      ModelUnchanged(reassembler);
    }

    /**
     * The end of a cancelled reader task, which runs its `finally` block: it returns, unless the user code it was in
     * raises something else on the way.
     */
    method ReaderCancelled(ghost lib: Library, ghost ids: Calls.Ids, userCodeRaises: bool)
      requires Valid(lib, ids) && Active(reader)
      modifies `pending, `calls, `stashOrder, `stash, `waiting, `waiters, `fates, `reader
      ensures Valid(lib, ids) && reader == if userCodeRaises then Failed else Ended
      ensures CallView() == Calls.CancelAll(old(CallView())) && RelayView() == Relay.Cleanup(old(RelayView()))
    {
      ReaderFinally(lib, ids, if userCodeRaises then Failed else Ended);
    }

    /** `close()` once its reader task is over; false when awaiting the failed task raises. */
    method Close(ghost lib: Library, ghost ids: Calls.Ids) returns (ok: bool)
      requires Valid(lib, ids) && !Active(reader)
      modifies this, reassembler
      ensures Valid(lib, ids) && View() == CloseCleanup(old(View()))
      ensures ok <==> !old(reader.Failed?)
    {
      if reader.Failed? {
        return false;
      }
      ReaderFinally(lib, ids, Absent);
      reassembler.Clear();
      return true;
    }
  }
}
