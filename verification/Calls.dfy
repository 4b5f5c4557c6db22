/**
 * Outgoing calls: `_call_remote` and `_try_complete_pending` as atomic steps over the table of pending calls.
 * A future is named by its number in order of creation, which is also the number of its call.
 */
module Calls {
  import opened Prelude
  import opened Json
  import opened Wire
  import Relay

  type Future<+T> = Relay.Future<T>

  /** One `_call_remote` that got as far as registering its future, and whether it is still running. */
  datatype Call = Call(id: string, fut: Future<JsonObject>, running: bool)

  datatype CallState = CallState(pending: map<string, nat>, calls: seq<Call>)

  function InitialCalls(): CallState { CallState(map[], []) }

  // ---- the steps ----

  /** The ids that successive `uuid4().hex` calls produce, taken to be all different. */
  type Ids = nat -> string

  ghost predicate Fresh(ids: Ids) {
    forall m: nat, n: nat | ids(m) == ids(n) :: m == n
  }

  /** `_call_remote` up to its first `await`; `id` is the fresh `uuid4().hex`. */
  function CallBegin(s: CallState, id: string): CallState {
    CallState(s.pending[id := |s.calls|], s.calls + [Call(id, Relay.Pending, true)])
  }

  /** `_try_complete_pending`: true when the frame answered a pending call. */
  function TryComplete(lib: Library, s: CallState, msg: JsonObject): (CallState, bool)
    requires forall k | k in s.pending :: s.pending[k] < |s.calls|
  {
    match AnswersCall(lib, msg)
    case None => (s, false)
    case Some(id) =>
      if id !in s.pending then (s, false)
      else
        var c := s.pending[id];
        var fut := if s.calls[c].fut.Pending? then Relay.Done(msg["response"].fields) else s.calls[c].fut;
        (CallState(s.pending - {id}, s.calls[c := s.calls[c].(fut := fut)]), true)
  }

  /** The call timeout, or the cancellation of the calling task, reaches the future. */
  function Interrupt(s: CallState, c: nat): CallState {
    if c < |s.calls| && s.calls[c].running
    then s.(calls := s.calls[c := s.calls[c].(fut := Relay.Cancel(s.calls[c].fut))])
    else s
  }

  /** The `finally` block of `_call_remote`, reached by a result, a timeout, a cancellation or a failed send. */
  function CallEnd(s: CallState, c: nat): CallState {
    if c >= |s.calls| || !s.calls[c].running then s
    else
      var own := s.calls[c];
      CallState(s.pending - {own.id}, s.calls[c := own.(running := false, fut := Relay.Cancel(own.fut))])
  }

  /** What the caller gets when its call ends: `resp.get("result")`, unless the future was cancelled. */
  function CallResult(s: CallState, c: nat): Option<Json>
    requires c < |s.calls|
  {
    if s.calls[c].fut.Done? then Some(Get(s.calls[c].fut.value, "result")) else None
  }

  /** The loop over `_pending` when the reader ends or the client closes. */
  function CancelAll(s: CallState): CallState {
    CallState(map[], seq(|s.calls|, i requires 0 <= i < |s.calls| =>
      if s.calls[i].id in s.pending && s.pending[s.calls[i].id] == i
      then s.calls[i].(fut := Relay.Cancel(s.calls[i].fut)) else s.calls[i]))
  }

  datatype CallEvent =
    | CallBeginEv
    | FrameEv(msg: JsonObject)
    | InterruptEv(call: nat)
    | CallEndEv(call: nat)
    | CancelAllEv

  function CallStep(lib: Library, ids: Ids, s: CallState, e: CallEvent): CallState
    requires forall k | k in s.pending :: s.pending[k] < |s.calls|
  {
    match e
    case CallBeginEv => CallBegin(s, ids(|s.calls|))
    case FrameEv(msg) => TryComplete(lib, s, msg).0
    case InterruptEv(c) => Interrupt(s, c)
    case CallEndEv(c) => CallEnd(s, c)
    case CancelAllEv => CancelAll(s)
  }

  // ---- what every run keeps ----

  ghost predicate CallsOk(lib: Library, ids: Ids, s: CallState) {
    // ids tell the calls apart
    && Fresh(ids) && (forall c | 0 <= c < |s.calls| :: s.calls[c].id == ids(c))
    // only calls in flight are pending, each under its own id
    && (forall k | k in s.pending ::
          s.pending[k] < |s.calls| && s.calls[s.pending[k]].id == k && s.calls[s.pending[k]].running
          && !s.calls[s.pending[k]].fut.Done?)
    // a future that is still open can be completed through the table
    && (forall c | 0 <= c < |s.calls| && s.calls[c].fut.Pending? ::
          s.calls[c].running && s.calls[c].id in s.pending && s.pending[s.calls[c].id] == c)
    // a completed future holds a response with the call's own id
    && (forall c | 0 <= c < |s.calls| && s.calls[c].fut.Done? ::
          var resp := s.calls[c].fut.value;
          "call_id" in resp && !resp["call_id"].Null? && Text(lib, resp["call_id"]) == s.calls[c].id)
  }

  lemma CallStepOk(lib: Library, ids: Ids, s: CallState, e: CallEvent)
    requires CallsOk(lib, ids, s)
    ensures CallsOk(lib, ids, CallStep(lib, ids, s, e))
  {
    if e.FrameEv? {
      TryCompleteOk(lib, ids, s, e.msg);
    } else if e.CancelAllEv? {
      CancelAllOk(lib, ids, s);
    }
  }

  lemma CancelAllOk(lib: Library, ids: Ids, s: CallState)
    requires CallsOk(lib, ids, s)
    ensures CallsOk(lib, ids, CancelAll(s))
  {
  }

  lemma TryCompleteOk(lib: Library, ids: Ids, s: CallState, msg: JsonObject)
    requires CallsOk(lib, ids, s)
    ensures CallsOk(lib, ids, TryComplete(lib, s, msg).0)
  {
  }

  /**
   * What one step can do to one call. Its future is completed at most once, and only by a frame that names its id;
   * a late, duplicate or foreign response changes nothing of it; nothing but its own timeout, its own end or the
   * teardown cancels it.
   */
  lemma CallsAreIndependent(lib: Library, ids: Ids, s: CallState, e: CallEvent, c: nat)
    requires CallsOk(lib, ids, s) && c < |s.calls|
    ensures var s' := CallStep(lib, ids, s, e);
            && c < |s'.calls| && s'.calls[c].id == s.calls[c].id
            && (!s.calls[c].fut.Pending? ==> s'.calls[c].fut == s.calls[c].fut)
            && (s'.calls[c].fut != s.calls[c].fut && s'.calls[c].fut.Done? ==>
                  && e.FrameEv? && AnswersCall(lib, e.msg) == Some(s.calls[c].id)
                  && s'.calls[c].fut.value == e.msg["response"].fields)
            && (s'.calls[c].fut != s.calls[c].fut && s'.calls[c].fut.Cancelled? ==>
                  e == InterruptEv(c) || e == CallEndEv(c) || e == CancelAllEv)
            && (s.calls[c].id in s.pending && s.calls[c].id !in s'.pending ==>
                  || (e.FrameEv? && AnswersCall(lib, e.msg) == Some(s.calls[c].id))
                  || e == CallEndEv(c) || e == CancelAllEv)
  {
  }

  /**
   * What each step does, beyond leaving other calls alone: a call starts pending and registered; its answer resolves it
   * and takes it out of the table; a timeout cancels it; its end takes it out and leaves nothing pending; and so does
   * the teardown, for all.
   */
  lemma CallStepsAct(lib: Library, ids: Ids, s: CallState, e: CallEvent, c: nat)
    requires CallsOk(lib, ids, s)
    ensures var s' := CallStep(lib, ids, s, e);
            && (e.CallBeginEv? ==>
                  && |s'.calls| == |s.calls| + 1 && s'.calls[|s.calls|] == Call(ids(|s.calls|), Relay.Pending, true)
                  && s'.pending == s.pending[ids(|s.calls|) := |s.calls|])
            && (!e.CallBeginEv? ==> |s'.calls| == |s.calls|)
            && (c < |s.calls| && s.calls[c].fut.Pending? ==>
                  && (e.FrameEv? && AnswersCall(lib, e.msg) == Some(ids(c)) ==>
                        s'.calls[c].fut == Relay.Done(e.msg["response"].fields) && ids(c) !in s'.pending)
                  && (e == InterruptEv(c) || e == CallEndEv(c) || e == CancelAllEv ==> s'.calls[c].fut.Cancelled?))
            && (c < |s.calls| && e == CallEndEv(c) ==> ids(c) !in s'.pending)
            && (c < |s.calls| ==> s'.calls[c].running == (s.calls[c].running && e != CallEndEv(c)))
            && (e == CancelAllEv ==> s'.pending == map[])
  {
  }

  /** A frame that answers no pending call, for instance a late or repeated response, changes nothing at all. */
  lemma LateResponseIsDropped(lib: Library, ids: Ids, s: CallState, msg: JsonObject)
    requires CallsOk(lib, ids, s)
    ensures var (s', used) := TryComplete(lib, s, msg);
            && (used <==> AnswersCall(lib, msg).Some? && AnswersCall(lib, msg).value in s.pending)
            && (!used ==> s' == s)
            && (used ==> TryComplete(lib, s', msg) == (s', false))
  {
  }

  // ---- runs ----

  ghost function CallRun(lib: Library, ids: Ids, es: seq<CallEvent>): (s: CallState)
    requires Fresh(ids)
    ensures CallsOk(lib, ids, s)
  {
    if es == [] then InitialCalls()
    else
      var s := CallRun(lib, ids, es[..|es| - 1]);
      CallStepOk(lib, ids, s, es[|es| - 1]);
      CallStep(lib, ids, s, es[|es| - 1])
  }

  /** The frame carries a response to the call `id` with this result. */
  ghost predicate Answers(lib: Library, e: CallEvent, id: string, result: Json) {
    e.FrameEv? && AnswersCall(lib, e.msg) == Some(id) && Get(e.msg["response"].fields, "result") == result
  }

  /** A result is either there already, or brought by this very frame. */
  lemma ResultAppears(lib: Library, ids: Ids, s: CallState, e: CallEvent, c: nat)
    requires CallsOk(lib, ids, s) && c < |CallStep(lib, ids, s, e).calls|
    requires CallResult(CallStep(lib, ids, s, e), c).Some?
    ensures var result := CallResult(CallStep(lib, ids, s, e), c);
            && c < |s.calls|
            && (CallResult(s, c) == result || Answers(lib, e, ids(c), result.value))
  {
    assert c < |s.calls|;
    CallsAreIndependent(lib, ids, s, e, c);
  }

  /**
   * Call correlation over every run: if a call has a result, some frame of the run carried a response with the
   * call's own id and that very result.
   */
  lemma {:induction false} ResultsAreCorrelated(lib: Library, ids: Ids, es: seq<CallEvent>, c: nat)
    requires Fresh(ids) && c < |CallRun(lib, ids, es).calls|
    requires CallResult(CallRun(lib, ids, es), c).Some?
    ensures exists i | 0 <= i < |es| :: Answers(lib, es[i], ids(c), CallResult(CallRun(lib, ids, es), c).value)
  {
    var n, result := |es| - 1, CallResult(CallRun(lib, ids, es), c).value;
    var before := CallRun(lib, ids, es[..n]);
    ResultAppears(lib, ids, before, es[n], c);
    if !Answers(lib, es[n], ids(c), result) {
      ResultsAreCorrelated(lib, ids, es[..n], c);
      var i :| 0 <= i < n && Answers(lib, es[..n][i], ids(c), result);
      assert es[i] == es[..n][i];
    }
  }
}
