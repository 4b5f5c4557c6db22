/**
 * `HandlerPostMessageClient`: every accepted envelope becomes a task that runs the handler and posts its result, at
 * most `max_inflight` of them at a time.
 */
module Pipeline {
  import opened Prelude
  import Text
  import opened Json
  import opened Wire
  import opened Chunking
  import opened Reader
  import Reassembly

  /** What the user's handler returns. */
  datatype HandlerResult = HandlerResult(body: JsonObject, requestId: string, skipPost: bool)

  /** One automatic reply, as handed to `post_message_auto`. */
  datatype AutoPost = AutoPost(receiver: string, body: JsonObject, requestId: string)

  datatype Phase =
    | Queued            // waiting for the semaphore
    | Handling          // awaiting the handler
    | Reporting         // awaiting `on_handler_exception`
    | Posting           // awaiting `post_message_auto`
    | Finished          // returned, raised or was cancelled

  datatype Task = Task(args: JsonObject, phase: Phase, post: Option<AutoPost>)

  datatype PipelineState = PipelineState(permits: nat, tasks: seq<Task>)

  function Initial(maxInflight: nat): PipelineState { PipelineState(maxInflight, []) }

  /** A running task holds a permit of the semaphore: it is inside the `async with` block. */
  predicate Running(t: Task) { t.phase.Handling? || t.phase.Reporting? || t.phase.Posting? }

  // ---- arguments ----

  /** `receive_envelope`: the keyword arguments put back into one dictionary. */
  function Arguments(d: Delivery): JsonObject {
    map["message_type" := Str(d.messageType), "kind" := Str(d.kind), "client_id" := Str(d.clientId),
        "sender" := Str(d.sender), "receiver" := Str(d.receiver), "request_id" := Str(d.requestId),
        "body" := Obj(if d.body.Some? then d.body.value else map[])] + d.extra
  }

  /** `_resolve_post_request_id` */
  function ResolvePostRequestId(lib: Library, result: HandlerResult, args: JsonObject): string {
    if !Text.Blank(result.requestId) then result.requestId else ArgStr(lib, args, "request_id")
  }

  function PostOf(lib: Library, result: HandlerResult, args: JsonObject): AutoPost {
    AutoPost(ArgStr(lib, args, "sender"), result.body, ResolvePostRequestId(lib, result, args))
  }

  /** The call of the handler raises: besides its keyword arguments it is given the dictionary under this very name. */
  predicate Refused(args: JsonObject) { "arguments" in args }

  /** What the handler is called with, if it can be: `_arguments_to_receive_kwargs`. */
  function HandlerCall(lib: Library, args: JsonObject): Option<Delivery> {
    if Refused(args) then None else Some(DeliveryOf(lib, args))
  }

  /** An envelope that the reader delivers is one that `receive_envelope` can be called with. */
  predicate Receivable(d: Delivery) { d.extra.Keys !! ENVELOPE_KEYS + {"self"} }

  lemma DeliveriesAreReceivable(lib: Library, cap: nat, channelId: string, t: Reassembly.Table, frame: Frame)
    requires Reassembly.TableOk(cap, t) && React(lib, cap, channelId, t, frame).1.Deliver?
    ensures Receivable(DeliveryOf(lib, React(lib, cap, channelId, t, frame).1.args))
  {
    ReactionIsOwed(lib, cap, channelId, t, frame);
  }

  /**
   * The handler gets back what arrived, with a missing body as an empty one, unless an extra argument is named
   * `arguments`; then it does not start.
   */
  lemma HandlerSeesDelivery(lib: Library, d: Delivery)
    requires Receivable(d)
    ensures HandlerCall(lib, Arguments(d))
         == if "arguments" in d.extra then None
            else Some(d.(body := Some(if d.body.Some? then d.body.value else map[])))
  {
    assert Arguments(d) - ENVELOPE_KEYS == d.extra;
  }

  // ---- the steps ----

  /** `receive_envelope`; false when the request id is blank. */
  function Receive(lib: Library, s: PipelineState, d: Delivery): (PipelineState, bool) {
    if Text.Blank(ArgStr(lib, Arguments(d), "request_id")) then (s, false)
    else (s.(tasks := s.tasks + [Task(Arguments(d), Queued, None)]), true)
  }

  function SetTask(s: PipelineState, i: nat, t: Task): PipelineState
    requires i < |s.tasks|
  {
    s.(tasks := s.tasks[i := t])
  }

  /**
   * `async with self._handler_sem`: a task enters when there is a permit, and calls the handler. When that call raises,
   * the task is in `on_handler_exception` at once.
   */
  function Enter(s: PipelineState, i: nat): PipelineState
    requires i < |s.tasks| && s.tasks[i].phase.Queued? && s.permits > 0
  {
    var phase := if Refused(s.tasks[i].args) then Reporting else Handling;
    SetTask(s, i, s.tasks[i].(phase := phase)).(permits := s.permits - 1)
  }

  /** Leaving the `async with` block, on any path, gives the permit back. */
  function Exit(s: PipelineState, i: nat): PipelineState
    requires i < |s.tasks|
  {
    SetTask(s, i, s.tasks[i].(phase := Finished)).(permits := s.permits + 1)
  }

  datatype Event =
    | Arrives(d: Delivery)
    | Enters(i: nat)
    | HandlerReturns(i: nat, result: HandlerResult)
    | HandlerRaises(i: nat)
    | Reported(i: nat)            // `on_handler_exception` returned or raised
    | PostOver(i: nat)            // `post_message_auto` returned or raised
    | TaskCancelled(i: nat)       // at whatever `await` it is in

  predicate Enabled(s: PipelineState, e: Event) {
    match e
    case Arrives(d) => Receivable(d)
    case Enters(i) => i < |s.tasks| && s.tasks[i].phase.Queued? && s.permits > 0
    case HandlerReturns(i, _) => i < |s.tasks| && s.tasks[i].phase.Handling?
    case HandlerRaises(i) => i < |s.tasks| && s.tasks[i].phase.Handling?
    case Reported(i) => i < |s.tasks| && s.tasks[i].phase.Reporting?
    case PostOver(i) => i < |s.tasks| && s.tasks[i].phase.Posting?
    case TaskCancelled(i) => i < |s.tasks| && !s.tasks[i].phase.Finished?
  }

  function Step(lib: Library, s: PipelineState, e: Event): PipelineState
    requires Enabled(s, e)
  {
    match e
    case Arrives(d) => Receive(lib, s, d).0
    case Enters(i) => Enter(s, i)
    case HandlerReturns(i, result) =>
      if result.skipPost then Exit(s, i)
      else SetTask(s, i, s.tasks[i].(phase := Posting, post := Some(PostOf(lib, result, s.tasks[i].args))))
    case HandlerRaises(i) => SetTask(s, i, s.tasks[i].(phase := Reporting))
    case Reported(i) => Exit(s, i)
    case PostOver(i) => Exit(s, i)
    case TaskCancelled(i) =>
      if s.tasks[i].phase.Queued? then SetTask(s, i, s.tasks[i].(phase := Finished)) else Exit(s, i)
  }

  // ---- what every run keeps ----

  function CountRunning(tasks: seq<Task>): nat {
    if tasks == [] then 0
    else CountRunning(tasks[..|tasks| - 1]) + (if Running(tasks[|tasks| - 1]) then 1 else 0)
  }

  function CountPhase(tasks: seq<Task>, phase: Phase): nat {
    if tasks == [] then 0
    else CountPhase(tasks[..|tasks| - 1], phase) + (if tasks[|tasks| - 1].phase == phase then 1 else 0)
  }

  lemma {:induction false} CountsChange(tasks: seq<Task>, i: nat, t: Task)
    requires i < |tasks|
    ensures CountRunning(tasks[i := t])
         == CountRunning(tasks) + (if Running(t) then 1 else 0) - (if Running(tasks[i]) then 1 else 0)
  {
    var n := |tasks| - 1;
    if i == n {
      assert tasks[i := t][..n] == tasks[..n];
    } else {
      assert tasks[i := t][..n] == tasks[..n][i := t];
      CountsChange(tasks[..n], i, t);
    }
  }

  lemma {:induction false} TasksArePartitioned(tasks: seq<Task>)
    ensures |tasks| == CountPhase(tasks, Queued) + CountRunning(tasks) + CountPhase(tasks, Finished)
  {
    if tasks != [] {
      TasksArePartitioned(tasks[..|tasks| - 1]);
    }
  }

  /**
   * A task's reply goes to the envelope's sender, under a request id that is not blank, and only once it runs; a task
   * whose handler cannot be called never has one.
   */
  ghost predicate TaskOk(lib: Library, t: Task) {
    && !Text.Blank(ArgStr(lib, t.args, "request_id"))
    && (t.post.Some? ==> t.post.value.receiver == ArgStr(lib, t.args, "sender") && !Text.Blank(t.post.value.requestId))
    && (t.phase.Posting? ==> t.post.Some?)
    && (Refused(t.args) ==> t.post.None? && !t.phase.Handling?)
    && (t.phase.Queued? || t.phase.Handling? || t.phase.Reporting? ==> t.post.None?)
  }

  ghost predicate PipelineOk(lib: Library, maxInflight: nat, s: PipelineState) {
    && s.permits + CountRunning(s.tasks) == maxInflight
    && (forall i | 0 <= i < |s.tasks| :: TaskOk(lib, s.tasks[i]))
  }

  lemma ReceiveKeepsPipeline(lib: Library, maxInflight: nat, s: PipelineState, d: Delivery)
    requires PipelineOk(lib, maxInflight, s)
    ensures PipelineOk(lib, maxInflight, Receive(lib, s, d).0)
  {
    assert Receive(lib, s, d).1 ==> Receive(lib, s, d).0.tasks[..|s.tasks|] == s.tasks;
  }

  lemma StepKeepsPipeline(lib: Library, maxInflight: nat, s: PipelineState, e: Event)
    requires PipelineOk(lib, maxInflight, s) && Enabled(s, e)
    ensures PipelineOk(lib, maxInflight, Step(lib, s, e))
  {
    if e.Arrives? {
      ReceiveKeepsPipeline(lib, maxInflight, s, e.d);
    } else {
      var t := Step(lib, s, e).tasks[e.i];
      assert Step(lib, s, e).tasks == s.tasks[e.i := t];
      CountsChange(s.tasks, e.i, t);
      assert TaskOk(lib, t);
    }
  }

  /** A task's arguments never change, a finished task stays as it is, and a reply once begun stays the only one. */
  lemma TasksMoveForward(lib: Library, maxInflight: nat, s: PipelineState, e: Event, i: nat)
    requires PipelineOk(lib, maxInflight, s) && Enabled(s, e) && i < |s.tasks|
    ensures var before, after := s.tasks[i], Step(lib, s, e).tasks[i];
            && |s.tasks| <= |Step(lib, s, e).tasks| <= |s.tasks| + 1 && after.args == before.args
            && (before.phase.Finished? ==> after == before)
            && (before.post.Some? ==> after.post == before.post)
            && (after.post != before.post ==> e.HandlerReturns? && e.i == i && !e.result.skipPost
                                              && after.post == Some(PostOf(lib, e.result, before.args)))
            && (after.phase.Queued? ==> before.phase.Queued?)
            && (Running(before) ==> !after.phase.Queued?)
  {
  }

  ghost function PipelineRun(lib: Library, maxInflight: nat, es: seq<Event>): (s: PipelineState)
    ensures PipelineOk(lib, maxInflight, s)
  {
    if es == [] then Initial(maxInflight)
    else
      var s := PipelineRun(lib, maxInflight, es[..|es| - 1]);
      var e := es[|es| - 1];
      if !Enabled(s, e) then s
      else
        StepKeepsPipeline(lib, maxInflight, s, e);
        Step(lib, s, e)
  }

  /** The envelopes of a run that were accepted. */
  function Accepted(lib: Library, es: seq<Event>): seq<JsonObject> {
    if es == [] then []
    else
      var before, e := Accepted(lib, es[..|es| - 1]), es[|es| - 1];
      if e.Arrives? && Receivable(e.d) && !Text.Blank(ArgStr(lib, Arguments(e.d), "request_id"))
      then before + [Arguments(e.d)] else before
  }

  /** One task for each accepted envelope, in order. */
  ghost predicate TasksOf(s: PipelineState, accepted: seq<JsonObject>) {
    |s.tasks| == |accepted| && forall i | 0 <= i < |accepted| :: s.tasks[i].args == accepted[i]
  }

  lemma StepKeepsTasks(lib: Library, s: PipelineState, e: Event, accepted: seq<JsonObject>)
    requires Enabled(s, e) && TasksOf(s, accepted)
    ensures TasksOf(Step(lib, s, e),
                    if e.Arrives? && Receive(lib, s, e.d).1 then accepted + [Arguments(e.d)] else accepted)
  {
  }

  lemma {:induction false} TasksAreAccepted(lib: Library, maxInflight: nat, es: seq<Event>)
    ensures TasksOf(PipelineRun(lib, maxInflight, es), Accepted(lib, es))
  {
    if es != [] {
      var n := |es| - 1;
      TasksAreAccepted(lib, maxInflight, es[..n]);
      var s := PipelineRun(lib, maxInflight, es[..n]);
      if Enabled(s, es[n]) {
        StepKeepsTasks(lib, s, es[n], Accepted(lib, es[..n]));
      }
    }
  }

  /**
   * In every reachable state: the free permits and the running tasks add up to `max_inflight`, so no more than that
   * many run; every accepted envelope has exactly one task, in order, which is queued, running or finished.
   */
  lemma PermitsAreConserved(lib: Library, maxInflight: nat, es: seq<Event>)
    ensures var s := PipelineRun(lib, maxInflight, es);
            && s.permits + CountRunning(s.tasks) == maxInflight && CountRunning(s.tasks) <= maxInflight
            && TasksOf(s, Accepted(lib, es))
            && |Accepted(lib, es)|
               == CountPhase(s.tasks, Queued) + CountRunning(s.tasks) + CountPhase(s.tasks, Finished)
  {
    TasksAreAccepted(lib, maxInflight, es);
    TasksArePartitioned(PipelineRun(lib, maxInflight, es).tasks);
  }

  // ---- what each step does, and who gets a reply ----

  /** An accepted envelope becomes a queued task; one with a blank request id changes nothing. */
  lemma ArrivalIsExact(lib: Library, s: PipelineState, d: Delivery)
    requires Receivable(d)
    ensures var (s', ok) := Receive(lib, s, d);
            && (ok <==> !Text.Blank(d.requestId))
            && s' == if ok then PipelineState(s.permits, s.tasks + [Task(Arguments(d), Queued, None)]) else s
  {
  }

  /** The phase that an event leaves its task in. */
  function PhaseAfter(t: Task, e: Event): Phase
    requires !e.Arrives?
  {
    match e
    case Enters(_) => if "arguments" in t.args then Reporting else Handling
    case HandlerReturns(_, result) => if result.skipPost then Finished else Posting
    case HandlerRaises(_) => Reporting
    case _ => Finished
  }

  /** The reply that a handler's result calls for: to the sender, under its own request id or else the envelope's. */
  ghost predicate Replies(lib: Library, post: Option<AutoPost>, args: JsonObject, result: HandlerResult) {
    && post.Some? && post.value.body == result.body
    && HasText(lib, args, "sender", "", post.value.receiver)
    && if Text.Blank(result.requestId) then HasText(lib, args, "request_id", "", post.value.requestId)
       else post.value.requestId == result.requestId
  }

  /**
   * Any other event moves its own task only, to the phase that goes with it. A permit is taken on entering and given
   * back on finishing from inside; and a handler that returns a result to post makes the task post exactly that reply.
   */
  lemma TaskStepIsExact(lib: Library, maxInflight: nat, s: PipelineState, e: Event)
    requires PipelineOk(lib, maxInflight, s) && Enabled(s, e) && !e.Arrives?
    ensures e.i < |Step(lib, s, e).tasks|
    ensures var s', t := Step(lib, s, e), s.tasks[e.i];
            var t' := Task(t.args, PhaseAfter(t, e), s'.tasks[e.i].post);
            && s'.tasks == s.tasks[e.i := t']
            && (if e.HandlerReturns? && !e.result.skipPost then Replies(lib, t'.post, t.args, e.result)
                else t'.post == t.post)
            && s'.permits == s.permits + (if Running(t) then 1 else 0) - (if Running(t') then 1 else 0)
  {
    assert Step(lib, s, e).tasks == s.tasks[e.i := Step(lib, s, e).tasks[e.i]];
  }

  /** The results to post that the handler of task `i` returned in a run. */
  ghost function Returned(lib: Library, maxInflight: nat, es: seq<Event>, i: nat): seq<HandlerResult> {
    if es == [] then []
    else
      var before, e := Returned(lib, maxInflight, es[..|es| - 1], i), es[|es| - 1];
      if Enabled(PipelineRun(lib, maxInflight, es[..|es| - 1]), e) then before + ReturnedBy(e, i) else before
  }

  function ReturnedBy(e: Event, i: nat): seq<HandlerResult> {
    if e.HandlerReturns? && e.i == i && !e.result.skipPost then [e.result] else []
  }

  /** There is one reply for one result, and none for none. */
  ghost predicate ReplyIsExact(lib: Library, t: Task, returned: seq<HandlerResult>) {
    |returned| <= 1 && if returned == [] then t.post.None? else Replies(lib, t.post, t.args, returned[0])
  }

  /** What one step adds to the results and to the reply; a task that is new has neither. */
  lemma ReplyStep(lib: Library, maxInflight: nat, s: PipelineState, e: Event, i: nat, returned: seq<HandlerResult>)
    requires PipelineOk(lib, maxInflight, s) && Enabled(s, e)
    requires if i < |s.tasks| then ReplyIsExact(lib, s.tasks[i], returned) else returned == []
    ensures var s' := Step(lib, s, e);
            if i < |s'.tasks| then ReplyIsExact(lib, s'.tasks[i], returned + ReturnedBy(e, i))
            else returned + ReturnedBy(e, i) == []
  {
    if !e.Arrives? {
      TaskStepIsExact(lib, maxInflight, s, e);
    }
  }

  lemma {:induction false} ReplyRun(lib: Library, maxInflight: nat, es: seq<Event>, i: nat, s: PipelineState)
    requires s == PipelineRun(lib, maxInflight, es)
    ensures if i < |s.tasks| then ReplyIsExact(lib, s.tasks[i], Returned(lib, maxInflight, es, i))
            else Returned(lib, maxInflight, es, i) == []
  {
    if es != [] {
      var n := |es| - 1;
      var before := PipelineRun(lib, maxInflight, es[..n]);
      ReplyRun(lib, maxInflight, es[..n], i, before);
      if Enabled(before, es[n]) {
        ReplyStep(lib, maxInflight, before, es[n], i, Returned(lib, maxInflight, es[..n], i));
      }
    }
  }

  /**
   * Over every run a task has an automatic reply if and only if its handler returned a result to post, which it does at
   * most once. The reply is that result, to the envelope's sender, under the handler's request id unless that is blank,
   * and then under the envelope's own. There is none if the handler could not be called.
   */
  lemma RepliesGoToSenders(lib: Library, maxInflight: nat, es: seq<Event>, i: nat)
    requires i < |PipelineRun(lib, maxInflight, es).tasks|
    ensures var t, returned := PipelineRun(lib, maxInflight, es).tasks[i], Returned(lib, maxInflight, es, i);
            && ReplyIsExact(lib, t, returned) && (t.post.Some? <==> returned != [])
            && (t.post.Some? ==> !Refused(t.args) && !Text.Blank(t.post.value.requestId))
  {
    ReplyRun(lib, maxInflight, es, i, PipelineRun(lib, maxInflight, es));
  }

  // ---- the client object ----

  class HandlerClient {
    var permits: nat
    var tasks: seq<Task>

    ghost function View(): PipelineState
      reads this
    {
      PipelineState(permits, tasks)
    }

    constructor (maxInflight: nat)
      requires maxInflight >= 1
      ensures View() == Initial(maxInflight)
    {
      permits, tasks := maxInflight, [];
    }

    /** Replies at once; the work is left to a new task. */
    method ReceiveEnvelope(lib: Library, d: Delivery) returns (ok: bool)
      modifies `tasks
      ensures (View(), ok) == Receive(lib, old(View()), d)
    {
      var arguments := Arguments(d);
      if Text.Blank(ArgStr(lib, arguments, "request_id")) {
        return false;
      }
      tasks := tasks + [Task(arguments, Queued, None)];
      return true;
    }

    /** `async with self._handler_sem`, and the call of the handler. */
    method EnterPipeline(i: nat)
      requires i < |tasks| && tasks[i].phase.Queued? && permits > 0
      modifies this
      ensures View() == Enter(old(View()), i)
    {
      permits := permits - 1;
      if "arguments" in tasks[i].args {
        tasks := tasks[i := tasks[i].(phase := Reporting)];
        return;
      }
      tasks := tasks[i := tasks[i].(phase := Handling)];
    }

    /** `_run_handler_pipeline_unlocked` from the handler's return to the next `await`, or to its end. */
    method AfterHandler(lib: Library, i: nat, result: HandlerResult)
      requires i < |tasks| && tasks[i].phase.Handling?
      modifies this
      ensures View() == Step(lib, old(View()), HandlerReturns(i, result))
    {
      if result.skipPost {
        LeavePipeline(i);
        return;
      }
      var recv := ArgStr(lib, tasks[i].args, "sender");
      var rid := ResolvePostRequestId(lib, result, tasks[i].args);
      tasks := tasks[i := tasks[i].(phase := Posting, post := Some(AutoPost(recv, result.body, rid)))];
    }

    /** The end of the `async with` block. */
    method LeavePipeline(i: nat)
      requires i < |tasks| && Running(tasks[i])
      modifies this
      ensures View() == Exit(old(View()), i)
    {
      permits := permits + 1;
      tasks := tasks[i := tasks[i].(phase := Finished)];
    }
  }
}
