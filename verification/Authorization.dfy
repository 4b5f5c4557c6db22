/**
 * `LocalAuthorizationServer.confirm_authorization`: look the session up, push the key, complete the session. The push
 * is foreign code and takes time, so a confirm is three steps, and other requests may come between them.
 */
module Authorization {
  import opened Prelude
  import opened Sessions

  /** A confirm that found its session pending; `creation` is the number of that session's creation. */
  datatype Confirm = Confirm(callerId: string, creation: nat, phase: Phase)

  datatype Phase = Pushing | Pushed | Over

  /**
   * The store; for each caller the number of its session's creation; for each creation the number of successful
   * pushes; and the confirms so far.
   */
  datatype AuthState = AuthState(store: Store, creations: map<string, nat>, pushes: seq<nat>, confirms: seq<Confirm>)

  function Initial(): AuthState { AuthState(map[], map[], [], []) }

  datatype AuthEvent =
    | CreateEv(callerId: string, ttl: real, channel: Option<string>, now: real)
    | LookupEv(callerId: string, now: real)    // `resolve_pending_session` of the page request
    | RemoveEv(callerId: string)
    | ConfirmEv(callerId: string, now: real)   // `confirm_authorization` up to the push
    | PushReturns(confirm: nat)
    | PushRaises(confirm: nat)
    | CompleteEv(confirm: nat, now: real)      // the rest of `confirm_authorization`

  function SetPhase(s: AuthState, c: nat, phase: Phase): AuthState
    requires c < |s.confirms|
  {
    s.(confirms := s.confirms[c := s.confirms[c].(phase := phase)])
  }

  /** The bookkeeping fits the store: every session has its own creation. */
  ghost predicate TablesOk(s: AuthState) {
    && StoreOk(s.store)
    && s.store.Keys == s.creations.Keys
    && (forall k | k in s.creations :: s.creations[k] < |s.pushes|)
    && (forall j, k | j in s.creations && k in s.creations && s.creations[j] == s.creations[k] :: j == k)
    && (forall c | 0 <= c < |s.confirms| :: s.confirms[c].creation < |s.pushes|)
  }

  function Step(s: AuthState, e: AuthEvent): AuthState
    requires TablesOk(s)
  {
    match e
    case CreateEv(caller, ttl, channel, now) =>
      var (store, r) := Create(s.store, caller, ttl, channel, now);
      if r.Failure? then s
      else s.(store := store, creations := s.creations[caller := |s.pushes|], pushes := s.pushes + [0])
    case LookupEv(caller, now) => s.(store := GetPending(s.store, caller, now).0)
    case RemoveEv(caller) => s.(store := Remove(s.store, caller), creations := s.creations - {caller})
    case ConfirmEv(caller, now) =>
      var (store, session) := GetPending(s.store, caller, now);
      if session.None? then s.(store := store)
      else s.(store := store, confirms := s.confirms + [Confirm(caller, s.creations[caller], Pushing)])
    case PushReturns(c) =>
      if c >= |s.confirms| || s.confirms[c].phase != Pushing then s
      else
        var n := s.confirms[c].creation;
        SetPhase(s, c, Pushed).(pushes := s.pushes[n := s.pushes[n] + 1])
    case PushRaises(c) =>
      if c >= |s.confirms| || s.confirms[c].phase != Pushing then s else SetPhase(s, c, Over)
    case CompleteEv(c, now) =>
      if c >= |s.confirms| || s.confirms[c].phase != Pushed then s
      else SetPhase(s, c, Over).(store := Complete(s.store, s.confirms[c].callerId, now).0)
  }

  /** A confirm in one go, as a method over the store; true when it returns normally. */
  method ConfirmAuthorization(store: InMemoryLoginSessionStore, callerId: string, now: real, pushOk: bool, later: real)
    returns (ok: bool, pushed: bool)
    modifies store
    ensures var (found, session) := GetPending(old(store.sessions), callerId, now);
            && pushed == (session.Some? && pushOk)
            && (!pushed ==> !ok && store.sessions == found)
            && (pushed ==> store.sessions == Complete(found, callerId, later).0)
            && (ok <==> pushed && !session.value.IsExpired(later))
  {
    var session := store.GetPendingSession(callerId, now);
    if session.None? || !pushOk {
      return false, false;
    }
    var r := store.CompleteSession(callerId, later);
    return r.Success?, true;
  }

  // ---- what must not happen during a confirm ----

  predicate Busy(confirms: seq<Confirm>, callerId: string) {
    exists c :: 0 <= c < |confirms| && confirms[c].callerId == callerId && confirms[c].phase != Over
  }

  /**
   * While a confirm of a caller is under way, no other confirm of it finds its session pending, and it is not created
   * again. It may be looked up and removed, and other callers do not matter.
   */
  predicate Orderly(s: AuthState, e: AuthEvent) {
    match e
    case CreateEv(k, ttl, channel, now) => Busy(s.confirms, k) ==> Create(s.store, k, ttl, channel, now).1.Failure?
    case ConfirmEv(k, now) => Busy(s.confirms, k) ==> GetPending(s.store, k, now).1.None?
    case _ => true
  }

  /** A confirm under way has pushed for its creation or not yet; if its caller still has a session, it is that one. */
  ghost predicate ConfirmOk(s: AuthState, f: Confirm)
    requires TablesOk(s) && f.creation < |s.pushes|
  {
    f.phase != Over ==>
      && s.pushes[f.creation] == (if f.phase == Pushed then 1 else 0)
      && (f.callerId in s.creations ==>
            s.creations[f.callerId] == f.creation && s.store[f.callerId].status != Completed)
      && (forall k | k in s.creations && s.creations[k] == f.creation :: k == f.callerId)
  }

  ghost predicate ConfirmsOk(s: AuthState)
    requires TablesOk(s)
  {
    && (forall c | 0 <= c < |s.confirms| :: ConfirmOk(s, s.confirms[c]))
    && (forall c, d | 0 <= c < |s.confirms| && 0 <= d < |s.confirms|
                      && s.confirms[c].phase != Over && s.confirms[d].phase != Over
                      && (s.confirms[c].callerId == s.confirms[d].callerId
                          || s.confirms[c].creation == s.confirms[d].creation) :: c == d)
  }

  ghost predicate PushesOk(s: AuthState)
    requires TablesOk(s)
  {
    && (forall n | 0 <= n < |s.pushes| :: s.pushes[n] <= 1)
    && (forall k | k in s.store && s.store[k].status == Completed :: s.pushes[s.creations[k]] == 1)
    && (forall k | k in s.store && s.store[k].status == Pending && !Busy(s.confirms, k) ::
          s.pushes[s.creations[k]] == 0)
  }

  ghost predicate AuthOk(s: AuthState) {
    TablesOk(s) && ConfirmsOk(s) && PushesOk(s)
  }

  lemma CreateKeepsTables(s: AuthState, k: string, session: LoginSession)
    requires TablesOk(s) && k != "" && session.callerId == k
    ensures TablesOk(s.(store := s.store[k := session], creations := s.creations[k := |s.pushes|],
                        pushes := s.pushes + [0]))
  {
  }

  lemma RemoveKeepsTables(s: AuthState, k: string)
    requires TablesOk(s)
    ensures TablesOk(s.(store := s.store - {k}, creations := s.creations - {k}))
  {
  }

  lemma StatusKeepsTables(s: AuthState, k: string, status: Status)
    requires TablesOk(s) && k in s.store
    ensures TablesOk(s.(store := s.store[k := s.store[k].(status := status)]))
  {
    assert s.store[k := s.store[k].(status := status)].Keys == s.store.Keys;
  }

  lemma LookupKeepsTables(s: AuthState, k: string, now: real)
    requires TablesOk(s)
    ensures TablesOk(s.(store := GetPending(s.store, k, now).0))
  {
    if k in s.store {
      StatusKeepsTables(s, k, Expired);
    }
  }

  lemma CompleteKeepsTables(s: AuthState, k: string, now: real)
    requires TablesOk(s)
    ensures TablesOk(s.(store := Complete(s.store, k, now).0))
  {
    if k in s.store {
      StatusKeepsTables(s, k, Expired);
      StatusKeepsTables(s, k, Completed);
    }
  }

  lemma PhaseKeepsTables(s: AuthState, c: nat, phase: Phase, pushes: seq<nat>)
    requires TablesOk(s) && c < |s.confirms| && |pushes| == |s.pushes|
    ensures TablesOk(SetPhase(s, c, phase).(pushes := pushes))
  {
  }

  lemma ConfirmKeepsTables(s: AuthState, e: AuthEvent)
    requires TablesOk(s) && (e.PushReturns? || e.PushRaises? || e.CompleteEv?)
    ensures TablesOk(Step(s, e))
  {
    var c := e.confirm;
    if c < |s.confirms| {
      var f := s.confirms[c];
      match e
      case PushReturns(_) => PhaseKeepsTables(s, c, Pushed, s.pushes[f.creation := s.pushes[f.creation] + 1]);
      case PushRaises(_) => PhaseKeepsTables(s, c, Over, s.pushes);
      case CompleteEv(_, now) =>
        CompleteKeepsTables(s, f.callerId, now);
        PhaseKeepsTables(s.(store := Complete(s.store, f.callerId, now).0), c, Over, s.pushes);
    }
  }

  lemma BeginKeepsTables(s: AuthState, k: string)
    requires TablesOk(s) && k in s.store
    ensures TablesOk(s.(confirms := s.confirms + [Confirm(k, s.creations[k], Pushing)]))
  {
  }

  lemma ConfirmBeginKeepsTables(s: AuthState, k: string, now: real)
    requires TablesOk(s)
    ensures TablesOk(Step(s, ConfirmEv(k, now)))
  {
    LookupKeepsTables(s, k, now);
    if GetPending(s.store, k, now).1.Some? {
      BeginKeepsTables(s, k);
    }
  }

  lemma StepKeepsTables(s: AuthState, e: AuthEvent)
    requires TablesOk(s)
    ensures TablesOk(Step(s, e))
  {
    match e
    case CreateEv(k, ttl, channel, now) =>
      if k != "" && ttl > 0.0 { CreateKeepsTables(s, k, LoginSession(k, now + ttl, Pending, channel)); }
    case LookupEv(k, now) => LookupKeepsTables(s, k, now);
    case RemoveEv(k) => RemoveKeepsTables(s, k);
    case ConfirmEv(k, now) => ConfirmBeginKeepsTables(s, k, now);
    case _ => ConfirmKeepsTables(s, e);
  }

  /** Marking a session as expired, whatever it was waiting for. */
  lemma ExpiryKeeps(s: AuthState, k: string)
    requires AuthOk(s) && k in s.store && s.store[k].status == Pending
    ensures AuthOk(s.(store := s.store[k := s.store[k].(status := Expired)]))
  {
    StatusKeepsTables(s, k, Expired);
    var s' := s.(store := s.store[k := s.store[k].(status := Expired)]);
    forall c | 0 <= c < |s'.confirms| ensures ConfirmOk(s', s'.confirms[c]) {
      assert ConfirmOk(s, s.confirms[c]);
    }
  }

  /** Looking a session up can only turn it from pending to expired. */
  lemma LookupKeeps(s: AuthState, callerId: string, now: real)
    requires AuthOk(s)
    ensures AuthOk(s.(store := GetPending(s.store, callerId, now).0))
  {
    if callerId in s.store && s.store[callerId].status == Pending && s.store[callerId].IsExpired(now) {
      ExpiryKeeps(s, callerId);
    } else {
      assert s.(store := GetPending(s.store, callerId, now).0) == s;
    }
  }

  /** A new session under a new creation. */
  lemma NewSessionKeeps(s: AuthState, k: string, session: LoginSession)
    requires AuthOk(s) && !Busy(s.confirms, k) && k != "" && session.callerId == k && session.status == Pending
    ensures AuthOk(s.(store := s.store[k := session], creations := s.creations[k := |s.pushes|],
                      pushes := s.pushes + [0]))
  {
    CreateKeepsTables(s, k, session);
  }

  lemma CreateKeeps(s: AuthState, e: AuthEvent)
    requires AuthOk(s) && e.CreateEv? && Orderly(s, e)
    ensures AuthOk(Step(s, e))
  {
    var r := Create(s.store, e.callerId, e.ttl, e.channel, e.now).1;
    if r.Success? {
      NewSessionKeeps(s, e.callerId, r.value);
    }
  }

  lemma RemoveKeeps(s: AuthState, k: string)
    requires AuthOk(s)
    ensures AuthOk(Step(s, RemoveEv(k)))
  {
    RemoveKeepsTables(s, k);
  }

  lemma BeginKeeps(s: AuthState, k: string)
    requires AuthOk(s) && k in s.store && s.store[k].status == Pending && !Busy(s.confirms, k)
    ensures AuthOk(s.(confirms := s.confirms + [Confirm(k, s.creations[k], Pushing)]))
  {
    var s' := s.(confirms := s.confirms + [Confirm(k, s.creations[k], Pushing)]);
    BeginKeepsTables(s, k);
    forall c | 0 <= c < |s.confirms| && s.confirms[c].phase != Over
      ensures s.confirms[c].callerId != k && s.confirms[c].creation != s.creations[k]
    {
      assert ConfirmOk(s, s.confirms[c]);
    }
    BeginKeepsConfirms(s, k);
    BusyKept(s.confirms, s'.confirms);
  }

  lemma BeginKeepsConfirms(s: AuthState, k: string)
    requires AuthOk(s) && k in s.store && s.store[k].status == Pending && !Busy(s.confirms, k)
    requires forall c | 0 <= c < |s.confirms| && s.confirms[c].phase != Over ::
               s.confirms[c].callerId != k && s.confirms[c].creation != s.creations[k]
    ensures TablesOk(s.(confirms := s.confirms + [Confirm(k, s.creations[k], Pushing)]))
    ensures ConfirmsOk(s.(confirms := s.confirms + [Confirm(k, s.creations[k], Pushing)]))
  {
    BeginKeepsTables(s, k);
    var s' := s.(confirms := s.confirms + [Confirm(k, s.creations[k], Pushing)]);
    forall c | 0 <= c < |s'.confirms| ensures ConfirmOk(s', s'.confirms[c]) {
      if c < |s.confirms| {
        assert ConfirmOk(s, s.confirms[c]);
      }
    }
  }

  lemma ConfirmKeeps(s: AuthState, e: AuthEvent)
    requires AuthOk(s) && e.ConfirmEv? && Orderly(s, e)
    ensures AuthOk(Step(s, e))
  {
    if GetPending(s.store, e.callerId, e.now).1.None? {
      LookupKeeps(s, e.callerId, e.now);
    } else {
      BeginKeeps(s, e.callerId);
    }
  }

  /** Who was busy stays busy while no confirm gets over. */
  lemma BusyKept(before: seq<Confirm>, after: seq<Confirm>)
    requires |before| <= |after|
    requires forall c | 0 <= c < |before| ::
               after[c].callerId == before[c].callerId && (before[c].phase != Over ==> after[c].phase != Over)
    ensures forall k :: Busy(before, k) ==> Busy(after, k)
  {
  }

  lemma PushKeeps(s: AuthState, c: nat)
    requires AuthOk(s)
    ensures AuthOk(Step(s, PushReturns(c)))
  {
    StepKeepsTables(s, PushReturns(c));
    BusyKept(s.confirms, Step(s, PushReturns(c)).confirms);
    if c < |s.confirms| && s.confirms[c].phase == Pushing {
      PushKeepsConfirms(s, c);
      assert ConfirmOk(s, s.confirms[c]);
    }
  }

  lemma PushKeepsConfirms(s: AuthState, c: nat)
    requires TablesOk(s) && ConfirmsOk(s) && c < |s.confirms| && s.confirms[c].phase == Pushing
    ensures TablesOk(Step(s, PushReturns(c))) && ConfirmsOk(Step(s, PushReturns(c)))
  {
    var s' := Step(s, PushReturns(c));
    StepKeepsTables(s, PushReturns(c));
    forall d | 0 <= d < |s'.confirms| ensures ConfirmOk(s', s'.confirms[d]) {
      assert ConfirmOk(s, s.confirms[d]);
    }
  }

  /** When a confirm gets over, only its own caller may cease to be busy. */
  lemma BusyOthers(confirms: seq<Confirm>, c: nat)
    requires c < |confirms|
    ensures forall k | k != confirms[c].callerId ::
              Busy(confirms[c := confirms[c].(phase := Over)], k) == Busy(confirms, k)
  {
    var after := confirms[c := confirms[c].(phase := Over)];
    forall k | k != confirms[c].callerId ensures Busy(after, k) == Busy(confirms, k) {
      if Busy(confirms, k) {
        var d :| 0 <= d < |confirms| && confirms[d].callerId == k && confirms[d].phase != Over;
        assert after[d] == confirms[d];
      }
    }
  }

  lemma RaiseKeeps(s: AuthState, c: nat)
    requires AuthOk(s)
    ensures AuthOk(Step(s, PushRaises(c)))
  {
    StepKeepsTables(s, PushRaises(c));
    if c < |s.confirms| && s.confirms[c].phase == Pushing {
      BusyOthers(s.confirms, c);
      assert ConfirmOk(s, s.confirms[c]);
      forall d | 0 <= d < |s.confirms| ensures ConfirmOk(Step(s, PushRaises(c)), Step(s, PushRaises(c)).confirms[d]) {
        assert ConfirmOk(s, s.confirms[d]);
      }
    }
  }

  /** A confirm that pushed ends: its session is completed, or has expired, or was removed. */
  lemma EndKeeps(s: AuthState, c: nat, status: Status)
    requires AuthOk(s) && c < |s.confirms| && s.confirms[c].phase == Pushed && status != Pending
    requires s.confirms[c].callerId in s.store
    ensures AuthOk(Ended(s, c, status))
  {
    assert ConfirmOk(s, s.confirms[c]);
    BusyOthers(s.confirms, c);
    EndKeepsConfirms(s, c, status);
  }

  function Ended(s: AuthState, c: nat, status: Status): AuthState
    requires c < |s.confirms| && s.confirms[c].callerId in s.store
  {
    var k := s.confirms[c].callerId;
    SetPhase(s, c, Over).(store := s.store[k := s.store[k].(status := status)])
  }

  lemma EndKeepsConfirms(s: AuthState, c: nat, status: Status)
    requires TablesOk(s) && ConfirmsOk(s) && c < |s.confirms| && s.confirms[c].phase == Pushed
    requires s.confirms[c].callerId in s.store
    ensures TablesOk(Ended(s, c, status)) && ConfirmsOk(Ended(s, c, status))
  {
    var s' := Ended(s, c, status);
    assert s'.store.Keys == s.store.Keys;
    forall d | 0 <= d < |s'.confirms| ensures ConfirmOk(s', s'.confirms[d]) {
      assert ConfirmOk(s, s.confirms[d]);
    }
  }

  lemma EndAfterRemovalKeeps(s: AuthState, c: nat)
    requires AuthOk(s) && c < |s.confirms| && s.confirms[c].callerId !in s.store
    ensures AuthOk(SetPhase(s, c, Over))
  {
    BusyOthers(s.confirms, c);
    forall d | 0 <= d < |s.confirms| ensures ConfirmOk(SetPhase(s, c, Over), SetPhase(s, c, Over).confirms[d]) {
      assert ConfirmOk(s, s.confirms[d]);
    }
  }

  lemma CompleteKeeps(s: AuthState, c: nat, now: real)
    requires AuthOk(s)
    ensures AuthOk(Step(s, CompleteEv(c, now)))
  {
    if c < |s.confirms| && s.confirms[c].phase == Pushed {
      var k := s.confirms[c].callerId;
      if k in s.store {
        assert ConfirmOk(s, s.confirms[c]);
        var status := if s.store[k].status == Pending && !s.store[k].IsExpired(now) then Completed else Expired;
        EndKeeps(s, c, status);
        assert Complete(s.store, k, now).0 == s.store[k := s.store[k].(status := status)];
      } else {
        EndAfterRemovalKeeps(s, c);
      }
    }
  }

  lemma OrderlyStep(s: AuthState, e: AuthEvent)
    requires AuthOk(s) && Orderly(s, e)
    ensures AuthOk(Step(s, e))
  {
    match e
    case CreateEv(_, _, _, _) => CreateKeeps(s, e);
    case LookupEv(caller, now) => LookupKeeps(s, caller, now);
    case RemoveEv(k) => RemoveKeeps(s, k);
    case ConfirmEv(_, _) => ConfirmKeeps(s, e);
    case PushReturns(c) => PushKeeps(s, c);
    case PushRaises(c) => RaiseKeeps(s, c);
    case CompleteEv(c, now) => CompleteKeeps(s, c, now);
  }

  // ---- runs ----

  ghost function AuthRun(es: seq<AuthEvent>): (s: AuthState)
    ensures TablesOk(s)
  {
    if es == [] then Initial()
    else
      var s := AuthRun(es[..|es| - 1]);
      StepKeepsTables(s, es[|es| - 1]);
      Step(s, es[|es| - 1])
  }

  ghost predicate AllOrderly(es: seq<AuthEvent>) {
    es == [] || (AllOrderly(es[..|es| - 1]) && Orderly(AuthRun(es[..|es| - 1]), es[|es| - 1]))
  }

  lemma {:induction false} OrderlyRunOk(es: seq<AuthEvent>)
    requires AllOrderly(es)
    ensures AuthOk(AuthRun(es))
  {
    if es != [] {
      OrderlyRunOk(es[..|es| - 1]);
      OrderlyStep(AuthRun(es[..|es| - 1]), es[|es| - 1]);
    }
  }

  /**
   * Over every run in which, while a confirm is under way, its caller is not created again and no second confirm finds
   * its session pending, with any clock and any lookups and removals in between: each created session has at most one
   * successful push, a completed session has exactly one, and one that is pending with no confirm under way has none.
   */
  lemma EachSessionIsPushedOnce(es: seq<AuthEvent>)
    requires AllOrderly(es)
    ensures var s := AuthRun(es);
            && (forall n | 0 <= n < |s.pushes| :: s.pushes[n] <= 1)
            && (forall k | k in s.store && s.store[k].status == Completed :: s.pushes[s.creations[k]] == 1)
            && (forall k | k in s.store && s.store[k].status == Pending && !Busy(s.confirms, k) ::
                  s.pushes[s.creations[k]] == 0)
  {
    OrderlyRunOk(es);
  }

  /** The clock reading of a step. */
  function Reading(e: AuthEvent): Option<real> {
    match e
    case CreateEv(_, _, _, now) => Some(now)
    case LookupEv(_, now) => Some(now)
    case ConfirmEv(_, now) => Some(now)
    case CompleteEv(_, now) => Some(now)
    case _ => None
  }

  /**
   * What any step can do to a session, overlapping or not: it is removed or created again by a step of that name, or
   * keeps its deadline and either its status, or moves from pending to expired at a reading past the deadline, or from
   * pending to completed by a confirm of its caller that has pushed, at a reading before the deadline.
   */
  lemma StatusOnlyMovesForward(s: AuthState, e: AuthEvent, k: string)
    requires TablesOk(s) && k in s.store
    ensures var s' := Step(s, e);
            if k !in s'.store then e == RemoveEv(k)
            else if k !in s'.creations || s'.creations[k] != s.creations[k] then e.CreateEv? && e.callerId == k
            else
              var old', new' := s.store[k], s'.store[k];
              && new'.expiresAt == old'.expiresAt
              && (new'.status != old'.status ==>
                    && old'.status == Pending && Reading(e).Some?
                    && (new'.status == Expired ==> Reading(e).value >= old'.expiresAt)
                    && (new'.status == Completed ==>
                          && e.CompleteEv? && e.confirm < |s.confirms| && Reading(e).value < old'.expiresAt
                          && s.confirms[e.confirm].callerId == k && s.confirms[e.confirm].phase == Pushed))
  {
  }

  /**
   * What the steps of a confirm do. It begins exactly if the lookup finds the session, for that creation; a push that
   * returns counts for it; one that raises ends the confirm without; and the completion ends it, whether or not the
   * session is still there. Nothing else touches the confirms or the pushes already counted, and to the store each step
   * is the operation it stands for.
   */
  lemma ConfirmStepsAct(s: AuthState, e: AuthEvent, c: nat)
    requires TablesOk(s)
    ensures var s' := Step(s, e);
            && (e.ConfirmEv? ==>
                  && s'.pushes == s.pushes
                  && s'.confirms == s.confirms +
                       (if e.callerId in s.store && s.store[e.callerId].status == Pending
                           && e.now < s.store[e.callerId].expiresAt
                        then [Confirm(e.callerId, s.creations[e.callerId], Pushing)] else []))
            && (c < |s.confirms| && s.confirms[c].phase == Pushing ==>
                  var n := s.confirms[c].creation;
                  && (e == PushReturns(c) ==>
                        && s'.confirms == s.confirms[c := Confirm(s.confirms[c].callerId, n, Pushed)]
                        && s'.pushes == s.pushes[n := s.pushes[n] + 1])
                  && (e == PushRaises(c) ==>
                        && s'.confirms == s.confirms[c := Confirm(s.confirms[c].callerId, n, Over)]
                        && s'.pushes == s.pushes))
            && (c < |s.confirms| && s.confirms[c].phase == Pushed && e.CompleteEv? && e.confirm == c ==>
                  && s'.confirms == s.confirms[c := Confirm(s.confirms[c].callerId, s.confirms[c].creation, Over)]
                  && s'.pushes == s.pushes
                  && s'.store == Complete(s.store, s.confirms[c].callerId, e.now).0)
            && (e.LookupEv? || e.RemoveEv? ==> s'.confirms == s.confirms && s'.pushes == s.pushes)
            && (e.LookupEv? || e.ConfirmEv? ==> s'.store == GetPending(s.store, e.callerId, e.now).0)
            && (e.RemoveEv? ==> s'.store == Remove(s.store, e.callerId))
            && (e.CreateEv? ==> s'.store == Create(s.store, e.callerId, e.ttl, e.channel, e.now).0)
            && (e.PushReturns? || e.PushRaises? ==> s'.store == s.store)
  {
  }

  // ---- why the steps of one caller must not overlap ----

  ghost function After(s: AuthState, e: AuthEvent, f: AuthEvent): (r: AuthState)
    requires TablesOk(s)
    ensures TablesOk(r)
  {
    StepKeepsTables(s, e);
    StepKeepsTables(Step(s, e), f);
    Step(Step(s, e), f)
  }

  lemma TwoConfirms(s: AuthState, k: string, now: real)
    requires TablesOk(s) && k in s.store && s.store[k].status == Pending && !s.store[k].IsExpired(now)
    ensures var c := Confirm(k, s.creations[k], Pushing);
            After(s, ConfirmEv(k, now), ConfirmEv(k, now)) == s.(confirms := s.confirms + [c, c])
  {
    var c := Confirm(k, s.creations[k], Pushing);
    assert s.confirms + [c] + [c] == s.confirms + [c, c];
  }

  lemma TwoPushes(s: AuthState, n: nat)
    requires TablesOk(s) && n + 1 < |s.confirms|
    requires s.confirms[n].phase == Pushing && s.confirms[n + 1] == s.confirms[n]
    ensures var m := s.confirms[n].creation; After(s, PushReturns(n), PushReturns(n + 1)).pushes[m] == s.pushes[m] + 2
  {
  }

  /**
   * The source does not order its server threads: for any session that can be confirmed, two overlapping confirms
   * push two keys.
   */
  lemma OverlappingConfirmsPushTwice(s: AuthState, k: string, now: real)
    requires TablesOk(s) && k in s.store && s.store[k].status == Pending && !s.store[k].IsExpired(now)
    ensures var n, both := |s.confirms|, After(s, ConfirmEv(k, now), ConfirmEv(k, now));
            After(both, PushReturns(n), PushReturns(n + 1)).pushes[s.creations[k]] == s.pushes[s.creations[k]] + 2
  {
    TwoConfirms(s, k, now);
    TwoPushes(After(s, ConfirmEv(k, now), ConfirmEv(k, now)), |s.confirms|);
  }

  /** And a session created again while the push for the old one is under way is completed without a push of its own. */
  lemma RecreationCompletesWithoutPush(s: AuthState, k: string, ttl: real, now: real)
    requires TablesOk(s) && k in s.store && s.store[k].status == Pending && !s.store[k].IsExpired(now) && ttl > 0.0
    ensures var n, again := |s.confirms|, After(s, ConfirmEv(k, now), CreateEv(k, ttl, None, now));
            var done := After(again, PushReturns(n), CompleteEv(n, now));
            && k in done.store && done.store[k].status == Completed
            && done.creations[k] == |s.pushes| && done.pushes[|s.pushes|] == 0
  {
    var again := After(s, ConfirmEv(k, now), CreateEv(k, ttl, None, now));
    assert again == AuthState(s.store[k := LoginSession(k, now + ttl, Pending, None)], s.creations[k := |s.pushes|],
                              s.pushes + [0], s.confirms + [Confirm(k, s.creations[k], Pushing)]);
    LateCompletion(again, |s.confirms|, now);
  }

  lemma LateCompletion(s: AuthState, n: nat, now: real)
    requires TablesOk(s) && n < |s.confirms| && s.confirms[n].phase == Pushing
    requires var k := s.confirms[n].callerId;
             k in s.store && s.store[k].status == Pending && !s.store[k].IsExpired(now)
             && s.creations[k] != s.confirms[n].creation
    ensures var k, done := s.confirms[n].callerId, After(s, PushReturns(n), CompleteEv(n, now));
            && k in done.store && done.store[k].status == Completed && done.creations == s.creations
            && done.pushes[s.creations[k]] == s.pushes[s.creations[k]]
  {
  }

  /** At most one push for each creation, and exactly one for a completed session. */
  ghost predicate PushedOnce(s: AuthState)
    requires TablesOk(s)
  {
    && (forall n | 0 <= n < |s.pushes| :: s.pushes[n] <= 1)
    && (forall k | k in s.store && s.store[k].status == Completed :: s.pushes[s.creations[k]] == 1)
  }

  predicate OfConfirm(e: AuthEvent) { e.PushReturns? || e.PushRaises? || e.CompleteEv? }

  ghost function Then(s: AuthState, e: AuthEvent, f: AuthEvent, g: AuthEvent): (r: AuthState)
    requires TablesOk(s)
    ensures TablesOk(r)
  {
    StepKeepsTables(s, e);
    After(Step(s, e), f, g)
  }

  lemma OrderlyIsSafe(s: AuthState, e: AuthEvent, f: AuthEvent, g: AuthEvent)
    requires AuthOk(s) && Orderly(s, e) && OfConfirm(f) && OfConfirm(g)
    ensures PushedOnce(Then(s, e, f, g))
  {
    OrderlyStep(s, e);
    OrderlyStep(Step(s, e), f);
    OrderlyStep(Step(Step(s, e), f), g);
  }

  /** A second confirm of a pending session: both can push. */
  lemma SecondConfirmBreaks(s: AuthState, e: AuthEvent, c: nat) returns (f: AuthEvent, g: AuthEvent)
    requires AuthOk(s) && e.ConfirmEv? && GetPending(s.store, e.callerId, e.now).1.Some?
    requires c < |s.confirms| && s.confirms[c].callerId == e.callerId && s.confirms[c].phase != Over
    ensures OfConfirm(f) && OfConfirm(g) && !PushedOnce(Then(s, e, f, g))
  {
    var n, m := |s.confirms|, s.confirms[c].creation;
    assert ConfirmOk(s, s.confirms[c]);
    if s.confirms[c].phase == Pushing {
      f, g := PushReturns(c), PushReturns(n);
    } else {
      f, g := PushReturns(n), PushRaises(n);
    }
    var s1 := Step(s, e);
    assert s1 == s.(confirms := s.confirms + [Confirm(e.callerId, m, Pushing)]);
    assert Then(s, e, f, g).pushes[m] == 2;
  }

  /** A new session during a confirm: the confirm completes it without a push. */
  lemma NewSessionBreaks(s: AuthState, e: AuthEvent, c: nat) returns (f: AuthEvent, g: AuthEvent)
    requires AuthOk(s) && e.CreateEv? && Create(s.store, e.callerId, e.ttl, e.channel, e.now).1.Success?
    requires c < |s.confirms| && s.confirms[c].callerId == e.callerId && s.confirms[c].phase != Over
    ensures OfConfirm(f) && OfConfirm(g) && !PushedOnce(Then(s, e, f, g))
  {
    var s1 := Step(s, e);
    assert ConfirmOk(s, s.confirms[c]);
    StepKeepsTables(s, e);
    if s.confirms[c].phase == Pushing {
      f, g := PushReturns(c), CompleteEv(c, e.now);
      LateCompletion(s1, c, e.now);
    } else {
      f, g := CompleteEv(c, e.now), PushRaises(c);
      LastCompletion(s1, c, e.now);
    }
    assert s1.pushes[s1.creations[e.callerId]] == 0;
  }

  lemma LastCompletion(s: AuthState, n: nat, now: real)
    requires TablesOk(s) && n < |s.confirms| && s.confirms[n].phase == Pushed
    requires var k := s.confirms[n].callerId;
             k in s.store && s.store[k].status == Pending && !s.store[k].IsExpired(now)
    ensures var k, done := s.confirms[n].callerId, After(s, CompleteEv(n, now), PushRaises(n));
            && k in done.store && done.store[k].status == Completed && done.creations == s.creations
            && done.pushes == s.pushes
  {
  }

  /**
   * The condition is exact. In a state reached in order, an event is orderly if and only if the pushes stay right
   * whatever the confirms under way do next.
   */
  lemma OrderlyIsExact(s: AuthState, e: AuthEvent)
    requires AuthOk(s)
    ensures Orderly(s, e)
       <==> forall f, g | OfConfirm(f) && OfConfirm(g) :: PushedOnce(Then(s, e, f, g))
  {
    if Orderly(s, e) {
      forall f, g | OfConfirm(f) && OfConfirm(g) ensures PushedOnce(Then(s, e, f, g)) {
        OrderlyIsSafe(s, e, f, g);
      }
    } else {
      var c :| 0 <= c < |s.confirms| && s.confirms[c].callerId == e.callerId && s.confirms[c].phase != Over;
      var f, g;
      if e.ConfirmEv? {
        f, g := SecondConfirmBreaks(s, e, c);
      } else {
        f, g := NewSessionBreaks(s, e, c);
      }
      assert !PushedOnce(Then(s, e, f, g));
    }
  }
}
