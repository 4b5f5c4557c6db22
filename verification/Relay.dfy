/**
 * Relay receipts: `_relay_publish`, `wait_relay_predicate` and `_relay_cleanup` as atomic steps, one for each
 * stretch of code between two `await`s. A future is named by its number in order of creation.
 */
module Relay {
  import opened Prelude
  import opened Text
  import opened Json
  import opened OrderedDicts

  datatype Future<+T> = Pending | Done(value: T) | Cancelled

  /** `{"ok": True, "arguments": dict(args)}`; `serial` is the identity of the dictionary object. */
  datatype Receipt = Receipt(serial: nat, args: JsonObject)

  /** One call of `wait_relay_predicate` that registered a future, and whether it is still running. */
  datatype Waiter = Waiter(rid: string, fut: Future<Receipt>, running: bool)

  /** What has become of a published receipt. */
  datatype Fate =
    | Resolved(waiter: nat)   // set as the result of this waiter's future
    | Stashed(rid: string)    // in the stash
    | Taken                   // returned from the stash by a wait
    | Superseded              // replaced in the stash by a later publish of the same id
    | Evicted                 // pushed out of the full stash
    | Dropped                 // the stash is disabled
    | Cleared                 // in the stash when the connection was cleaned up

  datatype RelayState = RelayState(
    stash: OrderedDict<Receipt>,
    waiting: map<string, nat>,
    waiters: seq<Waiter>,
    fates: seq<Fate>)

  datatype WaitStart = BlankId | AlreadyWaiting | Stash(receipt: Receipt) | Registered(waiter: nat)

  function InitialRelay(): RelayState { RelayState(Empty(), map[], [], []) }

  // ---- the steps ----

  /** The fates of stashed receipts that leave the stash: `lost` names the ids, `how` what happened. */
  function Mark(fates: seq<Fate>, lost: set<string>, how: Fate): (r: seq<Fate>)
    ensures |r| == |fates|
  {
    seq(|fates|, i requires 0 <= i < |fates| =>
      if fates[i].Stashed? && fates[i].rid in lost then how else fates[i])
  }

  function Cancel<T>(f: Future<T>): Future<T> {
    if f.Pending? then Cancelled else f
  }

  /** `self._relay_stash.pop(rid, None)`: what was there, if anything, meets the fate `how`. */
  function Unstash(s: RelayState, rid: string, how: Fate): RelayState {
    s.(stash := s.stash.Pop(rid), fates := Mark(s.fates, {rid}, how))
  }

  /** `self._relay_stash[rid] = receipt` */
  function AddToStash(s: RelayState, rid: string, args: JsonObject): RelayState {
    s.(stash := s.stash.Touch(rid, Receipt(|s.fates|, args)), fates := s.fates + [Stashed(rid)])
  }

  /** `while len(stash) > cap: stash.popitem(last=False)` */
  function EvictStash(cap: nat, s: RelayState): RelayState {
    var kept := s.stash.EvictTo(cap);
    s.(stash := kept, fates := Mark(s.fates, s.stash.vals.Keys - kept.vals.Keys, Evicted))
  }

  /** `_relay_publish` */
  function Publish(cap: int, s: RelayState, rid: string, args: JsonObject): RelayState
    requires forall k | k in s.waiting :: s.waiting[k] < |s.waiters|
  {
    if Blank(rid) then s
    else
      var s1 := s.(waiting := s.waiting - {rid});
      if rid in s.waiting && s.waiters[s.waiting[rid]].fut.Pending? then
        var w := s.waiting[rid];
        s1.(waiters := s.waiters[w := s.waiters[w].(fut := Done(Receipt(|s.fates|, args)))],
            fates := s.fates + [Resolved(w)])
      else if cap <= 0 then s1.(fates := s.fates + [Dropped])
      else EvictStash(cap, AddToStash(Unstash(s1, rid, Superseded), rid, args))
  }

  /** `wait_relay_predicate` up to its `await` */
  function WaitBegin(s: RelayState, rid: string): (RelayState, WaitStart) {
    if Blank(rid) then (s, BlankId)
    else if rid in s.stash.vals then
      (Unstash(s, rid, Taken), Stash(s.stash.vals[rid]))
    else if rid in s.waiting then (s, AlreadyWaiting)
    else
      (s.(waiting := s.waiting[rid := |s.waiters|], waiters := s.waiters + [Waiter(rid, Pending, true)]),
       Registered(|s.waiters|))
  }

  /** The timeout of a wait, or the cancellation of its task, reaches the future it awaits. */
  function Interrupt(s: RelayState, w: nat): RelayState {
    if w < |s.waiters| && s.waiters[w].running
    then s.(waiters := s.waiters[w := s.waiters[w].(fut := Cancel(s.waiters[w].fut))])
    else s
  }

  /** The `finally` block of `wait_relay_predicate`: it removes and cancels only its own future. */
  function WaitEnd(s: RelayState, w: nat): RelayState {
    if w >= |s.waiters| || !s.waiters[w].running then s
    else
      var own := s.waiters[w];
      if own.rid in s.waiting && s.waiting[own.rid] == w then
        s.(waiting := s.waiting - {own.rid},
           waiters := s.waiters[w := own.(running := false, fut := Cancel(own.fut))])
      else s.(waiters := s.waiters[w := own.(running := false)])
  }

  /** `_relay_cleanup` */
  function Cleanup(s: RelayState): RelayState {
    RelayState(
      Empty(), map[],
      seq(|s.waiters|, i requires 0 <= i < |s.waiters| =>
        if s.waiters[i].rid in s.waiting && s.waiting[s.waiters[i].rid] == i
        then s.waiters[i].(fut := Cancel(s.waiters[i].fut)) else s.waiters[i]),
      Mark(s.fates, s.stash.vals.Keys, Cleared))
  }

  datatype RelayEvent =
    | PublishEv(rid: string, args: JsonObject)
    | WaitBeginEv(rid: string)
    | InterruptEv(waiter: nat)
    | WaitEndEv(waiter: nat)
    | CleanupEv

  function RelayStep(cap: int, s: RelayState, e: RelayEvent): RelayState
    requires forall k | k in s.waiting :: s.waiting[k] < |s.waiters|
  {
    match e
    case PublishEv(rid, args) => Publish(cap, s, rid, args)
    case WaitBeginEv(rid) => WaitBegin(s, rid).0
    case InterruptEv(w) => Interrupt(s, w)
    case WaitEndEv(w) => WaitEnd(s, w)
    case CleanupEv => Cleanup(s)
  }

  // ---- what every run keeps ----

  /** The two tables: a bounded stash, running waiters under their own id, and never both for one id. */
  ghost predicate TablesOk(cap: int, s: RelayState) {
    && s.stash.Valid()
    && |s.stash.keys| <= (if cap > 0 then cap else 0)
    && (forall k | k in s.waiting ::
          s.waiting[k] < |s.waiters| && s.waiters[s.waiting[k]].rid == k && s.waiters[s.waiting[k]].running)
    && (forall k | k in s.stash.vals :: k !in s.waiting)
    && (forall k | k in s.stash.vals || k in s.waiting :: !Blank(k))
  }

  /** A future that is still pending is the one registered under its id. */
  ghost predicate PendingIsRegistered(s: RelayState) {
    forall w | 0 <= w < |s.waiters| && s.waiters[w].fut.Pending? ::
      s.waiters[w].running && s.waiters[w].rid in s.waiting && s.waiting[s.waiters[w].rid] == w
  }

  /** The ledger is exact: the stash holds the receipts marked `Stashed`, and futures those marked `Resolved`. */
  ghost predicate LedgerOk(s: RelayState) {
    && (forall k | k in s.stash.vals ::
          s.stash.vals[k].serial < |s.fates| && s.fates[s.stash.vals[k].serial] == Stashed(k))
    && (forall n | 0 <= n < |s.fates| && s.fates[n].Stashed? ::
          s.fates[n].rid in s.stash.vals && s.stash.vals[s.fates[n].rid].serial == n)
    && (forall w | 0 <= w < |s.waiters| && s.waiters[w].fut.Done? ::
          s.waiters[w].fut.value.serial < |s.fates| && s.fates[s.waiters[w].fut.value.serial] == Resolved(w))
    && (forall n | 0 <= n < |s.fates| && s.fates[n].Resolved? ::
          s.fates[n].waiter < |s.waiters| && s.waiters[s.fates[n].waiter].fut.Done?
          && s.waiters[s.fates[n].waiter].fut.value.serial == n)
  }

  ghost predicate RelayOk(cap: int, s: RelayState) {
    TablesOk(cap, s) && PendingIsRegistered(s) && LedgerOk(s)
  }

  /** The three parts of stashing a receipt, as far as the stash's own shape goes. */
  lemma StashShape(cap: nat, s: RelayState, rid: string, args: JsonObject)
    requires s.stash.Valid()
    ensures var popped := Unstash(s, rid, Superseded);
            var added := AddToStash(popped, rid, args);
            var kept := EvictStash(cap, added).stash;
            && popped.stash.Valid() && added.stash.Valid() && kept.Valid()
            && |kept.keys| <= cap
            && (forall k | k in kept.vals :: k in added.stash.vals && kept.vals[k] == added.stash.vals[k])
  {
    PopKeepsValid(s.stash, rid);
    var popped := Unstash(s, rid, Superseded);
    TouchKeepsValid(popped.stash, rid, Receipt(|popped.fates|, args));
    var added := AddToStash(popped, rid, args);
    EvictKeepsValid(added.stash, cap);
    EvictShape(added.stash, cap);
  }

  lemma PublishKeepsTables(cap: int, s: RelayState, rid: string, args: JsonObject)
    requires TablesOk(cap, s)
    ensures TablesOk(cap, Publish(cap, s, rid, args))
  {
    if cap > 0 {
      StashShape(cap, s.(waiting := s.waiting - {rid}), rid, args);
    }
  }

  lemma WaitBeginKeepsTables(cap: int, s: RelayState, rid: string)
    requires TablesOk(cap, s)
    ensures TablesOk(cap, WaitBegin(s, rid).0)
  {
    PopKeepsValid(s.stash, rid);
  }

  lemma TablesStep(cap: int, s: RelayState, e: RelayEvent)
    requires TablesOk(cap, s)
    ensures TablesOk(cap, RelayStep(cap, s, e))
  {
    match e
    case PublishEv(rid, args) => PublishKeepsTables(cap, s, rid, args);
    case WaitBeginEv(rid) => WaitBeginKeepsTables(cap, s, rid);
    case InterruptEv(w) =>
    case WaitEndEv(w) =>
    case CleanupEv =>
  }

  lemma PendingStep(cap: int, s: RelayState, e: RelayEvent)
    requires TablesOk(cap, s) && PendingIsRegistered(s)
    ensures PendingIsRegistered(RelayStep(cap, s, e))
  {
  }

  /** Taking `lost` out of the stash and marking those receipts keeps the stash part of the ledger. */
  lemma MarkKeepsLedger(s: RelayState, lost: set<string>, how: Fate, stash: OrderedDict<Receipt>)
    requires LedgerOk(s) && !how.Stashed? && !how.Resolved?
    requires forall k :: k in stash.vals <==> k in s.stash.vals && k !in lost
    requires forall k | k in stash.vals :: stash.vals[k] == s.stash.vals[k]
    ensures LedgerOk(s.(stash := stash, fates := Mark(s.fates, lost, how)))
  {
  }

  /** A new receipt under an id that is not in the stash. */
  lemma StashKeepsLedger(s: RelayState, rid: string, args: JsonObject, stash: OrderedDict<Receipt>)
    requires LedgerOk(s) && rid !in s.stash.vals
    requires stash.vals == s.stash.vals[rid := Receipt(|s.fates|, args)]
    ensures LedgerOk(s.(stash := stash, fates := s.fates + [Stashed(rid)]))
  {
  }

  lemma StashReceiptKeepsLedger(cap: nat, s: RelayState, rid: string, args: JsonObject)
    requires s.stash.Valid() && LedgerOk(s)
    ensures LedgerOk(EvictStash(cap, AddToStash(Unstash(s, rid, Superseded), rid, args)))
  {
    StashShape(cap, s, rid, args);
    var popped := Unstash(s, rid, Superseded);
    MarkKeepsLedger(s, {rid}, Superseded, popped.stash);
    var added := AddToStash(popped, rid, args);
    StashKeepsLedger(popped, rid, args, added.stash);
    var kept := added.stash.EvictTo(cap);
    MarkKeepsLedger(added, added.stash.vals.Keys - kept.vals.Keys, Evicted, kept);
  }

  /** The code before the stash: a waiter that is still pending gets the receipt. */
  lemma ResolveKeepsLedger(s: RelayState, w: nat, r: Receipt, waiting: map<string, nat>)
    requires LedgerOk(s) && w < |s.waiters| && s.waiters[w].fut.Pending? && r.serial == |s.fates|
    ensures LedgerOk(s.(waiting := waiting, waiters := s.waiters[w := s.waiters[w].(fut := Done(r))],
                        fates := s.fates + [Resolved(w)]))
  {
  }

  lemma PublishKeepsLedger(cap: int, s: RelayState, rid: string, args: JsonObject)
    requires RelayOk(cap, s)
    ensures LedgerOk(Publish(cap, s, rid, args))
  {
    var s1 := s.(waiting := s.waiting - {rid});
    if rid in s.waiting && s.waiters[s.waiting[rid]].fut.Pending? {
      ResolveKeepsLedger(s, s.waiting[rid], Receipt(|s.fates|, args), s1.waiting);
    } else if cap > 0 {
      StashReceiptKeepsLedger(cap, s1, rid, args);
    }
  }

  lemma WaitBeginKeepsLedger(s: RelayState, rid: string)
    requires LedgerOk(s)
    ensures LedgerOk(WaitBegin(s, rid).0)
  {
    if rid in s.stash.vals {
      MarkKeepsLedger(s, {rid}, Taken, s.stash.Pop(rid));
    }
  }

  lemma WaiterKeepsLedger(s: RelayState, w: nat)
    requires LedgerOk(s)
    ensures LedgerOk(Interrupt(s, w)) && LedgerOk(WaitEnd(s, w))
  {
  }

  lemma CleanupKeepsLedger(s: RelayState)
    requires LedgerOk(s)
    ensures LedgerOk(Cleanup(s))
  {
    MarkKeepsLedger(s, s.stash.vals.Keys, Cleared, Empty());
  }

  lemma LedgerStep(cap: int, s: RelayState, e: RelayEvent)
    requires RelayOk(cap, s)
    ensures LedgerOk(RelayStep(cap, s, e))
  {
    match e
    case PublishEv(rid, args) => PublishKeepsLedger(cap, s, rid, args);
    case WaitBeginEv(rid) => WaitBeginKeepsLedger(s, rid);
    case InterruptEv(w) => WaiterKeepsLedger(s, w);
    case WaitEndEv(w) => WaiterKeepsLedger(s, w);
    case CleanupEv => CleanupKeepsLedger(s);
  }

  // ---- runs ----

  lemma RelayStepOk(cap: int, s: RelayState, e: RelayEvent)
    requires RelayOk(cap, s)
    ensures RelayOk(cap, RelayStep(cap, s, e))
  {
    TablesStep(cap, s, e);
    PendingStep(cap, s, e);
    LedgerStep(cap, s, e);
  }

  ghost function RelayRun(cap: int, s: RelayState, es: seq<RelayEvent>): (r: RelayState)
    requires RelayOk(cap, s)
    ensures RelayOk(cap, r)
  {
    if es == [] then s
    else
      var before := RelayRun(cap, s, es[..|es| - 1]);
      RelayStepOk(cap, before, es[|es| - 1]);
      RelayStep(cap, before, es[|es| - 1])
  }

  /** The receipts published so far, in order: blank ids are skipped. */
  ghost function Published(es: seq<RelayEvent>): seq<(string, JsonObject)> {
    if es == [] then []
    else
      var before, e := Published(es[..|es| - 1]), es[|es| - 1];
      if e.PublishEv? && !Blank(e.rid) then before + [(e.rid, e.args)] else before
  }

  /** A receipt is only ever what was published under its serial number and id. */
  ghost predicate Genuine(s: RelayState, published: seq<(string, JsonObject)>) {
    && |s.fates| == |published|
    && (forall k | k in s.stash.vals ::
          s.stash.vals[k].serial < |published| && published[s.stash.vals[k].serial] == (k, s.stash.vals[k].args))
    && (forall w | 0 <= w < |s.waiters| && s.waiters[w].fut.Done? ::
          var r := s.waiters[w].fut.value;
          r.serial < |published| && published[r.serial] == (s.waiters[w].rid, r.args))
  }

  lemma GenuineStep(cap: int, s: RelayState, e: RelayEvent, published: seq<(string, JsonObject)>)
    requires RelayOk(cap, s) && Genuine(s, published)
    ensures Genuine(RelayStep(cap, s, e),
                    if e.PublishEv? && !Blank(e.rid) then published + [(e.rid, e.args)] else published)
  {
    if e.PublishEv? {
      GenuinePublish(cap, s, e.rid, e.args, published);
    }
  }

  lemma GenuinePublish(cap: int, s: RelayState, rid: string, args: JsonObject, published: seq<(string, JsonObject)>)
    requires RelayOk(cap, s) && Genuine(s, published)
    ensures Genuine(Publish(cap, s, rid, args), if Blank(rid) then published else published + [(rid, args)])
  {
    if cap > 0 {
      StashShape(cap, s.(waiting := s.waiting - {rid}), rid, args);
    }
  }

  /** What a fate may become in one step: only a stashed receipt can change, and a publish adds one entry. */
  ghost predicate FatesAdvance(before: seq<Fate>, after: seq<Fate>) {
    |before| <= |after| && forall n | 0 <= n < |before| :: before[n].Stashed? || after[n] == before[n]
  }

  lemma FatesStep(cap: int, s: RelayState, e: RelayEvent)
    requires RelayOk(cap, s)
    ensures FatesAdvance(s.fates, RelayStep(cap, s, e).fates)
  {
  }

  // ---- why a receipt has the fate it has ----

  /** The future registered under this id is still pending. */
  ghost predicate Awaited(cap: int, s: RelayState, rid: string)
    requires TablesOk(cap, s)
  {
    rid in s.waiting && s.waiters[s.waiting[rid]].fut.Pending?
  }

  /** The event puts a receipt into the stash. */
  ghost predicate Stashes(cap: int, s: RelayState, e: RelayEvent)
    requires TablesOk(cap, s)
  {
    e.PublishEv? && !Blank(e.rid) && !Awaited(cap, s, e.rid) && cap > 0
  }

  /** The event pushes out what is stashed under `rid`: another id is new to a full stash, and `rid` is the oldest. */
  ghost predicate Evicts(cap: int, s: RelayState, e: RelayEvent, rid: string)
    requires TablesOk(cap, s)
  {
    Stashes(cap, s, e) && e.rid !in s.stash.vals && |s.stash.keys| == cap && s.stash.keys[0] == rid
  }

  /** The event publishes receipt number `n`, and this is where it goes. */
  ghost predicate Starts(cap: int, s: RelayState, e: RelayEvent, n: nat, fate: Fate)
    requires TablesOk(cap, s)
  {
    && e.PublishEv? && !Blank(e.rid) && n == |s.fates|
    && fate == if Awaited(cap, s, e.rid) then Resolved(s.waiting[e.rid])
               else if cap > 0 then Stashed(e.rid) else Dropped
  }

  /** The event takes the stashed receipt number `n` out of the stash, and this is why. */
  ghost predicate Leaves(cap: int, s: RelayState, e: RelayEvent, n: nat, fate: Fate)
    requires TablesOk(cap, s)
  {
    && n < |s.fates| && s.fates[n].Stashed?
    && var rid := s.fates[n].rid;
       match fate
       case Taken => e == WaitBeginEv(rid) && rid in s.stash.vals && WaitBegin(s, rid).1 == Stash(s.stash.vals[rid])
       case Superseded => e.PublishEv? && e.rid == rid
       case Evicted => Evicts(cap, s, e, rid)
       case Cleared => e.CleanupEv?
       case _ => false
  }

  /** A publish under a non-blank id, and nothing else, adds a receipt, and it starts where it should. */
  lemma ReceiptStarts(cap: int, s: RelayState, e: RelayEvent)
    requires RelayOk(cap, s)
    ensures var fates := RelayStep(cap, s, e).fates;
            if e.PublishEv? && !Blank(e.rid)
            then |fates| == |s.fates| + 1 && Starts(cap, s, e, |s.fates|, fates[|s.fates|])
            else |fates| == |s.fates|
  {
    if e.PublishEv? && cap > 0 {
      PublishedIsKept(cap, s.(waiting := s.waiting - {e.rid}), e.rid, e.args);
    }
  }

  /** The receipt just stashed is not the one evicted. */
  lemma PublishedIsKept(cap: nat, s: RelayState, rid: string, args: JsonObject)
    requires s.stash.Valid() && cap > 0
    ensures var added := AddToStash(Unstash(s, rid, Superseded), rid, args);
            && rid in EvictStash(cap, added).stash.vals
            && EvictStash(cap, added).fates[|s.fates|] == Stashed(rid)
  {
    var popped, r := s.stash.Pop(rid), Receipt(|s.fates|, args);
    PopKeepsValid(s.stash, rid);
    TouchKeepsValid(popped, rid, r);
    TouchNewer(popped, rid, r);
    EvictKeepsRecent(popped.Touch(rid, r), cap, rid);
  }

  /** Which stashed receipts a publish into the stash pushes out. */
  lemma PublishEvicts(cap: nat, s: RelayState, rid: string, args: JsonObject)
    requires s.stash.Valid() && cap > 0 && |s.stash.keys| <= cap
    ensures var kept := EvictStash(cap, AddToStash(Unstash(s, rid, Superseded), rid, args)).stash;
            forall k | k in s.stash.vals && k != rid ::
              k !in kept.vals <==> rid !in s.stash.vals && |s.stash.keys| == cap && s.stash.keys[0] == k
  {
    var popped, r := s.stash.Pop(rid), Receipt(|s.fates|, args);
    PopKeepsValid(s.stash, rid);
    if rid in s.stash.vals {
      NewKeyEvicts(popped, cap, rid, r);
    } else {
      WithoutAbsent(s.stash.keys, rid);
      assert popped == s.stash;
      NewKeyEvicts(s.stash, cap, rid, r);
    }
  }

  /** A stashed receipt changes its fate exactly when, and exactly as, the event gives a reason for it. */
  lemma ReceiptLeaves(cap: int, s: RelayState, e: RelayEvent, n: nat, fate: Fate)
    requires RelayOk(cap, s) && n < |s.fates| && s.fates[n].Stashed? && fate != s.fates[n]
    ensures RelayStep(cap, s, e).fates[n] == fate <==> Leaves(cap, s, e, n, fate)
  {
    if Stashes(cap, s, e) {
      PublishLeaves(cap, s, e, n);
    }
  }

  lemma PublishLeaves(cap: int, s: RelayState, e: RelayEvent, n: nat)
    requires RelayOk(cap, s) && n < |s.fates| && s.fates[n].Stashed? && Stashes(cap, s, e)
    ensures RelayStep(cap, s, e).fates[n] == if e.rid == s.fates[n].rid then Superseded
                                             else if Evicts(cap, s, e, s.fates[n].rid) then Evicted else s.fates[n]
  {
    PublishEvicts(cap, s.(waiting := s.waiting - {e.rid}), e.rid, e.args);
  }

  ghost predicate Causes(cap: int, s: RelayState, e: RelayEvent, n: nat, fate: Fate)
    requires TablesOk(cap, s)
  {
    Starts(cap, s, e, n, fate) || Leaves(cap, s, e, n, fate)
  }

  ghost predicate CausedAt(cap: int, before: seq<RelayEvent>, e: RelayEvent, n: nat, fate: Fate) {
    Causes(cap, RelayRun(cap, InitialRelay(), before), e, n, fate)
  }

  /** Some event of the run gave receipt number `n` this fate, for the reason that goes with it. */
  ghost predicate HasCause(cap: int, es: seq<RelayEvent>, n: nat, fate: Fate) {
    exists i | 0 <= i < |es| :: CausedAt(cap, es[..i], es[i], n, fate)
  }

  lemma CauseOfStep(cap: int, s: RelayState, e: RelayEvent, n: nat)
    requires RelayOk(cap, s) && n < |RelayStep(cap, s, e).fates|
    ensures var fate := RelayStep(cap, s, e).fates[n];
            Causes(cap, s, e, n, fate) || (n < |s.fates| && fate == s.fates[n])
  {
    ReceiptStarts(cap, s, e);
    FatesStep(cap, s, e);
    if n < |s.fates| && s.fates[n].Stashed? && RelayStep(cap, s, e).fates[n] != s.fates[n] {
      ReceiptLeaves(cap, s, e, n, RelayStep(cap, s, e).fates[n]);
    }
  }

  lemma CauseInPrefix(cap: int, es: seq<RelayEvent>, n: nat, fate: Fate)
    requires es != [] && HasCause(cap, es[..|es| - 1], n, fate)
    ensures HasCause(cap, es, n, fate)
  {
    var before := es[..|es| - 1];
    var i :| 0 <= i < |before| && CausedAt(cap, before[..i], before[i], n, fate);
    assert es[..i] == before[..i] && es[i] == before[i];
    assert CausedAt(cap, es[..i], es[i], n, fate);
  }

  lemma CauseIsLast(cap: int, es: seq<RelayEvent>, n: nat, fate: Fate)
    requires es != []
    requires Causes(cap, RelayRun(cap, InitialRelay(), es[..|es| - 1]), es[|es| - 1], n, fate)
    ensures HasCause(cap, es, n, fate)
  {
    assert CausedAt(cap, es[..|es| - 1], es[|es| - 1], n, fate);
  }

  lemma {:induction false} FatesHaveCauses(cap: int, es: seq<RelayEvent>, n: nat)
    requires n < |RelayRun(cap, InitialRelay(), es).fates|
    ensures HasCause(cap, es, n, RelayRun(cap, InitialRelay(), es).fates[n])
  {
    var before := RelayRun(cap, InitialRelay(), es[..|es| - 1]);
    var fate := RelayRun(cap, InitialRelay(), es).fates[n];
    CauseOfStep(cap, before, es[|es| - 1], n);
    if n < |before.fates| && fate == before.fates[n] {
      FatesHaveCauses(cap, es[..|es| - 1], n);
      CauseInPrefix(cap, es, n, fate);
    } else {
      CauseIsLast(cap, es, n, fate);
    }
  }

  /**
   * Receipt conservation over every run. Every receipt published under a non-blank id has exactly one fate, and some
   * event of the run is the reason for it; the stash holds exactly the receipts whose fate is `Stashed`, and waiters'
   * futures exactly those whose fate is `Resolved`, each under the id and with the arguments it was published with.
   */
  lemma ReceiptsAreConserved(cap: int, es: seq<RelayEvent>)
    ensures var s := RelayRun(cap, InitialRelay(), es);
            && LedgerOk(s) && Genuine(s, Published(es)) && |s.fates| == |Published(es)|
            && forall n: nat | n < |s.fates| :: HasCause(cap, es, n, s.fates[n])
  {
    RunIsGenuine(cap, es);
    forall n: nat | n < |RelayRun(cap, InitialRelay(), es).fates|
      ensures HasCause(cap, es, n, RelayRun(cap, InitialRelay(), es).fates[n])
    {
      FatesHaveCauses(cap, es, n);
    }
  }

  lemma {:induction false} RunIsGenuine(cap: int, es: seq<RelayEvent>)
    ensures Genuine(RelayRun(cap, InitialRelay(), es), Published(es))
  {
    if es != [] {
      var n := |es| - 1;
      RunIsGenuine(cap, es[..n]);
      GenuineStep(cap, RelayRun(cap, InitialRelay(), es[..n]), es[n], Published(es[..n]));
    }
  }

  /** A fate other than `Stashed` is final, however the run goes on. */
  lemma {:induction false} FatesAreFinal(cap: int, s: RelayState, es: seq<RelayEvent>)
    requires RelayOk(cap, s)
    ensures FatesAdvance(s.fates, RelayRun(cap, s, es).fates)
  {
    if es != [] {
      var n := |es| - 1;
      FatesAreFinal(cap, s, es[..n]);
      FatesStep(cap, RelayRun(cap, s, es[..n]), es[n]);
    }
  }

  /** No receipt is handed out twice: not to two waiters, and not again once a wait took it from the stash. */
  lemma HandedOutOnce(cap: int, s: RelayState, es: seq<RelayEvent>)
    requires RelayOk(cap, s)
    ensures var later := RelayRun(cap, s, es);
            && (forall w, v | 0 <= w < v < |s.waiters| && s.waiters[w].fut.Done? && s.waiters[v].fut.Done? ::
                  s.waiters[w].fut.value.serial != s.waiters[v].fut.value.serial)
            && (forall n | 0 <= n < |s.fates| && s.fates[n].Taken? ::
                  && (forall k | k in later.stash.vals :: later.stash.vals[k].serial != n)
                  && (forall w | 0 <= w < |later.waiters| && later.waiters[w].fut.Done? ::
                        later.waiters[w].fut.value.serial != n))
  {
    FatesAreFinal(cap, s, es);
  }

  /** A wait that finds a stashed receipt returns that one, and takes it. */
  lemma WaitTakesFromStash(cap: int, s: RelayState, rid: string)
    requires RelayOk(cap, s)
    ensures var (s', start) := WaitBegin(s, rid);
            && (start.Stash? <==> rid in s.stash.vals)
            && (start.Stash? ==>
                  && start.receipt == s.stash.vals[rid]
                  && s.fates[start.receipt.serial] == Stashed(rid)
                  && s'.fates[start.receipt.serial] == Taken && rid !in s'.stash.vals)
            && (start.Registered? ==>
                  && s'.waiting == s.waiting[rid := |s.waiters|] && start.waiter == |s.waiters|
                  && s'.waiters == s.waiters + [Waiter(rid, Pending, true)] && s'.stash == s.stash)
            && (start.AlreadyWaiting? <==> rid in s.waiting)
            && (start.BlankId? <==> Blank(rid))
            && (start.BlankId? || start.AlreadyWaiting? ==> s' == s)
  {
  }

  /**
   * A waiter's future changes only by a publish of its own id, its own timeout or end, or the cleanup; once done it
   * keeps its value. In particular a finishing waiter cannot disturb a later one on the same id.
   */
  lemma WaitersAreIndependent(cap: int, s: RelayState, e: RelayEvent, w: nat)
    requires RelayOk(cap, s) && w < |s.waiters|
    ensures var s' := RelayStep(cap, s, e);
            && w < |s'.waiters| && s'.waiters[w].rid == s.waiters[w].rid
            && (s.waiters[w].fut.Done? ==> s'.waiters[w].fut == s.waiters[w].fut)
            && (s'.waiters[w] != s.waiters[w] ==>
                  || (e.PublishEv? && e.rid == s.waiters[w].rid)
                  || e == InterruptEv(w) || e == WaitEndEv(w) || e == CleanupEv)
            && (s.waiters[w].rid in s.waiting && s.waiting[s.waiters[w].rid] == w
                && !(s.waiters[w].rid in s'.waiting && s'.waiting[s.waiters[w].rid] == w) ==>
                  || (e.PublishEv? && e.rid == s.waiters[w].rid) || e == WaitEndEv(w) || e == CleanupEv)
  {
  }

  /**
   * What each step does to a waiter whose future is pending: a publish of its id resolves it with those arguments, a
   * timeout, its own end and the cleanup cancel it. A publish, the waiter's end and the cleanup unregister it, and an
   * ended waiter runs no more.
   */
  lemma WaiterStepsAct(cap: int, s: RelayState, e: RelayEvent, w: nat)
    requires RelayOk(cap, s) && w < |s.waiters|
    ensures var s', rid := RelayStep(cap, s, e), s.waiters[w].rid;
            && (s.waiters[w].fut.Pending? ==>
                  && (e.PublishEv? && e.rid == rid && !Blank(rid) ==>
                        s'.waiters[w].fut.Done? && s'.waiters[w].fut.value.args == e.args)
                  && (e == InterruptEv(w) || e == WaitEndEv(w) || e == CleanupEv ==> s'.waiters[w].fut.Cancelled?))
            && (e.PublishEv? && !Blank(e.rid) ==> s'.waiting == s.waiting - {e.rid})
            && (e == WaitEndEv(w) && rid in s'.waiting ==> s'.waiting[rid] != w)
            && s'.waiters[w].running == (s.waiters[w].running && e != WaitEndEv(w))
            && (e == CleanupEv ==> s'.waiting == map[] && s'.stash == Empty())
  {
  }

  // ---- how long a receipt stays in the stash ----

  /** Neither published, nor waited for, nor cleaned up. */
  ghost predicate Undisturbed(rid: string, es: seq<RelayEvent>) {
    forall i | 0 <= i < |es| :: !Disturbs(es[i], rid)
  }

  /** The ids under which the run puts receipts into the stash. */
  ghost function StashedIds(cap: int, s: RelayState, es: seq<RelayEvent>): set<string>
    requires RelayOk(cap, s)
  {
    if es == [] then {}
    else
      var n := |es| - 1;
      StashedIds(cap, s, es[..n]) + if Stashes(cap, RelayRun(cap, s, es[..n]), es[n]) then {es[n].rid} else {}
  }

  /** Some event of the run evicts the receipt stashed under `rid`. */
  ghost predicate EvictedIn(cap: int, s: RelayState, es: seq<RelayEvent>, rid: string)
    requires RelayOk(cap, s)
  {
    if es == [] then false
    else
      var n := |es| - 1;
      EvictedIn(cap, s, es[..n], rid) || Evicts(cap, RelayRun(cap, s, es[..n]), es[n], rid)
  }

  lemma OtherStashedIsYounger(cap: nat, s: RelayState, other: string, args: JsonObject, rid: string)
    requires s.stash.Valid() && rid in s.stash.vals && rid != other
    requires |s.stash.Newer(rid) + {other}| < cap
    ensures var kept := EvictStash(cap, AddToStash(Unstash(s, other, Superseded), other, args)).stash;
            && rid in kept.vals && kept.vals[rid] == s.stash.vals[rid]
            && kept.Newer(rid) <= s.stash.Newer(rid) + {other}
  {
    var popped := Unstash(s, other, Superseded);
    var r := Receipt(|popped.fates|, args);
    var added := AddToStash(popped, other, args).stash;
    PopKeepsValid(s.stash, other);
    NewerWithout(s.stash.keys, rid, other);
    TouchKeepsValid(popped.stash, other, r);
    TouchNewer(popped.stash, other, r);
    SubsetSize(added.Newer(rid), s.stash.Newer(rid) + {other});
    EvictKeepsRecent(added, cap, rid);
  }

  /** The receipt under `rid` is still there. */
  ghost predicate StillStashed(s: RelayState, later: RelayState, rid: string) {
    rid in s.stash.vals && rid in later.stash.vals && later.stash.vals[rid] == s.stash.vals[rid]
  }

  ghost predicate Disturbs(e: RelayEvent, rid: string) {
    (e.PublishEv? && e.rid == rid) || (e.WaitBeginEv? && e.rid == rid) || e.CleanupEv?
  }

  /** Without a disturbance a stashed receipt stays exactly when it is not evicted, and none appears. */
  lemma UndisturbedStep(cap: int, s: RelayState, e: RelayEvent, rid: string)
    requires RelayOk(cap, s) && !Disturbs(e, rid)
    ensures var s' := RelayStep(cap, s, e);
            if rid in s.stash.vals && !Evicts(cap, s, e, rid) then StillStashed(s, s', rid) else rid !in s'.stash.vals
  {
    if Stashes(cap, s, e) {
      UndisturbedPublish(cap, s.(waiting := s.waiting - {e.rid}), e.rid, e.args, rid);
    }
  }

  lemma UndisturbedPublish(cap: nat, s: RelayState, other: string, args: JsonObject, rid: string)
    requires s.stash.Valid() && |s.stash.keys| <= cap && cap > 0 && other != rid
    ensures var s' := EvictStash(cap, AddToStash(Unstash(s, other, Superseded), other, args));
            var evicted := other !in s.stash.vals && |s.stash.keys| == cap && s.stash.keys[0] == rid;
            if rid in s.stash.vals && !evicted then StillStashed(s, s', rid) else rid !in s'.stash.vals
  {
    StashShape(cap, s, other, args);
    PublishEvicts(cap, s, other, args);
  }

  /** Ids of other receipts become newer than a stashed one only by being stashed. */
  lemma AgeStep(cap: int, s: RelayState, e: RelayEvent, rid: string)
    requires RelayOk(cap, s) && rid in s.stash.vals && !Disturbs(e, rid)
    requires Stashes(cap, s, e) ==> |s.stash.Newer(rid) + {e.rid}| < cap
    ensures !Evicts(cap, s, e, rid)
    ensures RelayStep(cap, s, e).stash.Newer(rid)
         <= s.stash.Newer(rid) + (if Stashes(cap, s, e) then {e.rid} else {})
  {
    if Stashes(cap, s, e) {
      OtherStashedIsYounger(cap, s.(waiting := s.waiting - {e.rid}), e.rid, e.args, rid);
      PublishEvicts(cap, s.(waiting := s.waiting - {e.rid}), e.rid, e.args);
    } else if e.WaitBeginEv? {
      NewerWithout(s.stash.keys, rid, e.rid);
    }
  }

  /** A stashed receipt stays through a run that does not disturb it exactly if no event evicts it. */
  lemma {:induction false} StaysUnlessEvicted(cap: int, s: RelayState, es: seq<RelayEvent>, rid: string)
    requires RelayOk(cap, s) && rid in s.stash.vals && Undisturbed(rid, es)
    ensures if EvictedIn(cap, s, es, rid) then rid !in RelayRun(cap, s, es).stash.vals
            else StillStashed(s, RelayRun(cap, s, es), rid)
  {
    if es != [] {
      var n := |es| - 1;
      UndisturbedPrefix(rid, es);
      StaysUnlessEvicted(cap, s, es[..n], rid);
      UndisturbedStep(cap, RelayRun(cap, s, es[..n]), es[n], rid);
    }
  }

  /** It is not evicted while, with what is newer already, fewer than `cap` distinct other ids are stashed. */
  lemma {:induction false} FewOthersDoNotEvict(cap: int, s: RelayState, es: seq<RelayEvent>, rid: string)
    requires RelayOk(cap, s) && rid in s.stash.vals && Undisturbed(rid, es)
    requires |s.stash.Newer(rid) + StashedIds(cap, s, es)| < cap
    ensures !EvictedIn(cap, s, es, rid)
    ensures RelayRun(cap, s, es).stash.Newer(rid) <= s.stash.Newer(rid) + StashedIds(cap, s, es)
  {
    if es != [] {
      var n := |es| - 1;
      var now, ids := RelayRun(cap, s, es[..n]), s.stash.Newer(rid) + StashedIds(cap, s, es);
      UndisturbedPrefix(rid, es);
      SubsetSize(s.stash.Newer(rid) + StashedIds(cap, s, es[..n]), ids);
      FewOthersDoNotEvict(cap, s, es[..n], rid);
      StaysUnlessEvicted(cap, s, es[..n], rid);
      if Stashes(cap, now, es[n]) {
        SubsetSize(now.stash.Newer(rid) + {es[n].rid}, ids);
      }
      AgeStep(cap, now, es[n], rid);
    }
  }

  lemma UndisturbedPrefix(rid: string, es: seq<RelayEvent>)
    requires Undisturbed(rid, es) && es != []
    ensures Undisturbed(rid, es[..|es| - 1])
  {
    assert forall i | 0 <= i < |es| - 1 :: es[..|es| - 1][i] == es[i];
  }

  /** A receipt nobody waits for is stashed, as the newest. */
  lemma PublishStashes(cap: int, s: RelayState, rid: string, args: JsonObject)
    requires RelayOk(cap, s) && !Blank(rid) && cap > 0 && !Awaited(cap, s, rid)
    ensures var stash := Publish(cap, s, rid, args).stash;
            rid in stash.vals && stash.vals[rid] == Receipt(|s.fates|, args) && stash.Newer(rid) == {}
  {
    var popped, r := s.stash.Pop(rid), Receipt(|s.fates|, args);
    PopKeepsValid(s.stash, rid);
    TouchKeepsValid(popped, rid, r);
    TouchNewer(popped, rid, r);
    EvictKeepsRecent(popped.Touch(rid, r), cap, rid);
  }

  /**
   * A receipt that no waiter was waiting for is returned by the next wait on its id, unless it was published again, a
   * cleanup ran, or it was evicted in between: exactly if no event evicted it, and so in any case if fewer than `cap`
   * distinct other ids were put into the stash.
   */
  lemma NextWaitReturnsStashed(cap: int, s: RelayState, rid: string, args: JsonObject, es: seq<RelayEvent>)
    requires RelayOk(cap, s) && !Blank(rid) && cap > 0 && !Awaited(cap, s, rid) && Undisturbed(rid, es)
    ensures RelayOk(cap, Publish(cap, s, rid, args))
    ensures var after := Publish(cap, s, rid, args);
            && (WaitBegin(RelayRun(cap, after, es), rid).1 == Stash(Receipt(|s.fates|, args))
                <==> !EvictedIn(cap, after, es, rid))
            && (|StashedIds(cap, after, es)| < cap ==> !EvictedIn(cap, after, es, rid))
  {
    RelayStepOk(cap, s, PublishEv(rid, args));
    PublishStashes(cap, s, rid, args);
    var after := Publish(cap, s, rid, args);
    StaysUnlessEvicted(cap, after, es, rid);
    if |StashedIds(cap, after, es)| < cap {
      assert after.stash.Newer(rid) + StashedIds(cap, after, es) == StashedIds(cap, after, es);
      FewOthersDoNotEvict(cap, after, es, rid);
    }
  }
}
