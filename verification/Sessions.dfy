/** Login sessions: `InMemoryLoginSessionStore`. Every reading of the clock is a parameter, so any clock is allowed. */
module Sessions {
  import opened Prelude

  datatype Status = Pending | Completed | Expired

  datatype LoginSession = LoginSession(callerId: string, expiresAt: real, status: Status, channel: Option<string>)
  {
    predicate IsExpired(now: real) { now >= expiresAt }
  }

  datatype SessionError = EmptyCallerId | BadTtl | NotPending

  type Store = map<string, LoginSession>

  /** `create_session` */
  function Create(s: Store, callerId: string, ttl: real, channel: Option<string>, now: real)
    : (Store, Result<LoginSession, SessionError>)
  {
    if callerId == "" then (s, Failure(EmptyCallerId))
    else if ttl <= 0.0 then (s, Failure(BadTtl))
    else
      var session := LoginSession(callerId, now + ttl, Pending, channel);
      (s[callerId := session], Success(session))
  }

  /** The last line of a lookup or a completion: the session object it holds is written back with another status. */
  function WriteStatus(s: Store, callerId: string, held: LoginSession, status: Status): Store {
    s[callerId := held.(status := status)]
  }

  /** `get_pending_session`: a session found expired is marked so. */
  function GetPending(s: Store, callerId: string, now: real): (Store, Option<LoginSession>) {
    if callerId !in s || s[callerId].status != Pending then (s, None)
    else if s[callerId].IsExpired(now) then (WriteStatus(s, callerId, s[callerId], Expired), None)
    else (s, Some(s[callerId]))
  }

  /** `complete_session` */
  function Complete(s: Store, callerId: string, now: real): (Store, Result<LoginSession, SessionError>) {
    var (s1, session) := GetPending(s, callerId, now);
    if session.None? then (s1, Failure(NotPending))
    else
      (WriteStatus(s1, callerId, session.value, Completed), Success(session.value.(status := Completed)))
  }

  /** `remove_session` */
  function Remove(s: Store, callerId: string): Store { s - {callerId} }

  /**
   * What is done for one caller leaves the session of every other as it was, and after a removal there is no session to
   * be found or completed, at any reading, until one is created.
   */
  lemma CallersAreIndependent(s: Store, callerId: string, other: string, ttl: real, channel: Option<string>, now: real)
    requires other != callerId
    ensures SameAt(s, Create(s, callerId, ttl, channel, now).0, other)
    ensures SameAt(s, GetPending(s, callerId, now).0, other) && SameAt(s, Complete(s, callerId, now).0, other)
    ensures SameAt(s, Remove(s, callerId), other)
    ensures var removed := Remove(s, callerId);
            && GetPending(removed, callerId, now) == (removed, None)
            && Complete(removed, callerId, now) == (removed, Failure(NotPending))
  {
  }

  ghost predicate SameAt(s: Store, s': Store, k: string) {
    (k in s <==> k in s') && (k in s ==> s'[k] == s[k])
  }

  /** Each session is filed under its own caller. */
  ghost predicate StoreOk(s: Store) {
    forall k | k in s :: s[k].callerId == k && k != ""
  }

  /**
   * A created session can be looked up exactly at readings before its deadline. Once a reading has reached the
   * deadline, or the session was completed, it is never pending again, even if the clock goes back.
   */
  lemma SessionLivesUntilDeadline(s: Store, callerId: string, ttl: real, channel: Option<string>, now: real,
                                  reading: real, later: real)
    requires callerId != "" && ttl > 0.0
    ensures var created := Create(s, callerId, ttl, channel, now).0;
            var (seen, session) := GetPending(created, callerId, reading);
            && (session.Some? <==> reading < now + ttl)
            && (session.Some? ==> session.value == LoginSession(callerId, now + ttl, Pending, channel))
            && (session.None? ==> GetPending(seen, callerId, later) == (seen, None))
            && var (done, r) := Complete(created, callerId, reading);
               && (r.Success? <==> reading < now + ttl)
               && done[callerId].status == (if r.Success? then Completed else Expired)
               && GetPending(done, callerId, later) == (done, None)
  {
  }

  /**
   * The operations are atomic only as long as threads take turns. Between the read and the write of one operation
   * another can run as a whole: a completion then overwrites the expiry that a later lookup has marked, and a lookup
   * past the deadline, which holds the session as it was, overwrites a completion.
   */
  lemma OverlappingOperationsOverwrite(s: Store, callerId: string, now: real, later: real)
    requires callerId in s && s[callerId].status == Pending && now < s[callerId].expiresAt <= later
    ensures var held, marked := GetPending(s, callerId, now).1, GetPending(s, callerId, later).0;
            && held.Some? && marked[callerId].status == Expired
            && WriteStatus(marked, callerId, held.value, Completed)[callerId].status == Completed
    ensures var held, completed := s[callerId], Complete(s, callerId, now).0;
            && held.IsExpired(later) && completed[callerId].status == Completed
            && WriteStatus(completed, callerId, held, Expired)[callerId].status == Expired
  {
  }

  /**
   * Each operation, entry by entry. Creating refuses an empty caller id and a time to live that is not positive, and
   * otherwise files a pending session with its deadline and channel, whatever was there. A lookup returns a session
   * that is pending before its deadline and marks a pending one past it; completing does so first and then marks the
   * one found; and a marked session is otherwise the same. Removing forgets one caller.
   */
  lemma OperationsAreExact(s: Store, k: string, ttl: real, channel: Option<string>, now: real)
    ensures Create(s, k, ttl, channel, now)
         == (if k == "" then (s, Failure(EmptyCallerId)) else if ttl <= 0.0 then (s, Failure(BadTtl))
             else var created := LoginSession(k, now + ttl, Pending, channel); (s[k := created], Success(created)))
    ensures Remove(s, k).Keys == s.Keys - {k}
    ensures var pending := k in s && s[k].status == Pending;
            var (seen, found) := GetPending(s, k, now);
            var (after, done) := Complete(s, k, now);
            && found == (if pending && now < s[k].expiresAt then Some(s[k]) else None)
            && (found.Some? || !pending ==> seen == s)
            && (found.None? && pending ==>
                  seen == s[k := LoginSession(s[k].callerId, s[k].expiresAt, Expired, s[k].channel)])
            && (found.None? ==> after == seen && done == Failure(NotPending))
            && (found.Some? ==>
                  var completed := LoginSession(s[k].callerId, s[k].expiresAt, Completed, s[k].channel);
                  after == s[k := completed] && done == Success(completed))
  {
  }

  class InMemoryLoginSessionStore {
    var sessions: Store

    constructor ()
      ensures sessions == map[]
    {
      sessions := map[];
    }

    method CreateSession(callerId: string, ttl: real, channel: Option<string>, now: real)
      returns (r: Result<LoginSession, SessionError>)
      modifies this
      ensures (sessions, r) == Create(old(sessions), callerId, ttl, channel, now)
    {
      if callerId == "" {
        return Failure(EmptyCallerId);
      }
      if ttl <= 0.0 {
        return Failure(BadTtl);
      }
      var session := LoginSession(callerId, now + ttl, Pending, channel);
      sessions := sessions[callerId := session];
      return Success(session);
    }

    method GetPendingSession(callerId: string, now: real) returns (r: Option<LoginSession>)
      modifies this
      ensures (sessions, r) == GetPending(old(sessions), callerId, now)
    {
      if callerId !in sessions {
        return None;
      }
      var session := sessions[callerId];
      if session.status != Pending {
        return None;
      }
      if session.IsExpired(now) {
        sessions := sessions[callerId := session.(status := Expired)];
        return None;
      }
      return Some(session);
    }

    method CompleteSession(callerId: string, now: real) returns (r: Result<LoginSession, SessionError>)
      modifies this
      ensures (sessions, r) == Complete(old(sessions), callerId, now)
    {
      var session := GetPendingSession(callerId, now);
      if session.None? {
        return Failure(NotPending);
      }
      var completed := LoginSession(session.value.callerId, session.value.expiresAt, Completed, session.value.channel);
      sessions := sessions[callerId := completed];
      return Success(completed);
    }

    method RemoveSession(callerId: string)
      modifies this
      ensures sessions == Remove(old(sessions), callerId)
    {
      sessions := sessions - {callerId};
    }
  }
}
