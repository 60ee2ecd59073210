/** Login sessions: a table from session id to (user, expiry) changed in
    place by create, by look-up (which deletes a session found expired),
    by logout and by the bulk clean-up. Generated session ids are inputs, the
    clock is a parameter, and the users table is the set of user ids the
    look-up joins against. */
module Session {
  import opened Common

  type SessionId = string

  /** A session lives for thirty days. */
  const SessionExpiry: int := 30 * MicrosPerDay

  datatype SessionRow = SessionRow(userId: int, expiresAt: Timestamp)

  /** Whether a session is past its expiry at now; one expiring exactly now
      is still live. */
  predicate IsExpired(s: SessionRow, now: Timestamp)
  {
    s.expiresAt < now
  }

  /** get_user_from_session: None for the empty id, or for an id with no
      session whose user exists (the look-up joins the users table); an
      expired session is deleted and gives None; a live one gives its user
      and stays. The result is the user and the new table. */
  function Lookup(sessions: map<SessionId, SessionRow>, users: set<int>, sid: SessionId, now: Timestamp)
    : (r: (Option<int>, map<SessionId, SessionRow>))
    ensures r.0.Some? <==> sid != "" && sid in sessions && sessions[sid].userId in users && !IsExpired(sessions[sid], now)
    ensures r.0.Some? ==> r.0.value == sessions[sid].userId
    ensures r.1 == if sid != "" && sid in sessions && sessions[sid].userId in users && IsExpired(sessions[sid], now)
                   then sessions - {sid} else sessions
  {
    if sid == "" || sid !in sessions || sessions[sid].userId !in users then (None, sessions)
    else if IsExpired(sessions[sid], now) then (None, sessions - {sid})
    else (Some(sessions[sid].userId), sessions)
  }

  /** A session just created for an existing user yields that user for
      thirty days and not after; the look-ups in between leave it in place. */
  lemma CreateThenLookup(sessions: map<SessionId, SessionRow>, users: set<int>, user: int, sid: SessionId,
                         created: Timestamp, now: Timestamp)
    requires sid != "" && user in users
    ensures Lookup(sessions[sid := SessionRow(user, created + SessionExpiry)], users, sid, now).0 ==
      (if now <= created + SessionExpiry then Some(user) else None)
    ensures now <= created + SessionExpiry ==>
      Lookup(sessions[sid := SessionRow(user, created + SessionExpiry)], users, sid, now).1 == sessions[sid := SessionRow(user, created + SessionExpiry)]
  {
  }

  /** A look-up never adds a session, changes no session, and leaves a
      session it found live in place, so repeating it gives the same user. */
  lemma LookupRepeat(sessions: map<SessionId, SessionRow>, users: set<int>, sid: SessionId, now: Timestamp)
    ensures Lookup(sessions, users, sid, now).1.Keys <= sessions.Keys
    ensures Lookup(Lookup(sessions, users, sid, now).1, users, sid, now).0 == Lookup(sessions, users, sid, now).0
  {
  }

  function ExpiredSessions(sessions: map<SessionId, SessionRow>, now: Timestamp): set<SessionId>
  {
    set s | s in sessions && IsExpired(sessions[s], now)
  }

  /** The table after cleanup_expired_sessions. */
  function WithoutExpired(sessions: map<SessionId, SessionRow>, now: Timestamp): (r: map<SessionId, SessionRow>)
    ensures r.Keys == sessions.Keys - ExpiredSessions(sessions, now)
    ensures forall s :: s in r ==> r[s] == sessions[s] && !IsExpired(r[s], now)
  {
    map s | s in sessions && !IsExpired(sessions[s], now) :: sessions[s]
  }

  /** The clean-up's count is the number of rows it removed, and no
      expired session is left behind. */
  lemma CleanupCount(sessions: map<SessionId, SessionRow>, now: Timestamp)
    ensures |ExpiredSessions(sessions, now)| == |sessions.Keys| - |WithoutExpired(sessions, now).Keys|
    ensures ExpiredSessions(WithoutExpired(sessions, now), now) == {}
  {
    assert sessions.Keys == WithoutExpired(sessions, now).Keys + ExpiredSessions(sessions, now);
  }

  class SessionStore {
    var sessions: map<SessionId, SessionRow>

    constructor ()
      ensures sessions == map[]
    {
      sessions := map[];
    }

    /** create_session with the generated id `sid` at time now. An id
        already in use breaks the table's uniqueness: the insert is rolled
        back and the error surfaces as 500. */
    method Create(user: int, sid: SessionId, now: Timestamp) returns (r: Result<SessionId>)
      modifies this
      ensures r.Failure? <==> sid in old(sessions)
      ensures r.Failure? ==> r.status == 500 && sessions == old(sessions)
      ensures r.Ok? ==> r.value == sid && sessions == old(sessions)[sid := SessionRow(user, now + SessionExpiry)]
    {
      if sid in sessions {
        return Failure(500);
      }
      sessions := sessions[sid := SessionRow(user, now + SessionExpiry)];
      return Ok(sid);
    }

    /** get_user_from_session at time now. */
    method GetUser(sid: SessionId, users: set<int>, now: Timestamp) returns (user: Option<int>)
      modifies this
      ensures (user, sessions) == Lookup(old(sessions), users, sid, now)
    {
      if sid == "" || sid !in sessions || sessions[sid].userId !in users {
        return None;
      }
      if sessions[sid].expiresAt < now {
        sessions := sessions - {sid};
        return None;
      }
      return Some(sessions[sid].userId);
    }

    /** delete_session: removes that session, if present, and nothing else. */
    method Delete(sid: SessionId)
      modifies this
      ensures sessions == old(sessions) - {sid}
    {
      sessions := sessions - {sid};
    }

    /** cleanup_expired_sessions at time now: removes the expired sessions
        and returns how many there were. */
    method Cleanup(now: Timestamp) returns (deleted: nat)
      modifies this
      ensures sessions == WithoutExpired(old(sessions), now)
      ensures deleted == |ExpiredSessions(old(sessions), now)|
    {
      deleted := |ExpiredSessions(sessions, now)|;
      sessions := WithoutExpired(sessions, now);
    }
  }
}
