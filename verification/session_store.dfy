/** The in-memory session store of the cookie-based iteration: a slice of
    sessions and a counter that names the next session. */
module NativeSessionStore {
  import opened Users
  import opened Domain
  import opened Slices
  import opened Strconv

  /** Ten minutes, in seconds. */
  const SessionLifetime: int := 600

  function SessionId(s: Session): string { s.id }
  function IdNumber(s: Session): int { DecimalValue(s.id) }

  const SessionNotFound: Error := Error("", Some(ENOTFOUND), "session does not exist", None)

  /** The position of the first session named `sessionId`; -1 together with
      ENOTFOUND exactly when there is none. */
  method Find(sessions: seq<Session>, sessionId: string) returns (pos: int, err: Option<Error>)
    ensures pos == FirstIndex(sessions, SessionId, sessionId)
    ensures pos == -1 <==> forall j :: 0 <= j < |sessions| ==> sessions[j].id != sessionId
    ensures err == if pos == -1 then Some(SessionNotFound) else None
  {
    var i := 0;
    while i < |sessions|
      invariant 0 <= i <= |sessions|
      invariant forall j :: 0 <= j < i ==> SessionId(sessions[j]) != sessionId
    {
      if sessions[i].id == sessionId {
        return i, None;
      }
      i := i + 1;
    }
    return -1, Some(SessionNotFound);
  }

  class SessionStore {
    var sessions: seq<Session>
    var id: nat

    /** Every stored session was named from a counter value below `id`, and
        names grow along the slice, so no two sessions share a name. */
    ghost predicate Valid()
      reads this
    {
      && (forall i :: 0 <= i < |sessions| ==> 0 <= IdNumber(sessions[i]) < id)
      && IncreasingBy(sessions, IdNumber)
    }

    constructor ()
      ensures Valid() && sessions == [] && id == 0
    {
      sessions := [];
      id := 0;
    }

    /** Names the session after the current counter, then bumps it, and
        appends the session, which expires ten minutes after `now`. */
    method Create(userId: string, now: int) returns (session: Session)
      requires Valid()
      modifies this
      ensures Valid()
      ensures session == Session(Itoa(old(id)), userId, now + SessionLifetime)
      ensures id == old(id) + 1
      ensures sessions == old(sessions) + [session]
      ensures FirstIndex(old(sessions), SessionId, session.id) == -1
    {
      session := Session(Itoa(id), userId, now + SessionLifetime);
      DecimalValueOfItoa(id);
      FreshNameUnused(sessions, id, id);
      id := id + 1;
      sessions := sessions + [session];
    }

    /** The session named `sessionId`, or an error wrapping ENOTFOUND. */
    method Get(sessionId: string) returns (r: Result<Session>)
      ensures var i := FirstIndex(sessions, SessionId, sessionId);
        if i == -1 then r == Err(Wrap("SessionStore.Get", SessionNotFound)) else r == Ok(sessions[i])
      ensures r.Err? ==> CodeOf(r.error) == ENOTFOUND
    {
      var pos, err := Find(sessions, sessionId);
      if err.Some? {
        WrapKeepsCode("SessionStore.Get", err.value);
        return Err(Wrap("SessionStore.Get", err.value));
      }
      return Ok(sessions[pos]);
    }

    /** Removes the session named `sessionId`, keeping the others in order;
        afterwards no stored session has that name. For an unknown name it
        fails and leaves the slice as it was. */
    method Delete(sessionId: string) returns (err: Option<Error>)
      requires Valid()
      modifies this
      ensures Valid() && id == old(id)
      ensures var i := FirstIndex(old(sessions), SessionId, sessionId);
        if i == -1 then err == Some(Wrap("SessionStore.Delete", SessionNotFound)) && sessions == old(sessions)
        else err == None && sessions == RemoveAt(old(sessions), i)
      ensures FirstIndex(sessions, SessionId, sessionId) == -1
    {
      var pos, e := Find(sessions, sessionId);
      if e.Some? {
        return Some(Wrap("SessionStore.Delete", e.value));
      }
      NamesDistinct(sessions);
      NoReplay(sessions, SessionId, sessionId);
      RemoveAtKeepsIncreasing(sessions, IdNumber, pos);
      sessions := RemoveAt(sessions, pos);
      return None;
    }
  }

  /** Sessions ordered by their counter values have pairwise distinct names. */
  lemma NamesDistinct(sessions: seq<Session>)
    requires IncreasingBy(sessions, IdNumber)
    ensures DistinctKeys(sessions, SessionId)
  {
    forall i, j | 0 <= i < j < |sessions| ensures SessionId(sessions[i]) != SessionId(sessions[j]) {
      assert IdNumber(sessions[i]) < IdNumber(sessions[j]);
    }
  }

  /** A counter name the store has not reached is not stored: a session name
      handed out later never collides with a live one. */
  lemma FreshNameUnused(sessions: seq<Session>, counter: nat, n: nat)
    requires forall i :: 0 <= i < |sessions| ==> IdNumber(sessions[i]) < counter
    requires counter <= n
    ensures FirstIndex(sessions, SessionId, Itoa(n)) == -1
  {
    DecimalValueOfItoa(n);
    forall i | 0 <= i < |sessions| ensures SessionId(sessions[i]) != Itoa(n) {
      assert IdNumber(sessions[i]) < n;
    }
  }
}
