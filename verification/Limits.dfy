// limits.go and session_registry.go as the objects they are. Accounting says
// what interleaved calls do; here each section and each retry loop is checked
// against the step it is in that account.
module Limits {
  import opened Accounting

  class ActiveSession {
    var user: string
    var activeStreams: int
    var cancelled: bool    // its context was cancelled
    var closed: bool       // its connection was closed

    constructor ()
      ensures user == "" && activeStreams == 0 && !cancelled && !closed
    {
      user, activeStreams, cancelled, closed := "", 0, false, false;
    }

    method Terminate()
      modifies this
      ensures cancelled && closed && user == old(user) && activeStreams == old(activeStreams)
    {
      cancelled := true;
      closed := true;
    }
  }

  class SessionRegistry {
    var sessions: map<ConnId, ActiveSession>

    constructor ()
      ensures Valid() && sessions == map[]
    {
      sessions := map[];
    }

    // No two connections share a session object.
    ghost predicate Valid()
      reads this
    {
      forall c, d :: c in sessions && d in sessions && c != d ==> sessions[c] != sessions[d]
    }

    ghost function Counts(): map<ConnId, int>
      reads this, sessions.Values
    {
      map c | c in sessions :: sessions[c].activeStreams
    }

    method RegisterSession(connectionID: ConnId)
      requires Valid()
      modifies this
      ensures Valid() && Counts() == old(Counts())[connectionID := 0]
      ensures connectionID in sessions && fresh(sessions[connectionID])
      ensures forall c :: c in old(sessions) && c != connectionID ==> c in sessions && sessions[c] == old(sessions[c])
    {
      var session := new ActiveSession();
      sessions := sessions[connectionID := session];
    }

    method UpdateSessionUser(connectionID: ConnId, user: string)
      requires Valid()
      modifies sessions.Values
      ensures Valid() && sessions == old(sessions) && Counts() == old(Counts())
      ensures forall c :: c in sessions ==> sessions[c].user == if c == connectionID then user else old(sessions[c].user)
    {
      if connectionID !in sessions {
        return;
      }
      sessions[connectionID].user := user;
    }

    method UnregisterSession(connectionID: ConnId)
      requires Valid()
      modifies this
      ensures Valid() && sessions == old(sessions) - {connectionID}
      ensures Counts() == old(Counts()) - {connectionID}
    {
      sessions := sessions - {connectionID};
    }

    method ActiveSessionCount() returns (n: nat)
      ensures n == |Counts()|
    {
      n := |sessions|;
      assert Counts().Keys == sessions.Keys;
    }

    method AcquireSessionStream(connectionID: ConnId, maxStreamsPerSession: int) returns (ok: bool)
      requires Valid()
      modifies sessions.Values
      ensures Valid() && sessions == old(sessions)
      ensures ok == SessionHasRoom(old(Counts()), maxStreamsPerSession, connectionID)
      ensures Counts() == Accounting.AcquireSessionStream(old(Counts()), maxStreamsPerSession, connectionID)
    {
      if connectionID !in sessions {
        return false;
      }
      var session := sessions[connectionID];
      if maxStreamsPerSession > 0 && session.activeStreams >= maxStreamsPerSession {
        return false;
      }
      session.activeStreams := session.activeStreams + 1;
      return true;
    }

    method ReleaseSessionStream(connectionID: ConnId)
      requires Valid()
      modifies sessions.Values
      ensures Valid() && sessions == old(sessions)
      ensures Counts() == Accounting.ReleaseSessionStream(old(Counts()), connectionID)
    {
      if connectionID in sessions && sessions[connectionID].activeStreams > 0 {
        sessions[connectionID].activeStreams := sessions[connectionID].activeStreams - 1;
      }
    }

    // Closes the sessions of a snapshot taken under the mutex, not those
    // registered afterwards.
    method CloseActiveSessions()
      requires Valid()
      modifies sessions.Values
      ensures Valid() && sessions == old(sessions) && Counts() == old(Counts())
      ensures forall c :: c in sessions ==> sessions[c].cancelled && sessions[c].closed
    {
      CloseAll(sessions);
    }
  }

  // The registry has no part in this loop: whatever others register and
  // unregister meanwhile, the sessions of the snapshot are the ones closed.
  method CloseAll(snapshots: map<ConnId, ActiveSession>)
    modifies snapshots.Values
    ensures forall c :: c in snapshots ==>
      var s := snapshots[c];
      s.cancelled && s.closed && s.user == old(s.user) && s.activeStreams == old(s.activeStreams)
  {
    var left := snapshots.Keys;
    while left != {}
      invariant left <= snapshots.Keys
      invariant forall c :: c in snapshots ==>
        snapshots[c].user == old(snapshots[c].user) && snapshots[c].activeStreams == old(snapshots[c].activeStreams)
      invariant forall c :: c in snapshots && c !in left ==> snapshots[c].cancelled && snapshots[c].closed
    {
      var c :| c in left;
      snapshots[c].Terminate();
      left := left - {c};
    }
  }

  // A counter that is only read and written atomically.
  class AtomicInt64 {
    var value: int

    constructor (v: int)
      ensures value == v
    {
      value := v;
    }

    method CompareAndSwap(expected: int, desired: int) returns (swapped: bool)
      modifies this
      ensures swapped == (old(value) == expected)
      ensures value == if swapped then desired else old(value)
    {
      swapped := value == expected;
      if swapped {
        value := desired;
      }
    }

    method Add(delta: int)
      modifies this
      ensures value == old(value) + delta
    {
      value := value + delta;
    }
  }

  // What the other goroutines have made of the counter by the time of one
  // round's load and by the time of its swap.
  datatype Round = Round(load: int, swap: int)

  // The retry loop of acquireCounter, which acquire repeats for lw.active.
  // Past the end of `others` nobody else moves the counter. seen is the value
  // at the decisive load, which is that of round `failures`.
  method AcquireCounter(counter: AtomicInt64, limit: int, others: seq<Round>)
    returns (ok: bool, ghost seen: int, ghost failures: nat)
    modifies counter
    ensures limit <= 0 ==> ok && counter.value == old(counter.value)
    ensures 0 < limit ==>
      && failures <= |others|
      && (forall k :: 0 <= k < failures ==> others[k].swap != others[k].load < limit)
      && seen == (if failures < |others| then others[failures].load
                  else if failures == 0 then old(counter.value) else others[failures - 1].swap)
      && (ok ==> seen < limit && counter.value == seen + 1 && (failures < |others| ==> others[failures].swap == seen))
      && (!ok ==> counter.value == seen >= limit)
  {
    seen, failures := counter.value, 0;
    if limit <= 0 {
      return true, seen, failures;
    }
    var k := 0;
    while true
      invariant k == failures <= |others|
      invariant counter.value == if k == 0 then old(counter.value) else others[k - 1].swap
      invariant forall i :: 0 <= i < k ==> others[i].swap != others[i].load < limit
      decreases |others| - k
    {
      if k < |others| {
        counter.value := others[k].load;
      }
      var current := counter.value;
      seen := current;
      if current >= limit {
        return false, seen, failures;
      }
      if k < |others| {
        counter.value := others[k].swap;
      }
      var swapped := counter.CompareAndSwap(current, current + 1);
      if swapped {
        return true, seen, failures;
      }
      k, failures := k + 1, failures + 1;
    }
  }

  // The stream accounts of one wrapper.
  class StreamLimits {
    const maxStreamsPerSession: int
    const maxConcurrentStreams: int
    const registry: SessionRegistry
    const activeStreams: AtomicInt64

    constructor (perSession: int, total: int)
      ensures registry.Valid() && registry.sessions == map[] && activeStreams.value == 0
      ensures maxStreamsPerSession == perSession && maxConcurrentStreams == total
    {
      maxStreamsPerSession, maxConcurrentStreams := perSession, total;
      registry := new SessionRegistry();
      activeStreams := new AtomicInt64(0);
    }

    // Both shares or neither: a refusal by the global counter gives the
    // session's share back.
    method AcquireStream(connectionID: ConnId) returns (ok: bool)
      requires registry.Valid()
      modifies registry.sessions.Values, activeStreams
      ensures registry.Valid() && registry.sessions == old(registry.sessions)
      ensures var counts := old(registry.Counts());
        && ok == (SessionHasRoom(counts, maxStreamsPerSession, connectionID) &&
                  (maxConcurrentStreams <= 0 || old(activeStreams.value) < maxConcurrentStreams))
        && (ok ==> registry.Counts() == counts[connectionID := counts[connectionID] + 1])
        && (!ok ==> RolledBack(counts, registry.Counts()))
      ensures activeStreams.value ==
        old(activeStreams.value) + if ok && 0 < maxConcurrentStreams then 1 else 0
    {
      var shared := registry.AcquireSessionStream(connectionID, maxStreamsPerSession);
      if !shared {
        return false;
      }
      var counted, _, _ := AcquireCounter(activeStreams, maxConcurrentStreams, []);
      if !counted {
        registry.ReleaseSessionStream(connectionID);
        return false;
      }
      return true;
    }

    ghost predicate RolledBack(before: map<ConnId, int>, now: map<ConnId, int>) {
      (forall c :: c in before ==> before[c] >= 0) ==> now == before
    }

    // The global share goes first, then the session's.
    method ReleaseStream(connectionID: ConnId)
      requires registry.Valid()
      modifies registry.sessions.Values, activeStreams
      ensures registry.Valid() && registry.sessions == old(registry.sessions)
      ensures registry.Counts() == Accounting.ReleaseSessionStream(old(registry.Counts()), connectionID)
      ensures activeStreams.value == old(activeStreams.value) - if 0 < maxConcurrentStreams then 1 else 0
    {
      if maxConcurrentStreams > 0 {
        activeStreams.Add(-1);
      }
      registry.ReleaseSessionStream(connectionID);
    }
  }
}
