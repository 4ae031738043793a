// limits.go and session_registry.go under concurrency. Every atomic step of
// every goroutine (a load, a compare-and-swap, an add, one section under the
// registry mutex) is one event; the goroutines of any number of sessions and
// streams interleave freely.
module Accounting {
  import opened Wrappers

  type ConnId = nat
  type StreamId = nat

  // A limit that is not positive turns that account off.
  datatype Limits = Limits(concurrent: int, streams: int, streamsPerSession: int)

  // Where a connection recognised as AnyTLS stands: in the retry loop of
  // acquire, refused, or serving until it gives its slot back.
  datatype SessionPc =
    | Acquiring
    | Loaded(current: int, at: nat)
    | Refused
    | Slotted          // acquire returned true, serveAnyTLS not yet registered
    | Registered
    | Unregistered     // out of the registry, slot still held
    | Released

  // Where a stream stands between acquireStream and the end of releaseStream.
  datatype StreamPc =
    | Opening
    | SessionHeld      // acquireSessionStream returned true
    | CounterLoaded(current: int, at: nat)
    | RollingBack      // acquireCounter returned false
    | Denied
    | Open             // acquireStream returned true
    | CounterFreed     // releaseStream has done its AddInt64
    | Closed

  datatype Stream = Stream(conn: ConnId, pc: StreamPc)

  // activeWrites and streamWrites count the changes of the two counters; the
  // program does not keep them.
  datatype State = State(
    connSeq: nat,
    active: int, activeWrites: nat,
    activeStreams: int, streamWrites: nat,
    registry: map<ConnId, int>,
    sessions: map<ConnId, SessionPc>,
    streams: map<StreamId, Stream>
  )

  datatype Event =
    | Accept                       // nextConnectionID, then acquire begins
    | LoadActive(c: ConnId)
    | SwapActive(c: ConnId)
    | Register(c: ConnId)
    | Unregister(c: ConnId)
    | ReleaseActive(c: ConnId)
    | OpenStream(t: StreamId, c: ConnId)
    | AcquireSession(t: StreamId)
    | LoadStreams(t: StreamId)
    | SwapStreams(t: StreamId)
    | RollBack(t: StreamId)
    | FreeCounter(t: StreamId)
    | FreeSession(t: StreamId)

  // ---- The sections under the registry mutex ----

  predicate SessionHasRoom(registry: map<ConnId, int>, limit: int, c: ConnId) {
    c in registry && (limit <= 0 || registry[c] < limit)
  }

  function AcquireSessionStream(registry: map<ConnId, int>, limit: int, c: ConnId): map<ConnId, int> {
    if SessionHasRoom(registry, limit, c) then registry[c := registry[c] + 1] else registry
  }

  function ReleaseSessionStream(registry: map<ConnId, int>, c: ConnId): map<ConnId, int> {
    if c in registry && registry[c] > 0 then registry[c := registry[c] - 1] else registry
  }

  // ---- Steps ----

  predicate Enabled(s: State, e: Event) {
    match e
    case Accept => true
    case LoadActive(c) => c in s.sessions && s.sessions[c].Acquiring?
    case SwapActive(c) => c in s.sessions && s.sessions[c].Loaded?
    case Register(c) => c in s.sessions && s.sessions[c].Slotted?
    case Unregister(c) => c in s.sessions && s.sessions[c].Registered?
    case ReleaseActive(c) => c in s.sessions && s.sessions[c].Unregistered?
    case OpenStream(t, c) => t !in s.streams
    case AcquireSession(t) => t in s.streams && s.streams[t].pc.Opening?
    case LoadStreams(t) => t in s.streams && s.streams[t].pc.SessionHeld?
    case SwapStreams(t) => t in s.streams && s.streams[t].pc.CounterLoaded?
    case RollBack(t) => t in s.streams && s.streams[t].pc.RollingBack?
    case FreeCounter(t) => t in s.streams && s.streams[t].pc.Open?
    case FreeSession(t) => t in s.streams && s.streams[t].pc.CounterFreed?
  }

  function SessionAt(s: State, c: ConnId, pc: SessionPc): State {
    s.(sessions := s.sessions[c := pc])
  }

  function StreamAt(s: State, t: StreamId, pc: StreamPc): State
    requires t in s.streams
  {
    s.(streams := s.streams[t := s.streams[t].(pc := pc)])
  }

  function Apply(lim: Limits, s: State, e: Event): State
    requires Enabled(s, e)
  {
    match e
    case Accept =>
      SessionAt(s, s.connSeq + 1, Acquiring).(connSeq := s.connSeq + 1)
    case LoadActive(c) =>
      if lim.concurrent <= 0 then SessionAt(s, c, Slotted)
      else if s.active >= lim.concurrent then SessionAt(s, c, Refused)
      else SessionAt(s, c, Loaded(s.active, s.activeWrites))
    case SwapActive(c) =>
      if s.active == s.sessions[c].current
      then SessionAt(s, c, Slotted).(active := s.active + 1, activeWrites := s.activeWrites + 1)
      else SessionAt(s, c, Acquiring)
    case Register(c) =>
      SessionAt(s, c, Registered).(registry := s.registry[c := 0])
    case Unregister(c) =>
      SessionAt(s, c, Unregistered).(registry := s.registry - {c})
    case ReleaseActive(c) =>
      var s := SessionAt(s, c, Released);
      if lim.concurrent <= 0 then s
      else s.(active := s.active - 1, activeWrites := s.activeWrites + 1)
    case OpenStream(t, c) =>
      s.(streams := s.streams[t := Stream(c, Opening)])
    case AcquireSession(t) =>
      var c := s.streams[t].conn;
      StreamAt(s, t, if SessionHasRoom(s.registry, lim.streamsPerSession, c) then SessionHeld else Denied)
        .(registry := AcquireSessionStream(s.registry, lim.streamsPerSession, c))
    case LoadStreams(t) =>
      if lim.streams <= 0 then StreamAt(s, t, Open)
      else if s.activeStreams >= lim.streams then StreamAt(s, t, RollingBack)
      else StreamAt(s, t, CounterLoaded(s.activeStreams, s.streamWrites))
    case SwapStreams(t) =>
      if s.activeStreams == s.streams[t].pc.current
      then StreamAt(s, t, Open).(activeStreams := s.activeStreams + 1, streamWrites := s.streamWrites + 1)
      else StreamAt(s, t, SessionHeld)
    case RollBack(t) =>
      StreamAt(s, t, Denied).(registry := ReleaseSessionStream(s.registry, s.streams[t].conn))
    case FreeCounter(t) =>
      var s := StreamAt(s, t, CounterFreed);
      if lim.streams <= 0 then s
      else s.(activeStreams := s.activeStreams - 1, streamWrites := s.streamWrites + 1)
    case FreeSession(t) =>
      StreamAt(s, t, Closed).(registry := ReleaseSessionStream(s.registry, s.streams[t].conn))
  }

  const Initial := State(0, 0, 0, 0, 0, map[], map[], map[])

  // A run is a chain of steps each of which is enabled where it occurs.
  datatype Run = Begin | Then(past: Run, event: Event) {
    predicate Legal(lim: Limits)
      decreases this, 0
    {
      Begin? || (past.Legal(lim) && Enabled(past.After(lim), event))
    }

    function After(lim: Limits): State
      requires Legal(lim)
      decreases this, 1
    {
      if Begin? then Initial else Apply(lim, past.After(lim), event)
    }
  }

  // ---- Who holds what ----

  predicate HasSlot(pc: SessionPc) { pc.Slotted? || pc.Registered? || pc.Unregistered? }

  predicate HasSessionShare(pc: StreamPc) {
    pc.SessionHeld? || pc.CounterLoaded? || pc.RollingBack? || pc.Open? || pc.CounterFreed?
  }

  ghost function SlotHolders(sessions: map<ConnId, SessionPc>): set<ConnId> {
    set c | c in sessions && HasSlot(sessions[c])
  }

  ghost function SessionHolders(streams: map<StreamId, Stream>, c: ConnId): set<StreamId> {
    set t | t in streams && streams[t].conn == c && HasSessionShare(streams[t].pc)
  }

  ghost function GlobalHolders(streams: map<StreamId, Stream>): set<StreamId> {
    set t | t in streams && streams[t].pc.Open?
  }

  ghost predicate CounterInv(limit: int, counter: int, holders: int) {
    if limit <= 0 then counter == 0 else counter == holders <= limit
  }

  // A value read earlier is below the limit, and is still the value if nobody
  // wrote in between.
  predicate Fresh(limit: int, counter: int, writes: nat, current: int, at: nat) {
    0 < limit && current < limit && at <= writes && (at == writes ==> current == counter)
  }

  ghost predicate SessionsInv(lim: Limits, s: State) {
    && CounterInv(lim.concurrent, s.active, |SlotHolders(s.sessions)|)
    && (forall c :: c in s.sessions ==> 1 <= c <= s.connSeq)
    && (forall c :: c in s.registry <==> c in s.sessions && s.sessions[c].Registered?)
    && (forall c :: c in s.sessions && s.sessions[c].Loaded? ==>
          Fresh(lim.concurrent, s.active, s.activeWrites, s.sessions[c].current, s.sessions[c].at))
  }

  // A stream has a share only of a session that got as far as the registry.
  predicate WasRegistered(s: State, c: ConnId) {
    c in s.sessions && (s.sessions[c].Registered? || s.sessions[c].Unregistered? || s.sessions[c].Released?)
  }

  ghost predicate StreamsInv(lim: Limits, s: State) {
    && CounterInv(lim.streams, s.activeStreams, |GlobalHolders(s.streams)|)
    && (forall t :: t in s.streams && HasSessionShare(s.streams[t].pc) ==> WasRegistered(s, s.streams[t].conn))
    && (forall t :: t in s.streams && s.streams[t].pc.CounterLoaded? ==>
          Fresh(lim.streams, s.activeStreams, s.streamWrites, s.streams[t].pc.current, s.streams[t].pc.at))
  }

  ghost predicate RegistryInv(lim: Limits, s: State) {
    && (forall c :: c in s.registry ==> s.registry[c] == |SessionHolders(s.streams, c)|)
    && (forall c :: c in s.registry && 0 < lim.streamsPerSession ==> s.registry[c] <= lim.streamsPerSession)
  }

  ghost predicate Inv(lim: Limits, s: State) {
    SessionsInv(lim, s) && StreamsInv(lim, s) && RegistryInv(lim, s)
  }

  // ---- One step moves one goroutine, so each set of holders changes by at most one ----

  lemma SessionMoves(sessions: map<ConnId, SessionPc>, c: ConnId, pc: SessionPc)
    ensures |SlotHolders(sessions[c := pc])| ==
      |SlotHolders(sessions)| + One(HasSlot(pc)) - One(c in sessions && HasSlot(sessions[c]))
  {
    var h, h' := SlotHolders(sessions), SlotHolders(sessions[c := pc]);
    assert h' == if HasSlot(pc) then h + {c} else h - {c};
  }

  lemma GlobalMoves(streams: map<StreamId, Stream>, t: StreamId, to: Stream)
    ensures |GlobalHolders(streams[t := to])| ==
      |GlobalHolders(streams)| + One(to.pc.Open?) - One(t in streams && streams[t].pc.Open?)
  {
    var h, h' := GlobalHolders(streams), GlobalHolders(streams[t := to]);
    assert h' == if to.pc.Open? then h + {t} else h - {t};
  }

  predicate Shares(stream: Stream, c: ConnId) { stream.conn == c && HasSessionShare(stream.pc) }

  lemma ShareMoves(streams: map<StreamId, Stream>, t: StreamId, to: Stream, c: ConnId)
    ensures |SessionHolders(streams[t := to], c)| ==
      |SessionHolders(streams, c)| + One(Shares(to, c)) - One(t in streams && Shares(streams[t], c))
  {
    var h, h' := SessionHolders(streams, c), SessionHolders(streams[t := to], c);
    assert h' == if Shares(to, c) then h + {t} else h - {t};
  }

  lemma NoShareBeforeRegistration(lim: Limits, s: State, c: ConnId)
    requires StreamsInv(lim, s) && !WasRegistered(s, c)
    ensures |SessionHolders(s.streams, c)| == 0
  {
    assert SessionHolders(s.streams, c) == {};
  }

  // ---- Every step keeps the accounts ----

  predicate MovesSession(e: Event) {
    e.Accept? || e.LoadActive? || e.SwapActive? || e.ReleaseActive? || e.Register? || e.Unregister?
  }

  lemma AcquiringKept(lim: Limits, s: State, e: Event)
    requires SessionsInv(lim, s) && Enabled(s, e) && (e.Accept? || e.LoadActive?)
    ensures SessionsInv(lim, Apply(lim, s, e))
  {
    var c := if e.Accept? then s.connSeq + 1 else e.c;
    SessionMoves(s.sessions, c, Apply(lim, s, e).sessions[c]);
  }

  lemma SwapKept(lim: Limits, s: State, c: ConnId)
    requires SessionsInv(lim, s) && Enabled(s, SwapActive(c))
    ensures SessionsInv(lim, Apply(lim, s, SwapActive(c)))
  {
    SessionMoves(s.sessions, c, Slotted);
    SessionMoves(s.sessions, c, Acquiring);
  }

  lemma ServingKept(lim: Limits, s: State, e: Event)
    requires SessionsInv(lim, s) && Enabled(s, e) && (e.Register? || e.Unregister?)
    ensures SessionsInv(lim, Apply(lim, s, e))
  {
    SessionMoves(s.sessions, e.c, Apply(lim, s, e).sessions[e.c]);
  }

  lemma ReleaseKept(lim: Limits, s: State, c: ConnId)
    requires SessionsInv(lim, s) && Enabled(s, ReleaseActive(c))
    ensures SessionsInv(lim, Apply(lim, s, ReleaseActive(c)))
  {
    SessionMoves(s.sessions, c, Released);
    assert c in SlotHolders(s.sessions);
  }

  lemma SessionsKept(lim: Limits, s: State, e: Event)
    requires SessionsInv(lim, s) && Enabled(s, e)
    ensures SessionsInv(lim, Apply(lim, s, e))
  {
    match e {
      case Accept => AcquiringKept(lim, s, e);
      case LoadActive(_) => AcquiringKept(lim, s, e);
      case SwapActive(c) => SwapKept(lim, s, c);
      case Register(_) => ServingKept(lim, s, e);
      case Unregister(_) => ServingKept(lim, s, e);
      case ReleaseActive(c) => ReleaseKept(lim, s, c);
      case _ => StreamStep(lim, s, e);
    }
  }

  lemma RegistrationIsHistory(lim: Limits, s: State, e: Event, c: ConnId)
    requires SessionsInv(lim, s) && Enabled(s, e) && WasRegistered(s, c)
    ensures WasRegistered(Apply(lim, s, e), c)
  {
  }

  lemma StreamStep(lim: Limits, s: State, e: Event)
    requires Enabled(s, e) && !MovesSession(e)
    ensures var s' := Apply(lim, s, e);
      && s'.streams == s.streams[e.t := s'.streams[e.t]]
      && s'.sessions == s.sessions && s'.connSeq == s.connSeq
      && s'.active == s.active && s'.activeWrites == s.activeWrites
      && s'.registry.Keys == s.registry.Keys
  {
  }

  lemma StreamsKept(lim: Limits, s: State, e: Event)
    requires SessionsInv(lim, s) && StreamsInv(lim, s) && Enabled(s, e)
    ensures StreamsInv(lim, Apply(lim, s, e))
  {
    var s' := Apply(lim, s, e);
    if MovesSession(e) {
      forall t | t in s.streams && HasSessionShare(s.streams[t].pc)
        ensures WasRegistered(s', s.streams[t].conn)
      {
        RegistrationIsHistory(lim, s, e, s.streams[t].conn);
      }
    } else {
      StreamStep(lim, s, e);
      var before, now := if e.OpenStream? then Stream(e.c, Opening) else s.streams[e.t], s'.streams[e.t];
      GlobalMoves(s.streams, e.t, now);
      assert now.conn == before.conn;
      assert HasSessionShare(now.pc) ==> WasRegistered(s, now.conn);
    }
  }

  lemma RegistryKept(lim: Limits, s: State, e: Event)
    requires Inv(lim, s) && Enabled(s, e)
    ensures RegistryInv(lim, Apply(lim, s, e))
  {
    if e.Register? {
      NoShareBeforeRegistration(lim, s, e.c);
    } else if !MovesSession(e) {
      StreamStep(lim, s, e);
      forall c | c in s.registry
        ensures var s' := Apply(lim, s, e);
          s'.registry[c] == |SessionHolders(s'.streams, c)| &&
          (0 < lim.streamsPerSession ==> s'.registry[c] <= lim.streamsPerSession)
      {
        EntryKept(lim, s, e, c);
      }
    }
  }

  lemma EntryKept(lim: Limits, s: State, e: Event, c: ConnId)
    requires RegistryInv(lim, s) && Enabled(s, e) && !MovesSession(e) && c in s.registry
    ensures var s' := Apply(lim, s, e);
      && c in s'.registry && s'.registry[c] == |SessionHolders(s'.streams, c)|
      && (0 < lim.streamsPerSession ==> s'.registry[c] <= lim.streamsPerSession)
  {
    StreamStep(lim, s, e);
    ShareMoves(s.streams, e.t, Apply(lim, s, e).streams[e.t], c);
    ReleaseIsNeverSuppressed(lim, s, e.t);
  }

  // The registry counts a stream that has a share for as long as its session
  // is registered, so the guard of releaseSessionStream sees a positive count.
  lemma ReleaseIsNeverSuppressed(lim: Limits, s: State, t: StreamId)
    requires RegistryInv(lim, s)
    ensures t in s.streams && HasSessionShare(s.streams[t].pc) && s.streams[t].conn in s.registry ==>
      s.registry[s.streams[t].conn] > 0
  {
    if t in s.streams && HasSessionShare(s.streams[t].pc) {
      assert t in SessionHolders(s.streams, s.streams[t].conn);
    }
  }

  lemma ApplyInv(lim: Limits, s: State, e: Event)
    requires Inv(lim, s) && Enabled(s, e)
    ensures Inv(lim, Apply(lim, s, e))
  {
    SessionsKept(lim, s, e);
    StreamsKept(lim, s, e);
    RegistryKept(lim, s, e);
  }

  lemma {:induction false} RunInv(lim: Limits, run: Run)
    requires run.Legal(lim)
    ensures Inv(lim, run.After(lim))
  {
    if run.Begin? {
      assert SlotHolders(map[]) == {} && GlobalHolders(map[]) == {};
    } else {
      RunInv(lim, run.past);
      ApplyInv(lim, run.past.After(lim), run.event);
    }
  }

  // ---- What holds in every interleaving ----

  lemma AccountsBalance(lim: Limits, run: Run)
    requires run.Legal(lim)
    ensures var s := run.After(lim);
      && (0 < lim.concurrent ==> |s.registry| <= s.active == |SlotHolders(s.sessions)| <= lim.concurrent)
      && (0 < lim.streams ==> s.activeStreams == |GlobalHolders(s.streams)| <= lim.streams)
      && (forall c :: c in s.registry ==> s.registry[c] == |SessionHolders(s.streams, c)|)
      && (forall c :: c in s.registry && 0 < lim.streamsPerSession ==> s.registry[c] <= lim.streamsPerSession)
      && (forall t :: t in GlobalHolders(s.streams) ==> t in SessionHolders(s.streams, s.streams[t].conn))
  {
    RunInv(lim, run);
    var s := run.After(lim);
    assert s.registry.Keys <= SlotHolders(s.sessions);
    SubsetSize(s.registry.Keys, SlotHolders(s.sessions));
  }

  lemma SubsetSize<T>(a: set<T>, b: set<T>)
    requires a <= b
    ensures |a| <= |b|
  {
    assert b == a + (b - a);
  }

  // When every goroutine has come to its end, whatever its end was, all three
  // accounts are back at zero.
  lemma NothingLeaks(lim: Limits, run: Run)
    requires run.Legal(lim) && AllEnded(run.After(lim))
    ensures var s := run.After(lim); s.active == 0 && s.activeStreams == 0 && s.registry == map[]
  {
    RunInv(lim, run);
    var s := run.After(lim);
    assert SlotHolders(s.sessions) == {};
    assert GlobalHolders(s.streams) == {};
    assert forall c :: c !in s.registry;
  }

  predicate SessionEnded(pc: SessionPc) { pc.Refused? || pc.Released? }

  predicate StreamEnded(pc: StreamPc) { pc.Denied? || pc.Closed? }

  ghost predicate AllEnded(s: State) {
    && (forall c :: c in s.sessions ==> SessionEnded(s.sessions[c]))
    && (forall t :: t in s.streams ==> StreamEnded(s.streams[t].pc))
  }

  // What became of a session or a stream, read off the run.
  predicate WasServed(lim: Limits, run: Run, c: ConnId)
    requires run.Legal(lim)
  {
    run.Then? && (run.event == Register(c) || WasServed(lim, run.past, c))
  }

  predicate WasOpen(lim: Limits, run: Run, t: StreamId)
    requires run.Legal(lim)
  {
    run.Then? && ((t in run.After(lim).streams && run.After(lim).streams[t].pc.Open?) || WasOpen(lim, run.past, t))
  }

  // A refused session was never served and a denied stream never open; those
  // that came to their ordinary end were.
  lemma {:induction false} ServedSessionsTell(lim: Limits, run: Run, c: ConnId)
    requires run.Legal(lim)
    ensures WasRegistered(run.After(lim), c) <==> WasServed(lim, run, c)
  {
    if run.Then? {
      ServedSessionsTell(lim, run.past, c);
      RunInv(lim, run.past);
      ServiceKept(lim, run.past.After(lim), run.event, c);
    }
  }

  lemma ServiceKept(lim: Limits, s: State, e: Event, c: ConnId)
    requires SessionsInv(lim, s) && Enabled(s, e)
    ensures WasRegistered(Apply(lim, s, e), c) <==> WasRegistered(s, c) || e == Register(c)
  {
    if !MovesSession(e) { StreamStep(lim, s, e); }
  }

  predicate OpenOrAfter(s: State, t: StreamId) {
    t in s.streams && (s.streams[t].pc.Open? || s.streams[t].pc.CounterFreed? || s.streams[t].pc.Closed?)
  }

  lemma {:induction false} OpenStreamsTell(lim: Limits, run: Run, t: StreamId)
    requires run.Legal(lim)
    ensures OpenOrAfter(run.After(lim), t) <==> WasOpen(lim, run, t)
  {
    if run.Then? {
      OpenStreamsTell(lim, run.past, t);
      OpeningKept(lim, run.past.After(lim), run.event, t);
    }
  }

  lemma OpeningKept(lim: Limits, s: State, e: Event, t: StreamId)
    requires Enabled(s, e)
    ensures var s' := Apply(lim, s, e);
      OpenOrAfter(s', t) <==> OpenOrAfter(s, t) || (t in s'.streams && s'.streams[t].pc.Open?)
  {
    if !MovesSession(e) { StreamStep(lim, s, e); }
  }

  // A goroutine that is not at its end always has its next step.
  lemma NobodyIsStuck(s: State)
    ensures forall c :: c in s.sessions && !SessionEnded(s.sessions[c]) ==>
      exists e :: Enabled(s, e) && MovesSession(e) && !e.Accept? && e.c == c
    ensures forall t :: t in s.streams && !StreamEnded(s.streams[t].pc) ==>
      exists e :: Enabled(s, e) && !MovesSession(e) && e.t == t
    ensures Enabled(s, Accept) && forall t, c :: t !in s.streams ==> Enabled(s, OpenStream(t, c))
  {
    forall c | c in s.sessions && !SessionEnded(s.sessions[c])
      ensures exists e :: Enabled(s, e) && MovesSession(e) && !e.Accept? && e.c == c
    {
      var pc := s.sessions[c];
      var e := if pc.Acquiring? then LoadActive(c) else if pc.Loaded? then SwapActive(c)
               else if pc.Slotted? then Register(c) else if pc.Registered? then Unregister(c) else ReleaseActive(c);
      assert Enabled(s, e) && MovesSession(e) && !e.Accept? && e.c == c;
    }
    forall t | t in s.streams && !StreamEnded(s.streams[t].pc)
      ensures exists e :: Enabled(s, e) && !MovesSession(e) && e.t == t
    {
      var pc := s.streams[t].pc;
      var e := if pc.Opening? then AcquireSession(t) else if pc.SessionHeld? then LoadStreams(t)
               else if pc.CounterLoaded? then SwapStreams(t) else if pc.RollingBack? then RollBack(t)
               else if pc.Open? then FreeCounter(t) else FreeSession(t);
      assert Enabled(s, e) && !MovesSession(e) && e.t == t;
    }
  }

  // The retry loops are lock-free: a compare-and-swap that fails does so
  // because another goroutine changed the counter after it was loaded.
  lemma FailedSwapMeansProgress(lim: Limits, run: Run, e: Event)
    requires run.Legal(lim) && Enabled(run.After(lim), e)
    ensures var s, s' := run.After(lim), Apply(lim, run.After(lim), e);
      && (e.SwapActive? && !s'.sessions[e.c].Slotted? ==> s.sessions[e.c].at < s.activeWrites)
      && (e.SwapStreams? && !s'.streams[e.t].pc.Open? ==> s.streams[e.t].pc.at < s.streamWrites)
  {
    RunInv(lim, run);
  }

  // ---- The counters and loops refine plain bounded sets ----

  // The abstract account: who holds a session slot, who has a share of which
  // registered session, which streams are open. Limits are on set sizes.
  datatype Account = Account(slots: set<ConnId>, shares: map<ConnId, set<StreamId>>, open: set<StreamId>)

  datatype Act =
    | Nothing
    | Take(c: ConnId) | Give(c: ConnId)
    | Enter(c: ConnId) | Leave(c: ConnId)
    | Share(c: ConnId, t: StreamId) | Unshare(c: ConnId, t: StreamId)
    | Start(t: StreamId) | Stop(t: StreamId)

  predicate Room(limit: int, used: nat) { limit <= 0 || used < limit }

  ghost predicate Atomically(lim: Limits, a: Account, act: Act, b: Account) {
    match act
    case Nothing => b == a
    case Take(c) => c !in a.slots && Room(lim.concurrent, |a.slots|) && b == a.(slots := a.slots + {c})
    case Give(c) => c in a.slots && c !in a.shares && b == a.(slots := a.slots - {c})
    case Enter(c) => c in a.slots && c !in a.shares && b == a.(shares := a.shares[c := {}])
    case Leave(c) => c in a.slots && c in a.shares && b == a.(shares := a.shares - {c})
    case Share(c, t) =>
      c in a.shares && t !in a.shares[c] && Room(lim.streamsPerSession, |a.shares[c]|) &&
      b == a.(shares := a.shares[c := a.shares[c] + {t}])
    case Unshare(c, t) =>
      c in a.shares && t in a.shares[c] && t !in a.open && b == a.(shares := a.shares[c := a.shares[c] - {t}])
    case Start(t) => t !in a.open && Room(lim.streams, |a.open|) && b == a.(open := a.open + {t})
    case Stop(t) => t in a.open && b == a.(open := a.open - {t})
  }

  ghost function Abstract(s: State): Account {
    Account(SlotHolders(s.sessions), map c | c in s.registry :: SessionHolders(s.streams, c), GlobalHolders(s.streams))
  }

  // Which atomic act a step amounts to: the linearization points.
  function ActOf(lim: Limits, s: State, e: Event): Act
    requires Enabled(s, e)
  {
    var s' := Apply(lim, s, e);
    match e
    case LoadActive(c) => if s'.sessions[c].Slotted? then Take(c) else Nothing
    case SwapActive(c) => if s'.sessions[c].Slotted? then Take(c) else Nothing
    case Register(c) => Enter(c)
    case Unregister(c) => Leave(c)
    case ReleaseActive(c) => Give(c)
    case AcquireSession(t) => if s'.streams[t].pc.SessionHeld? then Share(s.streams[t].conn, t) else Nothing
    case LoadStreams(t) => if s'.streams[t].pc.Open? then Start(t) else Nothing
    case SwapStreams(t) => if s'.streams[t].pc.Open? then Start(t) else Nothing
    case FreeCounter(t) => Stop(t)
    case RollBack(t) => if s.streams[t].conn in s.registry then Unshare(s.streams[t].conn, t) else Nothing
    case FreeSession(t) => if s.streams[t].conn in s.registry then Unshare(s.streams[t].conn, t) else Nothing
    case _ => Nothing
  }

  lemma StepsAreAtomic(lim: Limits, s: State, e: Event)
    requires Inv(lim, s) && Enabled(s, e)
    ensures Atomically(lim, Abstract(s), ActOf(lim, s, e), Abstract(Apply(lim, s, e)))
  {
    if MovesSession(e) { SessionStepIsAtomic(lim, s, e); } else { StreamStepIsAtomic(lim, s, e); }
  }

  lemma SlotSet(sessions: map<ConnId, SessionPc>, c: ConnId, pc: SessionPc)
    ensures SlotHolders(sessions[c := pc]) ==
      if HasSlot(pc) then SlotHolders(sessions) + {c} else SlotHolders(sessions) - {c}
  {
  }

  lemma SharesUntouched(s: State, s': State)
    requires s'.streams == s.streams && s'.registry == s.registry
    ensures Abstract(s').shares == Abstract(s).shares && Abstract(s').open == Abstract(s).open
  {
  }

  lemma SessionStepIsAtomic(lim: Limits, s: State, e: Event)
    requires Inv(lim, s) && Enabled(s, e) && MovesSession(e)
    ensures Atomically(lim, Abstract(s), ActOf(lim, s, e), Abstract(Apply(lim, s, e)))
  {
    match e {
      case Accept => AcceptIsNothing(lim, s);
      case LoadActive(c) => LoadIsAtomic(lim, s, c);
      case SwapActive(c) => SwapIsAtomic(lim, s, c);
      case Register(c) => RegisterIsAtomic(lim, s, c);
      case Unregister(c) => UnregisterIsAtomic(lim, s, c);
      case ReleaseActive(c) => ReleaseIsAtomic(lim, s, c);
    }
  }

  lemma AcceptIsNothing(lim: Limits, s: State)
    requires SessionsInv(lim, s)
    ensures Abstract(Apply(lim, s, Accept)) == Abstract(s)
  {
    SlotSet(s.sessions, s.connSeq + 1, Acquiring);
    SharesUntouched(s, Apply(lim, s, Accept));
  }

  lemma LoadIsAtomic(lim: Limits, s: State, c: ConnId)
    requires SessionsInv(lim, s) && Enabled(s, LoadActive(c))
    ensures var a, s' := Abstract(s), Apply(lim, s, LoadActive(c));
      if s'.sessions[c].Slotted?
      then c !in a.slots && Room(lim.concurrent, |a.slots|) && Abstract(s') == a.(slots := a.slots + {c})
      else Abstract(s') == a
  {
    SlotSet(s.sessions, c, Apply(lim, s, LoadActive(c)).sessions[c]);
    SharesUntouched(s, Apply(lim, s, LoadActive(c)));
  }

  lemma SwapIsAtomic(lim: Limits, s: State, c: ConnId)
    requires SessionsInv(lim, s) && Enabled(s, SwapActive(c))
    ensures var a, s' := Abstract(s), Apply(lim, s, SwapActive(c));
      if s'.sessions[c].Slotted?
      then c !in a.slots && Room(lim.concurrent, |a.slots|) && Abstract(s') == a.(slots := a.slots + {c})
      else Abstract(s') == a
  {
    SlotSet(s.sessions, c, Apply(lim, s, SwapActive(c)).sessions[c]);
    SharesUntouched(s, Apply(lim, s, SwapActive(c)));
  }

  lemma ReleaseIsAtomic(lim: Limits, s: State, c: ConnId)
    requires SessionsInv(lim, s) && Enabled(s, ReleaseActive(c))
    ensures Atomically(lim, Abstract(s), Give(c), Abstract(Apply(lim, s, ReleaseActive(c))))
  {
    SlotSet(s.sessions, c, Released);
    SharesUntouched(s, Apply(lim, s, ReleaseActive(c)));
  }

  lemma RegisterIsAtomic(lim: Limits, s: State, c: ConnId)
    requires Inv(lim, s) && Enabled(s, Register(c))
    ensures var a := Abstract(s);
      c in a.slots && c !in a.shares && Abstract(Apply(lim, s, Register(c))) == a.(shares := a.shares[c := {}])
  {
    SlotSet(s.sessions, c, Registered);
    assert SlotHolders(s.sessions) + {c} == SlotHolders(s.sessions);
    NoShareBeforeRegistration(lim, s, c);
    EmptyEntry(s, SessionAt(s, c, Registered).(registry := s.registry[c := 0]), c);
  }

  lemma EmptyEntry(s: State, s': State, c: ConnId)
    requires s'.streams == s.streams && s'.registry == s.registry[c := 0]
    requires |SessionHolders(s.streams, c)| == 0
    ensures Abstract(s').shares == Abstract(s).shares[c := {}] && Abstract(s').open == Abstract(s).open
  {
    assert SessionHolders(s.streams, c) == {};
  }

  lemma UnregisterIsAtomic(lim: Limits, s: State, c: ConnId)
    requires SessionsInv(lim, s) && Enabled(s, Unregister(c))
    ensures Atomically(lim, Abstract(s), Leave(c), Abstract(Apply(lim, s, Unregister(c))))
  {
    SlotSet(s.sessions, c, Unregistered);
    assert SlotHolders(s.sessions) + {c} == SlotHolders(s.sessions);
    assert Abstract(Apply(lim, s, Unregister(c))).shares == Abstract(s).shares - {c};
  }

  lemma ShareSet(streams: map<StreamId, Stream>, t: StreamId, to: Stream, c: ConnId)
    ensures SessionHolders(streams[t := to], c) ==
      if Shares(to, c) then SessionHolders(streams, c) + {t} else SessionHolders(streams, c) - {t}
  {
  }

  lemma OpenSet(streams: map<StreamId, Stream>, t: StreamId, to: Stream)
    ensures GlobalHolders(streams[t := to]) ==
      if to.pc.Open? then GlobalHolders(streams) + {t} else GlobalHolders(streams) - {t}
  {
  }

  lemma StreamStepIsAtomic(lim: Limits, s: State, e: Event)
    requires Inv(lim, s) && Enabled(s, e) && !MovesSession(e)
    ensures Atomically(lim, Abstract(s), ActOf(lim, s, e), Abstract(Apply(lim, s, e)))
  {
    var s' := Apply(lim, s, e);
    StreamStep(lim, s, e);
    OpenSet(s.streams, e.t, s'.streams[e.t]);
    if e.OpenStream? || e.LoadStreams? || e.SwapStreams? || e.FreeCounter? {
      SharesKept(lim, s, e);
    } else if e.AcquireSession? {
      ShareTaken(lim, s, e.t);
    } else {
      ShareReturned(lim, s, e);
    }
  }

  lemma SharesKept(lim: Limits, s: State, e: Event)
    requires Enabled(s, e)
    requires e.OpenStream? || e.LoadStreams? || e.SwapStreams? || e.FreeCounter?
    ensures Abstract(Apply(lim, s, e)).shares == Abstract(s).shares
  {
    var s' := Apply(lim, s, e);
    StreamStep(lim, s, e);
    forall c ensures SessionHolders(s'.streams, c) == SessionHolders(s.streams, c) {
      ShareSet(s.streams, e.t, s'.streams[e.t], c);
    }
  }

  // Only the stream's own session sees its share come or go.
  lemma OneShareChanges(s: State, s': State, t: StreamId, c: ConnId, now: Stream)
    requires t in s.streams && s.streams[t].conn == now.conn == c
    requires s'.streams == s.streams[t := now] && s'.registry.Keys == s.registry.Keys
    ensures var a, b := Abstract(s).shares, Abstract(s').shares;
      if c !in a then b == a
      else b == a[c := if HasSessionShare(now.pc) then a[c] + {t} else a[c] - {t}]
  {
    forall d | d in s.registry
      ensures SessionHolders(s'.streams, d) ==
        if d != c then SessionHolders(s.streams, d)
        else if HasSessionShare(now.pc) then SessionHolders(s.streams, d) + {t} else SessionHolders(s.streams, d) - {t}
    {
      ShareSet(s.streams, t, now, d);
    }
  }

  lemma ShareTaken(lim: Limits, s: State, t: StreamId)
    requires RegistryInv(lim, s) && Enabled(s, AcquireSession(t))
    ensures var a, b := Abstract(s).shares, Abstract(Apply(lim, s, AcquireSession(t))).shares;
      match ActOf(lim, s, AcquireSession(t))
      case Share(c, u) =>
        u == t && c in a && t !in a[c] && Room(lim.streamsPerSession, |a[c]|) && b == a[c := a[c] + {t}]
      case Nothing => b == a
      case _ => false
  {
    var s' := Apply(lim, s, AcquireSession(t));
    var c := s.streams[t].conn;
    OneShareChanges(s, s', t, c, s'.streams[t]);
    if c in s.registry && s'.streams[t].pc.Denied? {
      assert Abstract(s).shares[c] - {t} == Abstract(s).shares[c];
    }
  }

  lemma ShareReturned(lim: Limits, s: State, e: Event)
    requires RegistryInv(lim, s) && Enabled(s, e) && (e.RollBack? || e.FreeSession?)
    ensures var a, b := Abstract(s).shares, Abstract(Apply(lim, s, e)).shares;
      match ActOf(lim, s, e)
      case Unshare(c, u) => u == e.t && c in a && e.t in a[c] && b == a[c := a[c] - {e.t}]
      case Nothing => b == a
      case _ => false
  {
    var s' := Apply(lim, s, e);
    OneShareChanges(s, s', e.t, s.streams[e.t].conn, s'.streams[e.t]);
  }

  // A refusal is honest, whatever step makes it: the account that refuses was
  // full before that step. A stream that is denied late was rolled back.
  lemma RefusalMeansFull(lim: Limits, s: State, e: Event)
    requires Inv(lim, s) && Enabled(s, e)
    ensures var a, s' := Abstract(s), Apply(lim, s, e);
      && (forall c :: c in s'.sessions && s'.sessions[c].Refused? ==>
            c in s.sessions && (s.sessions[c].Refused? || 0 < lim.concurrent == |a.slots|))
      && (forall t :: t in s'.streams && s'.streams[t].pc.RollingBack? ==>
            t in s.streams && (s.streams[t].pc.RollingBack? || 0 < lim.streams == |a.open|))
      && (forall t :: t in s'.streams && s'.streams[t].pc.Denied? ==> t in s.streams && DeniedRightly(lim, a, s.streams[t]))
  {
    if MovesSession(e) {
      SessionRefusal(lim, s, e);
    } else {
      StreamRefusal(lim, s, e);
    }
  }

  lemma SessionRefusal(lim: Limits, s: State, e: Event)
    requires Inv(lim, s) && Enabled(s, e) && MovesSession(e)
    ensures var s' := Apply(lim, s, e);
      && s'.streams == s.streams
      && (forall c :: c in s'.sessions && s'.sessions[c].Refused? ==>
            c in s.sessions && (s.sessions[c].Refused? || 0 < lim.concurrent == |SlotHolders(s.sessions)|))
  {
  }

  lemma StreamRefusal(lim: Limits, s: State, e: Event)
    requires Inv(lim, s) && Enabled(s, e) && !MovesSession(e)
    ensures var a, s' := Abstract(s), Apply(lim, s, e);
      && s'.sessions == s.sessions
      && (forall t :: t in s'.streams && s'.streams[t].pc.RollingBack? ==>
            t in s.streams && (s.streams[t].pc.RollingBack? || 0 < lim.streams == |a.open|))
      && (forall t :: t in s'.streams && s'.streams[t].pc.Denied? ==> t in s.streams && DeniedRightly(lim, a, s.streams[t]))
  {
    StreamStep(lim, s, e);
  }

  ghost predicate DeniedRightly(lim: Limits, a: Account, before: Stream) {
    || before.pc.Denied? || before.pc.RollingBack?
    || (before.pc.Opening? &&
        (before.conn !in a.shares || 0 < lim.streamsPerSession == |a.shares[before.conn]|))
  }

  // A swap that fails changes nothing but that its goroutine loads again.
  lemma FailedSwapLoadsAgain(lim: Limits, s: State, e: Event)
    requires Inv(lim, s) && Enabled(s, e)
    ensures var s' := Apply(lim, s, e);
      && (e.SwapActive? && !s'.sessions[e.c].Slotted? ==>
            s' == SessionAt(s, e.c, Acquiring) && Enabled(s', LoadActive(e.c)))
      && (e.SwapStreams? && !s'.streams[e.t].pc.Open? ==>
            s' == StreamAt(s, e.t, SessionHeld) && Enabled(s', LoadStreams(e.t)))
  {
  }

  // Without interference the loops take a slot exactly if there is room.
  lemma UndisturbedSession(lim: Limits, s: State, c: ConnId)
    requires Inv(lim, s) && Enabled(s, LoadActive(c))
    ensures var s1 := Apply(lim, s, LoadActive(c));
      if !Room(lim.concurrent, |SlotHolders(s.sessions)|) then s1.sessions[c].Refused?
      else s1.sessions[c].Slotted? ||
           (Enabled(s1, SwapActive(c)) && Apply(lim, s1, SwapActive(c)).sessions[c].Slotted?)
  {
  }

  lemma UndisturbedStream(lim: Limits, s: State, t: StreamId)
    requires Inv(lim, s) && Enabled(s, LoadStreams(t))
    ensures var s1 := Apply(lim, s, LoadStreams(t));
      if !Room(lim.streams, |GlobalHolders(s.streams)|) then s1.streams[t].pc.RollingBack?
      else s1.streams[t].pc.Open? ||
           (Enabled(s1, SwapStreams(t)) && Apply(lim, s1, SwapStreams(t)).streams[t].pc.Open?)
  {
  }

  // In every run, each step of the counters and their loops does to the
  // abstract account what one atomic bounded act does, or nothing.
  lemma RunsAreAtomic(lim: Limits, run: Run)
    requires run.Legal(lim) && run.Then?
    ensures var s := run.past.After(lim);
      Atomically(lim, Abstract(s), ActOf(lim, s, run.event), Abstract(run.After(lim)))
  {
    RunInv(lim, run.past);
    StepsAreAtomic(lim, run.past.After(lim), run.event);
  }
}
