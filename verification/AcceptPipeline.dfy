// listener.go, wrappedListener: the accept loop, one worker for each accepted
// connection, the callers of Accept and the closing of the listener, as steps
// that interleave freely. A connection is named by the order of acceptance.
module AcceptPipeline {
  import opened Wrappers

  type ConnId = nat
  type CallerId = nat

  // Why the listener stopped: it was closed, or the base listener failed.
  datatype Reason = ListenerClosed | AcceptFailed(code: int)

  // What classifyAcceptedConn made of a connection. Refused covers a failed
  // TLS handshake, a rejected probe and a full session limit.
  datatype Verdict = Website | AnyTls | Refused | RoutingError

  // Where a connection ended up as far as the wrapper is concerned.
  datatype Fate = Delivered(a: CallerId) | Served | Closed

  datatype LoopPc =
    | NotStarted
    | TakingSlot
    | Accepting                 // holds a slot, inside Listener.Accept
    | GivingSlotBack(why: Reason)
    | Judging(why: Reason)
    | Stopping(why: Reason)     // inside stop
    | Returned

  datatype WorkerPc =
    | Classifying
    | Failing                   // about to close after a routing error
    | Offering                  // in the select on ready and done
    | Leaving                   // about to free its slot
    | Gone

  datatype CallerPc = Waiting | Got(c: ConnId) | Failed(why: Reason)

  // stopOnce together with the two actions under it.
  datatype Stop = Free | Entered(why: Reason) | ErrorSet(why: Reason) | DoneClosed(why: Reason)

  datatype State = State(
    capacity: nat,
    slots: nat,
    loop: LoopPc,
    baseClosed: bool,           // the base listener is closed, its Accept fails
    stop: Stop,
    terminalErr: Option<Reason>,
    workers: map<ConnId, WorkerPc>,
    fates: map<ConnId, seq<Fate>>,
    callers: map<CallerId, CallerPc>
  )

  datatype Event =
    | CallAccept(a: CallerId)
    | TakeSlot | LoopSeesDone
    | BaseAccepts(c: ConnId) | BaseFails(code: int)
    | LoopFreesSlot | LoopJudges | LoopStops | LoopLeaves
    | CloseBase | CloseStops | SetTerminalErr | CloseDone
    | Classify(c: ConnId, verdict: Verdict)
    | CloseFailed(c: ConnId)
    | HandOver(c: ConnId, a: CallerId)
    | GiveUp(c: ConnId)
    | WorkerFreesSlot(c: ConnId)
    | CallerSeesDone(a: CallerId)

  function Initial(capacity: nat): State {
    State(capacity, 0, NotStarted, false, Free, None, map[], map[], map[])
  }

  predicate WorkerIs(s: State, c: ConnId, pc: WorkerPc) { c in s.workers && s.workers[c] == pc }

  predicate CallerWaits(s: State, a: CallerId) { a in s.callers && s.callers[a].Waiting? }

  // Freeing a slot is a receive: it can go on only if a slot is taken.
  predicate Enabled(s: State, e: Event) {
    match e
    case CallAccept(a) => a !in s.callers
    case TakeSlot => s.loop.TakingSlot? && s.slots < s.capacity
    case LoopSeesDone => s.loop.TakingSlot? && s.stop.DoneClosed?
    case BaseAccepts(c) => s.loop.Accepting? && !s.baseClosed && c !in s.workers
    case BaseFails(_) => s.loop.Accepting?
    case LoopFreesSlot => s.loop.GivingSlotBack? && s.slots > 0
    case LoopJudges => s.loop.Judging?
    case LoopStops => s.loop.Stopping? && s.stop.Free?
    case LoopLeaves => s.loop.Stopping? && s.stop.DoneClosed?
    case CloseBase => !s.baseClosed
    case CloseStops => s.baseClosed && s.stop.Free?
    case SetTerminalErr => s.stop.Entered?
    case CloseDone => s.stop.ErrorSet?
    case Classify(c, _) => WorkerIs(s, c, Classifying)
    case CloseFailed(c) => WorkerIs(s, c, Failing)
    case HandOver(c, a) => WorkerIs(s, c, Offering) && CallerWaits(s, a)
    case GiveUp(c) => WorkerIs(s, c, Offering) && s.stop.DoneClosed?
    case WorkerFreesSlot(c) => WorkerIs(s, c, Leaving) && s.slots > 0
    case CallerSeesDone(a) => CallerWaits(s, a) && s.stop.DoneClosed?
  }

  function Move(s: State, c: ConnId, pc: WorkerPc): State { s.(workers := s.workers[c := pc]) }

  // The connection goes to its fate and the worker to its deferred receive.
  function Settle(s: State, c: ConnId, fate: Fate): State
    requires c in s.fates
  {
    Move(s, c, Leaving).(fates := s.fates[c := s.fates[c] + [fate]])
  }

  function Apply(s: State, e: Event): State
    requires Enabled(s, e) && s.fates.Keys == s.workers.Keys
  {
    match e
    case CallAccept(a) =>
      s.(callers := s.callers[a := Waiting], loop := if s.loop.NotStarted? then TakingSlot else s.loop)
    case TakeSlot => s.(slots := s.slots + 1, loop := Accepting)
    case LoopSeesDone => s.(loop := Returned)
    case BaseAccepts(c) => Move(s, c, Classifying).(fates := s.fates[c := []], loop := TakingSlot)
    case BaseFails(code) => s.(loop := GivingSlotBack(AcceptFailed(code)))
    case LoopFreesSlot => s.(slots := s.slots - 1, loop := Judging(s.loop.why))
    case LoopJudges => s.(loop := if s.stop.DoneClosed? then Returned else Stopping(s.loop.why))
    case LoopStops => s.(stop := Entered(s.loop.why))
    case LoopLeaves => s.(loop := Returned)
    case CloseBase => s.(baseClosed := true)
    case CloseStops => s.(stop := Entered(ListenerClosed))
    case SetTerminalErr => s.(stop := ErrorSet(s.stop.why), terminalErr := Some(s.stop.why))
    case CloseDone => s.(stop := DoneClosed(s.stop.why))
    case Classify(c, verdict) =>
      (match verdict
       case Website => Move(s, c, Offering)
       case AnyTls => Settle(s, c, Served)
       case Refused => Settle(s, c, Closed)
       case RoutingError => Move(s, c, Failing))
    case CloseFailed(c) => Settle(s, c, Closed)
    case HandOver(c, a) => Settle(s, c, Delivered(a)).(callers := s.callers[a := Got(c)])
    case GiveUp(c) => Settle(s, c, Closed)
    case WorkerFreesSlot(c) => Move(s, c, Gone).(slots := s.slots - 1)
    case CallerSeesDone(a) => s.(callers := s.callers[a := Failed(TerminalError(s))])
  }

  function TerminalError(s: State): Reason {
    if s.terminalErr == None then ListenerClosed else s.terminalErr.value
  }

  datatype Run = Begin(capacity: nat) | Then(past: Run, event: Event) {
    function Length(): nat { if Begin? then 0 else past.Length() + 1 }

    ghost predicate Legal()
      decreases this, 0
    {
      Begin? || (past.Legal() && Enabled(past.After(), event))
    }

    ghost function After(): (s: State)
      requires Legal()
      ensures s.fates.Keys == s.workers.Keys
      decreases this, 1
    {
      if Begin? then Initial(capacity) else Apply(past.After(), event)
    }
  }

  // ---- Probe slots ----

  // How many steps a worker still has to make, at most.
  function Rank(pc: WorkerPc): nat {
    match pc
    case Classifying => 3
    case Failing => 2
    case Offering => 2
    case Leaving => 1
    case Gone => 0
  }

  ghost function AtLeast(workers: map<ConnId, WorkerPc>, k: nat): set<ConnId> {
    set c | c in workers && Rank(workers[c]) >= k
  }

  ghost function Live(workers: map<ConnId, WorkerPc>): set<ConnId> { AtLeast(workers, 1) }

  predicate LoopHoldsSlot(loop: LoopPc) { loop.Accepting? || loop.GivingSlotBack? }

  ghost predicate SlotsInv(s: State) {
    s.slots == |Live(s.workers)| + One(LoopHoldsSlot(s.loop)) <= s.capacity
  }

  lemma SetMoves<T>(before: set<T>, x: T, isIn: bool)
    ensures |if isIn then before + {x} else before - {x}| + One(x in before) == |before| + One(isIn)
    ensures x in before ==> |before| > 0
  {
  }

  lemma WorkerMoves(workers: map<ConnId, WorkerPc>, c: ConnId, pc: WorkerPc, k: nat)
    ensures var was := c in workers && Rank(workers[c]) >= k;
      && |AtLeast(workers[c := pc], k)| + One(was) == |AtLeast(workers, k)| + One(Rank(pc) >= k)
      && (was ==> |AtLeast(workers, k)| > 0)
  {
    var before := AtLeast(workers, k);
    assert AtLeast(workers[c := pc], k) == if Rank(pc) >= k then before + {c} else before - {c};
    SetMoves(before, c, Rank(pc) >= k);
  }

  predicate MovesWorker(e: Event) {
    e.BaseAccepts? || e.Classify? || e.CloseFailed? || e.HandOver? || e.GiveUp? || e.WorkerFreesSlot?
  }

  lemma SlotsKept(s: State, e: Event)
    requires Enabled(s, e) && s.fates.Keys == s.workers.Keys && SlotsInv(s)
    ensures SlotsInv(Apply(s, e))
  {
    if MovesWorker(e) {
      var s' := Apply(s, e);
      WorkerMoves(s.workers, e.c, s'.workers[e.c], 1);
      WorkerStep(s, e);
    }
  }

  // ---- Ownership ----

  predicate Settled(pc: WorkerPc) { pc.Leaving? || pc.Gone? }

  ghost predicate FatesInv(s: State) {
    && s.fates.Keys == s.workers.Keys
    && (forall c :: c in s.workers ==> |s.fates[c]| == One(Settled(s.workers[c])))
  }

  predicate DeliveredRight(s: State, fates: seq<Fate>, c: ConnId) {
    fates != [] && fates[0].Delivered? ==> fates[0].a in s.callers && s.callers[fates[0].a] == Got(c)
  }

  // Who holds a delivered connection is the one its fate names.
  ghost predicate DeliveryInv(s: State) {
    && (forall a :: a in s.callers && s.callers[a].Got? ==>
          s.callers[a].c in s.fates && s.fates[s.callers[a].c] == [Delivered(a)])
    && (forall c :: c in s.fates ==> DeliveredRight(s, s.fates[c], c))
  }

  // A step that moves a worker touches that worker's entries alone.
  lemma WorkerStep(s: State, e: Event)
    requires Enabled(s, e) && s.fates.Keys == s.workers.Keys && MovesWorker(e)
    ensures OnlyWorker(s, Apply(s, e), e.c)
  {
  }

  ghost predicate OnlyWorker(s: State, t: State, c: ConnId) {
    && c in t.workers && t.workers == s.workers[c := t.workers[c]]
    && c in t.fates && t.fates == s.fates[c := t.fates[c]]
  }

  lemma OtherStep(s: State, e: Event)
    requires Enabled(s, e) && s.fates.Keys == s.workers.Keys && !MovesWorker(e)
    ensures Apply(s, e).workers == s.workers && Apply(s, e).fates == s.fates
  {
  }

  lemma FatesKept(s: State, e: Event)
    requires Enabled(s, e) && FatesInv(s)
    ensures FatesInv(Apply(s, e))
    ensures forall c :: c in s.fates && s.fates[c] != [] ==> Apply(s, e).fates[c] == s.fates[c]
  {
    if MovesWorker(e) {
      WorkerStep(s, e);
      var s' := Apply(s, e);
      assert |s'.fates[e.c]| == One(Settled(s'.workers[e.c]));
    }
  }

  lemma OtherFate(s: State, s': State, c: ConnId)
    requires DeliveryInv(s) && s'.callers == s.callers && c in s'.fates
    requires s'.fates == s.fates[c := s'.fates[c]]
    requires c in s.fates && s.fates[c] != [] ==> s'.fates[c] == s.fates[c]
    requires (c in s.fates && s.fates[c] != []) || s'.fates[c] == [] || !s'.fates[c][0].Delivered?
    ensures DeliveryInv(s')
  {
  }

  lemma HandOverKept(s: State, c: ConnId, a: CallerId)
    requires Enabled(s, HandOver(c, a)) && FatesInv(s) && DeliveryInv(s)
    ensures DeliveryInv(Apply(s, HandOver(c, a)))
  {
    assert Apply(s, HandOver(c, a)).fates[c] == [Delivered(a)];
  }

  lemma CallersKept(s: State, e: Event)
    requires Enabled(s, e) && FatesInv(s) && DeliveryInv(s) && !MovesWorker(e)
    ensures DeliveryInv(Apply(s, e))
  {
    OtherStep(s, e);
  }

  lemma DeliveryKept(s: State, e: Event)
    requires Enabled(s, e) && FatesInv(s) && DeliveryInv(s)
    ensures DeliveryInv(Apply(s, e))
  {
    if e.HandOver? {
      HandOverKept(s, e.c, e.a);
    } else if MovesWorker(e) {
      WorkerStep(s, e);
      OtherFate(s, Apply(s, e), e.c);
    } else {
      CallersKept(s, e);
    }
  }

  // ---- Stopping ----

  ghost predicate StopInv(s: State) {
    && s.terminalErr == (if s.stop.ErrorSet? || s.stop.DoneClosed? then Some(s.stop.why) else None)
    && (forall a :: a in s.callers && s.callers[a].Failed? ==> s.stop == DoneClosed(s.callers[a].why))
    && (!s.stop.Free? ==> s.baseClosed || s.loop.Stopping? || s.loop.Returned?)
  }

  lemma StopKept(s: State, e: Event)
    requires Enabled(s, e) && s.fates.Keys == s.workers.Keys && StopInv(s)
    ensures StopInv(Apply(s, e))
  {
  }

  ghost predicate Inv(s: State) {
    SlotsInv(s) && FatesInv(s) && DeliveryInv(s) && StopInv(s)
  }

  lemma {:induction false} RunInv(run: Run)
    requires run.Legal()
    ensures Inv(run.After())
  {
    if run.Begin? {
      assert Live(map[]) == {};
    } else {
      var s := run.past.After();
      RunInv(run.past);
      SlotsKept(s, run.event);
      FatesKept(s, run.event);
      DeliveryKept(s, run.event);
      StopKept(s, run.event);
    }
  }

  // ---- What holds in every interleaving ----

  // A connection never has two owners, it has one exactly when its worker is
  // done with it, and a delivered one sits with the one caller it names.
  lemma OneOwner(run: Run, c: ConnId)
    requires run.Legal() && c in run.After().workers
    ensures var s := run.After();
      && |s.fates[c]| == (if Settled(s.workers[c]) then 1 else 0)
      && (forall a, b :: a in s.callers && b in s.callers && s.callers[a] == Got(c) && s.callers[b] == Got(c) ==> a == b)
      && (forall a :: a in s.callers && s.callers[a] == Got(c) <==> s.fates[c] == [Delivered(a)])
  {
    RunInv(run);
    var s := run.After();
    forall a ensures a in s.callers && s.callers[a] == Got(c) <==> s.fates[c] == [Delivered(a)] {
      assert DeliveredRight(s, s.fates[c], c);
    }
  }

  // Once given, a fate stays: no later step touches the connection.
  lemma FateIsFinal(run: Run, c: ConnId)
    requires run.Legal() && run.Then? && c in run.past.After().fates && run.past.After().fates[c] != []
    ensures run.After().fates[c] == run.past.After().fates[c]
  {
    RunInv(run.past);
    FatesKept(run.past.After(), run.event);
  }

  // Taken slots are the live workers and the loop if it is past its send;
  // they never exceed the limit, and no receive that frees one can block.
  lemma ProbeSlots(run: Run)
    requires run.Legal()
    ensures var s := run.After();
      && s.slots == |Live(s.workers)| + (if LoopHoldsSlot(s.loop) then 1 else 0)
      && s.slots <= s.capacity
      && (forall c :: WorkerIs(s, c, Leaving) ==> Enabled(s, WorkerFreesSlot(c)))
      && (s.loop.GivingSlotBack? ==> Enabled(s, LoopFreesSlot))
  {
    RunInv(run);
    var s := run.After();
    forall c | WorkerIs(s, c, Leaving) ensures s.slots > 0 {
      assert c in Live(s.workers);
    }
  }

  // ---- What a run says about its outcome ----

  // The verdict on a connection, read off the run.
  function VerdictOn(run: Run, c: ConnId): Option<Verdict> {
    if run.Begin? then None
    else if run.event.Classify? && run.event.c == c then Some(run.event.verdict)
    else VerdictOn(run.past, c)
  }

  // Where a connection with this verdict can be.
  predicate Follows(s: State, c: ConnId, verdict: Option<Verdict>)
    requires c in s.workers && c in s.fates
  {
    var pc, fates := s.workers[c], s.fates[c];
    match verdict
    case None => pc.Classifying? && fates == []
    case Some(AnyTls) => Settled(pc) && fates == [Served]
    case Some(Refused) => Settled(pc) && fates == [Closed]
    case Some(RoutingError) => if Settled(pc) then fates == [Closed] else pc.Failing? && fates == []
    case Some(Website) =>
      if Settled(pc) then |fates| == 1 && (fates[0].Delivered? || (fates[0].Closed? && s.stop.DoneClosed?))
      else pc.Offering? && fates == []
  }

  lemma FollowsKept(s: State, e: Event, c: ConnId, verdict: Option<Verdict>)
    requires Enabled(s, e) && s.fates.Keys == s.workers.Keys
    requires if c in s.workers then Follows(s, c, verdict) else verdict == None
    ensures var now := if e.Classify? && e.c == c then Some(e.verdict) else verdict;
      if c in Apply(s, e).workers then Follows(Apply(s, e), c, now) else now == None
  {
    if MovesWorker(e) {
      WorkerStep(s, e);
    } else {
      OtherStep(s, e);
    }
  }

  lemma {:induction false} VerdictRules(run: Run, c: ConnId)
    requires run.Legal()
    ensures var s := run.After(); if c in s.workers then Follows(s, c, VerdictOn(run, c)) else VerdictOn(run, c) == None
  {
    if run.Then? {
      VerdictRules(run.past, c);
      FollowsKept(run.past.After(), run.event, c, VerdictOn(run.past, c));
    }
  }

  // A connection's owner follows from the verdict on it: an AnyTLS connection
  // is served and no other is, a refused one and one with a routing error are
  // closed, and a website is delivered, or closed because the listener is.
  lemma FateFollowsVerdict(run: Run, c: ConnId)
    requires run.Legal() && c in run.After().workers && Settled(run.After().workers[c])
    ensures var s := run.After();
      && VerdictOn(run, c).Some?
      && (s.fates[c] == [Served] <==> VerdictOn(run, c) == Some(AnyTls))
      && (VerdictOn(run, c) in {Some(Refused), Some(RoutingError)} ==> s.fates[c] == [Closed])
      && (VerdictOn(run, c) == Some(Website) ==>
            (exists a :: s.fates[c] == [Delivered(a)]) || (s.fates[c] == [Closed] && s.stop.DoneClosed?))
  {
    VerdictRules(run, c);
    var fates := run.After().fates[c];
    if |fates| == 1 && fates[0].Delivered? {
      assert fates == [Delivered(fates[0].a)];
    }
  }

  // How the base listener failed last, read off the run.
  function LastFailure(run: Run): Option<Reason> {
    if run.Begin? then None
    else if run.event.BaseFails? then Some(AcceptFailed(run.event.code))
    else LastFailure(run.past)
  }

  // Why the listener stopped: it was closed, or the base listener failed.
  function StopReason(run: Run): Option<Reason> {
    if run.Begin? then None
    else if run.event.CloseStops? then Some(ListenerClosed)
    else if run.event.LoopStops? then LastFailure(run.past)
    else StopReason(run.past)
  }

  predicate BaseWasClosed(run: Run) { run.Then? && (run.event.CloseBase? || BaseWasClosed(run.past)) }

  predicate LoopInv(s: State, failure: Option<Reason>) {
    && (s.loop.NotStarted? <==> s.callers == map[])
    && (s.loop.Returned? ==> s.stop.DoneClosed?)
    && (s.loop.GivingSlotBack? || s.loop.Judging? || s.loop.Stopping? ==> failure == Some(s.loop.why))
  }

  lemma LoopKept(s: State, e: Event, failure: Option<Reason>)
    requires Enabled(s, e) && s.fates.Keys == s.workers.Keys && LoopInv(s, failure)
    requires forall c, a :: e == HandOver(c, a) ==> a in s.callers
    ensures LoopInv(Apply(s, e), if e.BaseFails? then Some(AcceptFailed(e.code)) else failure)
  {
    if e.CallAccept? || e.HandOver? || e.CallerSeesDone? {
      assert e.a in Apply(s, e).callers;
    }
  }

  // The reason is that of whoever stopped the listener first. The loop runs
  // from the first call of Accept until the listener has stopped, whoever
  // stopped it: a failure of the base listener always ends in a stop.
  lemma {:induction false} StopHasItsReason(run: Run)
    requires run.Legal()
    ensures var s := run.After();
      && LoopInv(s, LastFailure(run))
      && (if s.stop.Free? then StopReason(run) == None else StopReason(run) == Some(s.stop.why))
      && (s.baseClosed <==> BaseWasClosed(run))
  {
    if run.Then? {
      StopHasItsReason(run.past);
      LoopKept(run.past.After(), run.event, LastFailure(run.past));
    }
  }

  // What is open to the environment: any verdict on a connection, and another
  // connection for a loop with a free slot and an open base listener.
  lemma NothingIsRuledOut(s: State)
    ensures forall c, verdict :: WorkerIs(s, c, Classifying) ==> Enabled(s, Classify(c, verdict))
    ensures s.loop.TakingSlot? && s.slots < s.capacity ==> Enabled(s, TakeSlot)
    ensures forall c :: s.loop.Accepting? && !s.baseClosed && c !in s.workers ==> Enabled(s, BaseAccepts(c))
    ensures forall code :: s.loop.Accepting? ==> Enabled(s, BaseFails(code))
    ensures s.loop.Stopping? ==> exists e: Event :: (e.LoopStops? || e.SetTerminalErr? || e.CloseDone? || e.LoopLeaves?) && Enabled(s, e)
    ensures forall a :: a !in s.callers ==> Enabled(s, CallAccept(a))
    ensures !s.baseClosed ==> Enabled(s, CloseBase)
    ensures s.baseClosed && s.stop.Free? ==> Enabled(s, CloseStops)
    ensures s.stop.Entered? ==> Enabled(s, SetTerminalErr)
    ensures s.stop.ErrorSet? ==> Enabled(s, CloseDone)
  {
    if s.loop.Stopping? {
      var e := if s.stop.Free? then LoopStops else if s.stop.Entered? then SetTerminalErr
               else if s.stop.ErrorSet? then CloseDone else LoopLeaves;
      assert Enabled(s, e);
    }
  }

  // A loop that finds the listener stopped leaves, and else stops it.
  lemma LoopStopsOrLeaves(s: State)
    requires s.loop.Judging? && s.fates.Keys == s.workers.Keys
    ensures Apply(s, LoopJudges).loop.Returned? <==> s.stop.DoneClosed?
    ensures Apply(s, LoopJudges).loop.Stopping? <==> !s.stop.DoneClosed?
  {
  }

  // The first stop decides the error for good.
  lemma StopReasonIsFinal(s: State, e: Event)
    requires Enabled(s, e) && s.fates.Keys == s.workers.Keys && !s.stop.Free?
    ensures !Apply(s, e).stop.Free? && Apply(s, e).stop.why == s.stop.why
  {
  }

  // Every failing Accept returns the error of the first stop.
  lemma SameTerminalError(run: Run, a: CallerId)
    requires run.Legal() && a in run.After().callers && run.After().callers[a].Failed?
    ensures var s := run.After();
      s.stop == DoneClosed(s.callers[a].why) && s.terminalErr == Some(s.callers[a].why)
  {
    RunInv(run);
  }

  // After the stop nobody waits for anybody: every worker that is not gone
  // (its classification terminating), every waiting caller and the loop, to
  // which a closed base listener reports a failure, has a step of its own.
  lemma StopReleasesEveryone(run: Run)
    requires run.Legal() && run.After().stop.DoneClosed?
    ensures var s := run.After();
      && (forall c :: c in s.workers && !s.workers[c].Gone? ==>
            exists e :: Enabled(s, e) && MovesWorker(e) && !e.BaseAccepts? && e.c == c)
      && (forall a :: CallerWaits(s, a) ==> Enabled(s, CallerSeesDone(a)))
      && (s.loop.NotStarted? || s.loop.Returned? || exists e :: Enabled(s, e) && MovesLoop(e))
  {
    ProbeSlots(run);
    var s := run.After();
    forall c: ConnId | c in s.workers && !s.workers[c].Gone?
      ensures exists e :: Enabled(s, e) && MovesWorker(e) && !e.BaseAccepts? && e.c == c
    {
      var e := match s.workers[c]
        case Classifying => Classify(c, Refused)
        case Failing => CloseFailed(c)
        case Offering => GiveUp(c)
        case _ => WorkerFreesSlot(c);
      assert Enabled(s, e) && MovesWorker(e) && !e.BaseAccepts? && e.c == c;
    }
    LoopMoves(s);
  }

  predicate MovesLoop(e: Event) {
    e.LoopSeesDone? || e.BaseFails? || e.LoopFreesSlot? || e.LoopJudges? || e.LoopLeaves?
  }

  lemma LoopMoves(s: State)
    requires s.stop.DoneClosed? && (s.loop.GivingSlotBack? ==> s.slots > 0)
    ensures s.loop.NotStarted? || s.loop.Returned? || exists e :: Enabled(s, e) && MovesLoop(e)
  {
    var e := match s.loop
      case TakingSlot => LoopSeesDone
      case Accepting => BaseFails(0)
      case GivingSlotBack(_) => LoopFreesSlot
      case Judging(_) => LoopJudges
      case _ => LoopLeaves;
    if !s.loop.NotStarted? && !s.loop.Returned? {
      assert Enabled(s, e) && MovesLoop(e);
    }
  }

  // Before the stop as well, only a website connection that no Accept asks
  // for waits; and offering and asking at once is enough to deliver it.
  lemma OnlyOffersWait(run: Run, c: ConnId)
    requires run.Legal() && c in run.After().workers && !run.After().workers[c].Gone?
    ensures var s := run.After();
      if WorkerIs(s, c, Offering)
      then forall a :: CallerWaits(s, a) ==> Enabled(s, HandOver(c, a))
      else exists e :: Enabled(s, e) && MovesWorker(e) && !e.BaseAccepts? && e.c == c
  {
    ProbeSlots(run);
    var s := run.After();
    if !WorkerIs(s, c, Offering) {
      var e := match s.workers[c]
        case Classifying => Classify(c, Refused)
        case Failing => CloseFailed(c)
        case _ => WorkerFreesSlot(c);
      assert Enabled(s, e) && MovesWorker(e) && !e.BaseAccepts? && e.c == c;
    }
  }

  // ---- Coming to rest after the stop ----

  function LoopRank(loop: LoopPc): nat {
    match loop
    case NotStarted => 6
    case TakingSlot => 5
    case Accepting => 4
    case GivingSlotBack(_) => 3
    case Judging(_) => 2
    case Stopping(_) => 1
    case Returned => 0
  }

  ghost function WaitingCallers(callers: map<CallerId, CallerPc>): set<CallerId> {
    set a | a in callers && callers[a].Waiting?
  }

  ghost function WorkerSteps(workers: map<ConnId, WorkerPc>): nat {
    |AtLeast(workers, 1)| + |AtLeast(workers, 2)| + |AtLeast(workers, 3)|
  }

  // Bounds the steps still to come once the stop is over.
  ghost function Left(s: State): nat {
    WorkerSteps(s.workers) + LoopRank(s.loop) + |WaitingCallers(s.callers)| + One(!s.baseClosed)
  }

  lemma WorkerGetsOn(workers: map<ConnId, WorkerPc>, c: ConnId, pc: WorkerPc)
    requires c in workers && Rank(pc) < Rank(workers[c])
    ensures WorkerSteps(workers[c := pc]) < WorkerSteps(workers)
  {
    WorkerMoves(workers, c, pc, 1);
    WorkerMoves(workers, c, pc, 2);
    WorkerMoves(workers, c, pc, 3);
  }

  lemma CallerMoves(callers: map<CallerId, CallerPc>, a: CallerId, pc: CallerPc)
    ensures |WaitingCallers(callers[a := pc])| + One(a in callers && callers[a].Waiting?) ==
      |WaitingCallers(callers)| + One(pc.Waiting?)
  {
    var before := WaitingCallers(callers);
    assert WaitingCallers(callers[a := pc]) == if pc.Waiting? then before + {a} else before - {a};
    SetMoves(before, a, pc.Waiting?);
  }

  // After the stop every event but a new call of Accept brings the pipeline
  // nearer to its rest; such a call adds one step, its own return.
  lemma EveryEventCosts(s: State, e: Event)
    requires Enabled(s, e) && s.fates.Keys == s.workers.Keys && StopInv(s) && s.stop.DoneClosed?
    ensures Left(Apply(s, e)) <= if e.CallAccept? then Left(s) + 1 else Left(s) - 1
  {
    if MovesWorker(e) { WorkerEventCosts(s, e); } else { OtherStep(s, e); }
    if e.CallAccept? || e.CallerSeesDone? { CallerMoves(s.callers, e.a, Apply(s, e).callers[e.a]); }
  }

  lemma WorkerEventCosts(s: State, e: Event)
    requires Enabled(s, e) && s.fates.Keys == s.workers.Keys && MovesWorker(e) && !e.BaseAccepts?
    ensures Left(Apply(s, e)) < Left(s)
  {
    WorkerStep(s, e);
    WorkerGetsOn(s.workers, e.c, Apply(s, e).workers[e.c]);
    if e.HandOver? { CallerMoves(s.callers, e.a, Got(e.c)); }
  }

  // later goes on from run, with so many calls of Accept and other events.
  ghost predicate GoesOn(run: Run, later: Run, calls: nat, others: nat) {
    if later == run then calls == others == 0
    else
      && later.Then?
      && (if later.event.CallAccept? then calls > 0 && GoesOn(run, later.past, calls - 1, others)
          else others > 0 && GoesOn(run, later.past, calls, others - 1))
  }

  // After the stop no schedule keeps the pipeline going.
  lemma {:induction false} StoppedRunsAreShort(run: Run, later: Run, calls: nat, others: nat)
    requires run.Legal() && run.After().stop.DoneClosed? && later.Legal() && GoesOn(run, later, calls, others)
    ensures later.After().stop == run.After().stop
    ensures others + Left(later.After()) <= calls + Left(run.After())
  {
    if later != run {
      var called := later.event.CallAccept?;
      StoppedRunsAreShort(run, later.past, if called then calls - 1 else calls, if called then others else others - 1);
      LastEventCosts(later);
    }
  }

  lemma LastEventCosts(run: Run)
    requires run.Legal() && run.Then? && run.past.After().stop.DoneClosed?
    ensures run.After().stop == run.past.After().stop
    ensures Left(run.After()) <= Left(run.past.After()) + if run.event.CallAccept? then 1 else -1
  {
    RunInv(run.past);
    EveryEventCosts(run.past.After(), run.event);
  }

  ghost predicate AtRest(s: State) { forall e :: Enabled(s, e) ==> e.CallAccept? }

  // When the stopped pipeline has come to rest, every connection that was
  // ever accepted has its one owner, every slot is free and nobody waits.
  lemma RestAfterStop(run: Run)
    requires run.Legal() && run.After().stop.DoneClosed? && AtRest(run.After())
    ensures var s := run.After();
      && s.slots == 0
      && (s.loop.NotStarted? || s.loop.Returned?)
      && (forall c :: c in s.workers ==> s.workers[c].Gone? && |s.fates[c]| == 1)
      && (forall a :: !CallerWaits(s, a))
  {
    RunInv(run);
    StopReleasesEveryone(run);
    var s := run.After();
    assert Live(s.workers) == {};
  }

  // And every stopped run comes to rest, unless it goes on calling Accept.
  lemma {:induction false} RestIsReached(run: Run) returns (more: Run, others: nat)
    requires run.Legal() && run.After().stop.DoneClosed?
    ensures more.Legal() && more.After().stop.DoneClosed? && AtRest(more.After())
    ensures GoesOn(run, more, 0, others)
    decreases Left(run.After())
  {
    more, others := run, 0;
    if !AtRest(run.After()) {
      var e :| Enabled(run.After(), e) && !e.CallAccept?;
      LastEventCosts(Then(run, e));
      more, others := RestIsReached(Then(run, e));
      GoesOnFurther(run, e, more, others);
      others := others + 1;
    }
  }

  lemma {:induction false} GoesOnFurther(run: Run, e: Event, later: Run, others: nat)
    requires !e.CallAccept? && GoesOn(Then(run, e), later, 0, others)
    ensures GoesOn(run, later, 0, others + 1)
  {
    GoesOnCounts(Then(run, e), later, 0, others);
    if later != Then(run, e) { GoesOnFurther(run, e, later.past, others - 1); }
  }

  lemma {:induction false} GoesOnCounts(run: Run, later: Run, calls: nat, others: nat)
    requires GoesOn(run, later, calls, others)
    ensures later.Length() == run.Length() + calls + others
  {
    if later != run {
      if later.event.CallAccept? {
        GoesOnCounts(run, later.past, calls - 1, others);
      } else {
        GoesOnCounts(run, later.past, calls, others - 1);
      }
    }
  }
}
