// handler.go, dialContext and drainDialResults: the race of the dials to the
// interleaved addresses. Attempt k is the goroutine that dials address k; it
// sends exactly one result on an unbuffered channel.
module Dialer {
  import opened Wrappers
  import opened Net
  import Interleave

  // What one dial sends: whether it carries a connection and whether it
  // carries an error. Connections of different attempts are different, so an
  // attempt's index names its connection.
  datatype DialResult = DialResult(hasConn: bool, failed: bool) {
    predicate Wins() { hasConn && !failed }

    // The contract of a dial: an error comes without a connection.
    predicate Honest() { failed ==> !hasConn }
  }

  // How dialContext ended: still in its loop, returned a connection, ran out
  // of addresses, or saw its context end.
  datatype Phase = Racing | Won(winner: nat) | AllFailed | Expired

  datatype Race = Race(
    next: nat,            // addresses launched so far
    inFlight: nat,        // launched and not yet received by the loop
    timerC: bool,         // fallbackTimerC is not nil
    timerRuns: bool,      // fallbackTimer was started or reset and has not fired since
    errs: seq<nat>,       // the attempts whose errors were collected, in order
    pending: set<nat>,    // goroutines that have not handed over their result
    phase: Phase,
    toDrain: nat,         // receives the drainer still has to do
    closed: seq<nat>      // connections closed by the drainer, in order
  )

  datatype Event = Receive(attempt: nat) | TimerFires | ContextEnds | Drain(attempt: nat) {
    predicate Rendezvous() { Receive? || Drain? }
  }

  function Start(n: nat): Race {
    Race(1, 1, n != 1, true, [], {0}, Racing, 0, [])
  }

  predicate Enabled(r: Race, e: Event) {
    match e
    case Receive(i) => r.phase.Racing? && i in r.pending
    case TimerFires => r.phase.Racing? && r.timerC && r.timerRuns
    case ContextEnds => r.phase.Racing?
    case Drain(i) => r.toDrain > 0 && i in r.pending
  }

  function Apply(results: seq<DialResult>, r: Race, e: Event): Race {
    match e
    case Receive(i) =>
      var waiting := r.pending - {i};
      if i < |results| && results[i].Wins() then
        r.(pending := waiting, inFlight := Less(r.inFlight), phase := Won(i), toDrain := Less(r.inFlight))
      else if r.next < |results| then
        var launched := Launch(r.(pending := waiting, inFlight := Less(r.inFlight), errs := r.errs + [i]));
        launched.(timerRuns := true, timerC := launched.next < |results|)
      else
        r.(pending := waiting, inFlight := Less(r.inFlight), errs := r.errs + [i],
           phase := if r.inFlight <= 1 then AllFailed else Racing)
    case TimerFires =>
      var launched := Launch(r.(timerRuns := false));
      if launched.next < |results| then launched.(timerRuns := true) else launched.(timerC := false)
    case ContextEnds => r.(phase := Expired, toDrain := r.inFlight)
    case Drain(i) =>
      r.(pending := r.pending - {i}, toDrain := Less(r.toDrain),
         closed := if i < |results| && results[i].hasConn then r.closed + [i] else r.closed)
  }

  function Less(k: nat): nat { if k == 0 then 0 else k - 1 }

  function Launch(r: Race): Race {
    r.(next := r.next + 1, inFlight := r.inFlight + 1, pending := r.pending + {r.next})
  }

  // A run is a chain of events each of which is enabled where it occurs.
  datatype Run = Begin | Then(past: Run, event: Event) {
    function Length(): nat { if Begin? then 0 else past.Length() + 1 }

    predicate Legal(results: seq<DialResult>) {
      Begin? || (past.Legal(results) && Enabled(past.After(results), event))
    }

    function After(results: seq<DialResult>): Race {
      if Begin? then Start(|results|) else Apply(results, past.After(results), event)
    }

    predicate Extends(shorter: Run) { this == shorter || (Then? && past.Extends(shorter)) }
  }

  // Nothing is left to do: the loop is over and the drainer has finished.
  predicate Finished(r: Race) { !r.phase.Racing? && r.toDrain == 0 }

  ghost predicate Distinct(s: seq<nat>) { forall i, j :: 0 <= i < j < |s| ==> s[i] != s[j] }

  // Attempt i's result rests in exactly one place once it is launched: with
  // its goroutine, among the collected errors, with the caller, or drained.
  ghost predicate Placed(results: seq<DialResult>, r: Race) {
    && r.next <= |results|
    && (forall i :: i in r.pending ==> i < r.next && i !in r.errs && i !in r.closed)
    && (forall i :: i in r.errs ==> i < r.next && !results[i].Wins() && i !in r.closed)
    && (forall i :: i in r.closed ==> i < r.next && results[i].hasConn)
    && (r.phase.Won? ==>
          r.phase.winner < r.next && results[r.phase.winner].Wins() &&
          r.phase.winner !in r.pending && r.phase.winner !in r.closed)
    && (forall i :: 0 <= i < r.next && results[i].hasConn && !InLoop(r, i) ==> i in r.pending || i in r.closed)
    && (r.phase.Racing? || r.phase.AllFailed? ==>
          forall i :: 0 <= i < r.next && i !in r.errs ==> i in r.pending)
  }

  // The loop received attempt i's result.
  ghost predicate InLoop(r: Race, i: nat) {
    i in r.errs || r.phase == Won(i)
  }

  ghost predicate Counted(n: nat, r: Race) {
    && 1 <= r.next <= n
    && r.timerC == (r.next < n) && (r.timerC ==> r.timerRuns)
    && |r.pending| == (if r.phase.Racing? then r.inFlight else r.toDrain)
    && (r.phase.Racing? ==> r.inFlight > 0 && r.toDrain == 0 && r.closed == [] && |r.errs| + r.inFlight == r.next)
    && (r.phase.AllFailed? ==> r.toDrain == 0 && r.next == n && |r.errs| == n)
  }

  ghost predicate Inv(results: seq<DialResult>, r: Race) {
    && Counted(|results|, r)
    && Placed(results, r)
    && Distinct(r.errs) && Distinct(r.closed)
  }

  lemma DistinctAppend(s: seq<nat>, x: nat)
    requires Distinct(s) && x !in s
    ensures Distinct(s + [x])
    ensures forall i :: i in s + [x] <==> i in s || i == x
  {
  }

  lemma LaunchInv(results: seq<DialResult>, r: Race)
    requires 1 <= r.next < |results|
    requires Placed(results, r)
    ensures Placed(results, Launch(r))
    ensures |Launch(r).pending| == |r.pending| + 1
  {
    assert r.next !in r.pending;
  }

  lemma ReceiveInv(results: seq<DialResult>, r: Race, i: nat)
    requires Inv(results, r) && r.phase.Racing? && i in r.pending
    ensures Inv(results, Apply(results, r, Receive(i)))
  {
    var t := r.(pending := r.pending - {i}, inFlight := r.inFlight - 1);
    assert |t.pending| == |r.pending| - 1;
    if !results[i].Wins() {
      var u := t.(errs := t.errs + [i]);
      DistinctAppend(t.errs, i);
      assert Placed(results, u);
      if u.next < |results| { LaunchInv(results, u); }
    }
  }

  lemma DrainInv(results: seq<DialResult>, r: Race, i: nat)
    requires Inv(results, r) && r.toDrain > 0 && i in r.pending
    ensures Inv(results, Apply(results, r, Drain(i)))
  {
    assert |r.pending - {i}| == |r.pending| - 1;
    DistinctAppend(r.closed, i);
  }

  lemma ApplyInv(results: seq<DialResult>, r: Race, e: Event)
    requires Inv(results, r) && Enabled(r, e)
    ensures Inv(results, Apply(results, r, e))
  {
    match e {
      case Receive(i) => ReceiveInv(results, r, i);
      case TimerFires => LaunchInv(results, r.(timerRuns := false));
      case ContextEnds =>
      case Drain(i) => DrainInv(results, r, i);
    }
  }

  lemma {:induction false} RunInv(results: seq<DialResult>, run: Run)
    requires results != [] && run.Legal(results)
    ensures Inv(results, run.After(results))
  {
    if run.Then? {
      RunInv(results, run.past);
      ApplyInv(results, run.past.After(results), run.event);
    }
  }

  // ---- Termination ----

  // Bounds the events still to come, counting a launch as a receive more.
  function Left(n: nat, r: Race): int {
    if r.phase.Racing? then 2 * (n - r.next) + r.inFlight + 1 else r.toDrain
  }

  lemma EveryEventCosts(results: seq<DialResult>, r: Race, e: Event)
    requires Inv(results, r) && Enabled(r, e)
    ensures 0 <= Left(|results|, Apply(results, r, e)) < Left(|results|, r)
  {
  }

  // No schedule keeps the race and its drainer going for more than twice as
  // many events as there are addresses.
  lemma {:induction false} RunsAreShort(results: seq<DialResult>, run: Run)
    requires results != [] && run.Legal(results)
    ensures run.Length() + Left(|results|, run.After(results)) <= 2 * |results|
    ensures run.Length() <= 2 * |results|
  {
    RunInv(results, run);
    if run.Then? {
      RunsAreShort(results, run.past);
      RunInv(results, run.past);
      EveryEventCosts(results, run.past.After(results), run.event);
    }
  }

  // Until everything is finished something can happen: while the loop runs a
  // goroutine has a result to hand over, and so it is for the drainer. No
  // goroutine is left behind, blocked on the channel.
  lemma UnfinishedCanMove(results: seq<DialResult>, run: Run)
    requires results != [] && run.Legal(results)
    ensures var r := run.After(results);
      if Finished(r) then r.pending == {} else exists e: Event :: e.Rendezvous() && Enabled(r, e)
    ensures var r := run.After(results);
      r.phase.Racing? ==> Enabled(r, ContextEnds) && forall i :: i in r.pending ==> Enabled(r, Receive(i))
  {
    RunInv(results, run);
    var r := run.After(results);
    if !Finished(r) {
      var i :| i in r.pending;
      assert Enabled(r, if r.phase.Racing? then Receive(i) else Drain(i));
    }
  }

  // The fallback timer is not lost: as long as addresses remain it can fire,
  // and when it fires there is an address to launch.
  lemma TimerStands(results: seq<DialResult>, run: Run)
    requires results != [] && run.Legal(results) && run.After(results).phase.Racing?
    ensures Enabled(run.After(results), TimerFires) <==> run.After(results).next < |results|
  {
    RunInv(results, run);
  }

  // What lets the loop launch one more address: the timer, and an unusable
  // result, at once, however many dials are still in flight.
  function Triggers(results: seq<DialResult>, run: Run): nat {
    if run.Begin? then 0
    else
      var unusable := run.event.Receive? && run.event.attempt < |results| &&
        (results[run.event.attempt].failed || !results[run.event.attempt].hasConn);
      Triggers(results, run.past) + One(run.event.TimerFires? || unusable)
  }

  lemma {:induction false} LaunchesAreTriggered(results: seq<DialResult>, run: Run)
    requires results != [] && run.Legal(results)
    ensures run.After(results).next ==
      if Triggers(results, run) + 1 < |results| then Triggers(results, run) + 1 else |results|
  {
    if run.Then? {
      LaunchesAreTriggered(results, run.past);
      RunInv(results, run.past);
    }
  }

  // The first usable result that the loop receives, and no other, wins.
  function FirstUsable(results: seq<DialResult>, run: Run): Option<nat> {
    if run.Begin? then None
    else if FirstUsable(results, run.past).Some? then FirstUsable(results, run.past)
    else if run.event.Receive? && run.event.attempt < |results|
            && results[run.event.attempt].hasConn && !results[run.event.attempt].failed
    then Some(run.event.attempt)
    else None
  }

  lemma {:induction false} FirstUsableWins(results: seq<DialResult>, run: Run)
    requires results != [] && run.Legal(results)
    ensures forall i: nat :: run.After(results).phase == Won(i) <==> FirstUsable(results, run) == Some(i)
  {
    if run.Then? {
      FirstUsableWins(results, run.past);
      RunInv(results, run.past);
      if FirstUsable(results, run.past).Some? {
        assert run.past.After(results).phase == Won(FirstUsable(results, run.past).value);
      }
    }
  }

  // ---- Conservation ----

  // When all is finished every connection that a launched dial produced is
  // the returned one, or was closed once by the drainer, or came to the loop
  // together with an error and was dropped there.
  lemma Conservation(results: seq<DialResult>, run: Run, i: nat)
    requires results != [] && run.Legal(results) && Finished(run.After(results))
    requires i < |results| && i < run.After(results).next && results[i].hasConn
    ensures var r := run.After(results);
      && (r.phase == Won(i) || i in r.closed || i in r.errs)
      && !(r.phase == Won(i) && i in r.closed)
      && !(r.phase == Won(i) && i in r.errs)
      && !(i in r.closed && i in r.errs)
      && multiset(r.closed)[i] <= 1
      && (i in r.errs ==> results[i].failed)
  {
    RunInv(results, run);
    DistinctCount(run.After(results).closed, i);
  }

  lemma {:induction false} DistinctCount(s: seq<nat>, x: nat)
    requires Distinct(s)
    ensures multiset(s)[x] == if x in s then 1 else 0
  {
    if s != [] {
      assert s == [s[0]] + s[1..];
      DistinctCount(s[1..], x);
    }
  }

  ghost predicate Dropped(results: seq<DialResult>, r: Race, i: nat) {
    i < |results| && i in r.errs && results[i].hasConn
  }

  ghost predicate LeakyRun(results: seq<DialResult>, run: Run) {
    run.Legal(results) && Finished(run.After(results)) &&
    exists i :: Dropped(results, run.After(results), i)
  }

  // The dialer can lose a connection exactly when some dial breaks its
  // contract and sends a connection together with an error.
  lemma LeaksIffDialsBreakContract(results: seq<DialResult>)
    requires results != []
    ensures (exists run :: LeakyRun(results, run)) <==> (exists i :: 0 <= i < |results| && !results[i].Honest())
  {
    if run :| LeakyRun(results, run) {
      RunInv(results, run);
    }
    if i :| 0 <= i < |results| && !results[i].Honest() {
      var run := LeakingRun(results, i);
      assert LeakyRun(results, run);
    }
  }

  lemma LeakingRun(results: seq<DialResult>, i: nat) returns (run: Run)
    requires i < |results| && !results[i].Honest()
    ensures LeakyRun(results, run)
  {
    var t := TimersOnly(results, i);
    var received := Then(t, Receive(i));
    assert received.After(results).errs == [i];
    run := Finish(results, received);
    assert Dropped(results, run.After(results), i);
  }

  // If no dial answers, the timer launches the addresses one after the other.
  lemma {:induction false} TimersOnly(results: seq<DialResult>, k: nat) returns (run: Run)
    requires k < |results|
    ensures run.Legal(results)
    ensures var r := run.After(results);
      r.phase.Racing? && r.errs == [] && r.next == k + 1 && k in r.pending
  {
    run := Begin;
    if k > 0 {
      run := TimersOnly(results, k - 1);
      TimerStands(results, run);
      run := Then(run, TimerFires);
    }
  }

  // Every run can be completed, and what the loop collected stays collected.
  lemma {:induction false} Finish(results: seq<DialResult>, run: Run) returns (more: Run)
    requires results != [] && run.Legal(results)
    ensures more.Legal(results) && Finished(more.After(results)) && more.Extends(run)
    ensures forall i :: i in run.After(results).errs ==> i in more.After(results).errs
    decreases Left(|results|, run.After(results))
  {
    UnfinishedCanMove(results, run);
    RunInv(results, run);
    more := run;
    if !Finished(run.After(results)) {
      var e: Event :| e.Rendezvous() && Enabled(run.After(results), e);
      EveryEventCosts(results, run.After(results), e);
      more := Finish(results, Then(run, e));
      ExtendsSkip(more, run, e);
    }
  }

  lemma {:induction false} ExtendsSkip(more: Run, run: Run, e: Event)
    requires more.Extends(Then(run, e))
    ensures more.Extends(run)
  {
    if more != Then(run, e) { ExtendsSkip(more.past, run, e); }
  }

  // An honest set of dials loses nothing on any path.
  lemma HonestDialsLoseNothing(results: seq<DialResult>, run: Run, i: nat)
    requires results != [] && run.Legal(results) && Finished(run.After(results))
    requires i < |results| && i < run.After(results).next && results[i].hasConn
    requires forall k :: 0 <= k < |results| ==> results[k].Honest()
    ensures var r := run.After(results); (r.phase == Won(i)) != (multiset(r.closed)[i] == 1)
  {
    RunInv(results, run);
    DistinctCount(run.After(results).closed, i);
  }

  // Giving up without the context ending takes an error from every address.
  lemma FailureIsComplete(results: seq<DialResult>, run: Run)
    requires results != [] && run.Legal(results)
    ensures var r := run.After(results);
      r.phase.AllFailed? ==>
        && r.next == |results|
        && |r.errs| == |results|
        && (forall i :: 0 <= i < |results| ==> i in r.errs && !results[i].Wins())
  {
    RunInv(results, run);
  }

  // ---- dialContext itself ----

  method DrainDialResults(results: seq<DialResult>, pending: set<nat>, remaining: nat, ghost before: Run)
    returns (closed: seq<nat>, ghost run: Run)
    requires results != [] && before.Legal(results)
    requires var r := before.After(results);
      !r.phase.Racing? && r.toDrain == remaining && r.pending == pending && r.closed == []
    ensures run.Legal(results) && Finished(run.After(results))
    ensures run.After(results) == before.After(results).(pending := {}, toDrain := 0, closed := closed)
    ensures Distinct(closed) && forall i :: i in closed <==> i in pending && i < |results| && results[i].hasConn
  {
    var blocked := pending;
    closed, run := [], before;
    for k := 0 to remaining
      invariant run.Legal(results)
      invariant run.After(results) ==
                before.After(results).(pending := blocked, toDrain := remaining - k, closed := closed)
      invariant blocked <= pending
      invariant forall i :: i in closed <==> i in pending - blocked && i < |results| && results[i].hasConn
    {
      RunInv(results, run);
      var i :| i in blocked;
      run := Then(run, Drain(i));
      blocked := blocked - {i};
      if results[i].hasConn {
        closed := closed + [i];
      }
    }
    RunInv(results, run);
  }

  // What the loop of dialContext relies on at its head.
  lemma LoopHead(results: seq<DialResult>, run: Run)
    requires results != [] && run.Legal(results)
    ensures var r := run.After(results); r.phase.Racing? ==>
      && r.pending != {} && |r.pending| == r.inFlight
      && (forall i :: i in r.pending ==> i < |results|)
      && Counted(|results|, r)
  {
    RunInv(results, run);
  }

  // What one pass of the loop makes of the race, branch by branch.
  function Looping(next: nat, inFlight: nat, timerC: bool, timerRuns: bool, errs: seq<nat>, pending: set<nat>): Race {
    Race(next, inFlight, timerC, timerRuns, errs, pending, if inFlight > 0 then Racing else AllFailed, 0, [])
  }

  function AfterError(n: nat, r: Race, i: nat): Race {
    if r.next < n
    then Looping(r.next + 1, r.inFlight, r.next + 1 < n, true, r.errs + [i], r.pending - {i} + {r.next})
    else Looping(r.next, Less(r.inFlight), r.timerC, r.timerRuns, r.errs + [i], r.pending - {i})
  }

  function AfterTimer(n: nat, r: Race): Race {
    Looping(r.next + 1, r.inFlight + 1, r.next + 1 < n, r.next + 1 < n, r.errs, r.pending + {r.next})
  }

  lemma ErrorBranch(results: seq<DialResult>, r: Race, i: nat)
    requires Counted(|results|, r) && Enabled(r, Receive(i))
    requires i < |results| && !results[i].Wins()
    ensures Apply(results, r, Receive(i)) == AfterError(|results|, r, i)
  {
  }

  lemma TimerBranch(results: seq<DialResult>, r: Race)
    requires Counted(|results|, r) && Enabled(r, TimerFires)
    ensures Apply(results, r, TimerFires) == AfterTimer(|results|, r)
  {
  }

  lemma Next(results: seq<DialResult>, run: Run, e: Event)
    requires results != [] && run.Legal(results) && Enabled(run.After(results), e)
    ensures var r, run' := run.After(results), Then(run, e);
      && run'.Legal(results)
      && (e.TimerFires? ==> run'.After(results) == AfterTimer(|results|, r))
      && (e.Receive? && e.attempt < |results| && !results[e.attempt].Wins() ==>
            run'.After(results) == AfterError(|results|, r, e.attempt))
  {
    RunInv(results, run);
    if e.TimerFires? { TimerBranch(results, run.After(results)); }
    if e.Receive? && e.attempt < |results| && !results[e.attempt].Wins() {
      ErrorBranch(results, run.After(results), e.attempt);
    }
  }

  // The variables of dialContext that its select loop updates.
  datatype Loop = Loop(next: nat, inFlight: nat, timerC: bool, timerRuns: bool, errs: seq<nat>, pending: set<nat>,
                       dialed: seq<Socksaddr>)
  {
    // They describe the race, and what was dialed is what was launched.
    ghost predicate Tracks(results: seq<DialResult>, destinations: seq<Socksaddr>, run: Run) {
      && run.Legal(results)
      && run.After(results) == Looping(next, inFlight, timerC, timerRuns, errs, pending)
      && next <= |destinations| && dialed == destinations[..next]
    }
  }

  // launchDial for the next address.
  method LaunchDial(l: Loop, destinations: seq<Socksaddr>) returns (l': Loop)
    requires l.next < |destinations| && l.dialed == destinations[..l.next]
    ensures l' == l.(pending := l.pending + {l.next}, dialed := destinations[..l.next + 1])
  {
    l' := l.(dialed := l.dialed + [destinations[l.next]], pending := l.pending + {l.next});
  }

  // A result without a usable connection.
  method OnError(results: seq<DialResult>, destinations: seq<Socksaddr>, l: Loop, i: nat, ghost run: Run)
    returns (l': Loop)
    requires destinations != [] && |results| == |destinations| && l.Tracks(results, destinations, run)
    requires l.inFlight > 0 && i in l.pending && i < |results| && !results[i].Wins()
    ensures l'.Tracks(results, destinations, Then(run, Receive(i)))
    ensures 2 * (|destinations| - l'.next) + l'.inFlight < 2 * (|destinations| - l.next) + l.inFlight
  {
    Next(results, run, Receive(i));
    LoopHead(results, run);
    l' := l.(pending := l.pending - {i}, inFlight := l.inFlight - 1, errs := l.errs + [i]);
    if l'.next < |destinations| {
      l' := LaunchDial(l', destinations);
      l' := l'.(next := l'.next + 1, inFlight := l'.inFlight + 1, timerRuns := true);
      if l'.next < |destinations| {
        l' := l'.(timerC := true);
      } else {
        l' := l'.(timerC := false);
      }
    }
  }

  method OnTimer(results: seq<DialResult>, destinations: seq<Socksaddr>, l: Loop, ghost run: Run) returns (l': Loop)
    requires destinations != [] && |results| == |destinations| && l.Tracks(results, destinations, run)
    requires l.inFlight > 0 && l.timerC && l.timerRuns
    ensures l'.Tracks(results, destinations, Then(run, TimerFires))
    ensures 2 * (|destinations| - l'.next) + l'.inFlight < 2 * (|destinations| - l.next) + l.inFlight
  {
    Next(results, run, TimerFires);
    LoopHead(results, run);
    l' := LaunchDial(l.(timerRuns := false), destinations);
    l' := l'.(next := l'.next + 1, inFlight := l'.inFlight + 1);
    if l'.next < |destinations| {
      l' := l'.(timerRuns := true);
    } else {
      l' := l'.(timerC := false);
    }
  }

  // The select loop over the addresses in dialing order. Which goroutine
  // delivers, when the timer fires and when the context ends are arbitrary.
  method RaceDials(destinations: seq<Socksaddr>, results: seq<DialResult>)
    returns (conn: Option<nat>, errs: seq<nat>, expired: bool, dialed: seq<Socksaddr>, closed: seq<nat>, ghost run: Run)
    requires destinations != [] && |results| == |destinations|
    ensures Outcome(results, run, conn, errs, expired, closed)
    ensures Handed(results, |dialed|, conn, errs, expired, closed)
    ensures run.After(results).next <= |destinations| && dialed == destinations[..run.After(results).next]
  {
    var l := LaunchDial(Loop(0, 0, false, false, [], {}, []), destinations);
    l := l.(next := 1, inFlight := 1, timerRuns := true, timerC := true);
    if |destinations| == 1 {
      l := l.(timerC := false);
    }
    run := Begin;
    while l.inFlight > 0
      invariant l.Tracks(results, destinations, run)
      decreases 2 * (|destinations| - l.next) + l.inFlight
    {
      LoopHead(results, run);
      if
      case l.pending != {} =>
        var i :| i in l.pending;
        if !results[i].failed && results[i].hasConn {
          closed, run := DrainDialResults(results, l.pending - {i}, l.inFlight - 1, Then(run, Receive(i)));
          OutcomeIsHanded(results, run, Some(i), l.errs, false, closed);
          return Some(i), l.errs, false, l.dialed, closed, run;
        }
        l := OnError(results, destinations, l, i, run);
        run := Then(run, Receive(i));
      case l.timerC && l.timerRuns =>
        l := OnTimer(results, destinations, l, run);
        run := Then(run, TimerFires);
      case true =>
        closed, run := DrainDialResults(results, l.pending, l.inFlight, Then(run, ContextEnds));
        OutcomeIsHanded(results, run, None, l.errs, true, closed);
        return None, l.errs, true, l.dialed, closed, run;
    }
    OutcomeIsHanded(results, run, None, l.errs, false, []);
    return None, l.errs, false, l.dialed, [], run;
  }

  // What dialContext hands back once the drainer is through as well.
  ghost predicate Outcome(results: seq<DialResult>, run: Run, conn: Option<nat>, errs: seq<nat>, expired: bool,
                          closed: seq<nat>)
  {
    var r := run.After(results);
    && run.Legal(results) && Finished(r)
    && conn == (if r.phase.Won? then Some(r.phase.winner) else None)
    && expired == r.phase.Expired?
    && errs == r.errs
    && closed == r.closed
  }

  // The same without the run: who has each connection that was produced.
  ghost predicate Handed(results: seq<DialResult>, dialed: nat, conn: Option<nat>, errs: seq<nat>, expired: bool,
                         closed: seq<nat>)
  {
    && dialed <= |results| && Distinct(closed)
    && (conn.Some? ==> conn.value < dialed && results[conn.value].Wins() && conn.value !in closed && !expired)
    && (forall i :: i in closed ==> i < dialed && results[i].hasConn && i !in errs)
    && (forall i :: i in errs ==> i < dialed && !results[i].Wins())
    && (forall i :: 0 <= i < dialed && results[i].hasConn ==> conn == Some(i) || i in closed || i in errs)
    && (conn == None && !expired ==>
          dialed == |results| == |errs| && forall i :: 0 <= i < |results| ==> i in errs)
  }

  lemma OutcomeIsHanded(results: seq<DialResult>, run: Run, conn: Option<nat>, errs: seq<nat>, expired: bool,
                        closed: seq<nat>)
    requires results != [] && Outcome(results, run, conn, errs, expired, closed)
    ensures Handed(results, run.After(results).next, conn, errs, expired, closed)
  {
    RunInv(results, run);
  }

  method DialContext(resolved: seq<Socksaddr>, results: seq<DialResult>)
    returns (conn: Option<nat>, errs: seq<nat>, expired: bool, dialed: seq<Socksaddr>, closed: seq<nat>, ghost run: Run)
    requires resolved != [] && |results| == |resolved|
    ensures Outcome(results, run, conn, errs, expired, closed)
    ensures Handed(results, |dialed|, conn, errs, expired, closed)
    ensures run.After(results).next <= |Interleave.Interleaved(resolved)|
    ensures dialed == Interleave.Interleaved(resolved)[..run.After(results).next]
    ensures dialed <= resolved <==> Interleave.Alternates(resolved, |dialed|)
  {
    var destinations := Interleave.InterleaveAddressFamilies(resolved);
    Interleave.InterleavingIsPermutation(resolved);
    conn, errs, expired, dialed, closed, run := RaceDials(destinations, results);
    Interleave.ResolverOrderIff(resolved, |dialed|);
  }
}
