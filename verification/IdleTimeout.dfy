// listener.go, idleTimeoutConn: a connection that closes itself after a time
// without traffic. Time is a discrete clock; a timer that has fired runs its
// callback later, at any moment, also after the timer was reset or stopped.
module IdleTimeout {
  import opened Wrappers

  // The fields under the mutex; the timer is armed for a moment or not armed.
  datatype Fields = Fields(timeout: int, timer: Option<int>, closed: bool, lastActivity: int)

  function Created(timeout: int, now: int): Fields {
    Fields(timeout, Some(now + timeout), false, now)
  }

  function Touched(f: Fields, now: int): Fields {
    if f.closed then f else f.(lastActivity := now, timer := Some(now + f.timeout))
  }

  function Closed(f: Fields): Fields {
    if f.closed then f else f.(closed := true, timer := None)
  }

  function Expired(f: Fields, now: int): Fields {
    if f.closed then f
    else if now - f.lastActivity < f.timeout
    then f.(timer := Some(now + (f.timeout - (now - f.lastActivity))))
    else f.(closed := true)
  }

  class IdleTimeoutConn {
    const timeout: int
    var timer: Option<int>
    var closed: bool
    var lastActivity: int
    var underlyingCloses: nat   // calls of Close on the wrapped connection

    constructor (timeout: int, now: int)
      ensures View() == Created(timeout, now) && underlyingCloses == 0
    {
      this.timeout := timeout;
      lastActivity, closed, underlyingCloses := now, false, 0;
      timer := Some(now + timeout);
    }

    ghost function View(): Fields
      reads this
    {
      Fields(timeout, timer, closed, lastActivity)
    }

    // Read and Write touch only if bytes moved.
    method AfterTransfer(n: nat, now: int)
      modifies this
      ensures View() == if n > 0 then Touched(old(View()), now) else old(View())
      ensures underlyingCloses == old(underlyingCloses)
    {
      if n > 0 {
        Touch(now);
      }
    }

    method Touch(now: int)
      modifies this
      ensures View() == Touched(old(View()), now) && underlyingCloses == old(underlyingCloses)
    {
      if !closed {
        lastActivity := now;
        timer := Some(now + timeout);
      }
    }

    method Close() returns (alreadyClosed: bool)
      modifies this
      ensures View() == Closed(old(View())) && alreadyClosed == old(closed)
      ensures underlyingCloses == old(underlyingCloses) + if alreadyClosed then 0 else 1
    {
      if closed {
        return true;
      }
      closed := true;
      timer := None;
      underlyingCloses := underlyingCloses + 1;
      return false;
    }

    // The timer's callback. The timer itself is spent before it runs.
    method Expire(now: int)
      modifies this
      ensures View() == Expired(old(View()), now)
      ensures underlyingCloses == old(underlyingCloses) + if closed && !old(closed) then 1 else 0
    {
      if closed {
        return;
      }
      var idleFor := now - lastActivity;
      if idleFor < timeout {
        timer := Some(now + (timeout - idleFor));
        return;
      }
      closed := true;
      underlyingCloses := underlyingCloses + 1;
    }
  }

  // newIdleTimeoutConn. Without a positive timeout the connection stays as it
  // is: there is nothing to wrap it in, and nothing will close it.
  method NewIdleTimeoutConn(timeout: int, now: int) returns (conn: IdleTimeoutConn?)
    ensures conn == null <==> timeout <= 0
    ensures conn != null ==> fresh(conn) && conn.View() == Created(timeout, now) && conn.underlyingCloses == 0
  {
    if timeout <= 0 {
      return null;
    }
    conn := new IdleTimeoutConn(timeout, now);
  }

  // ---- All users of the connection, its timer and the clock together ----

  // callbacks: timer callbacks started and waiting for the mutex. closing:
  // goroutines that have set closed and not yet closed the connection.
  datatype World = World(now: int, conn: Fields, callbacks: nat, closing: nat, closes: nat)

  datatype Event =
    | Tick(d: nat)
    | Fire
    | RunCallback
    | Transfer      // Read or Write moved bytes
    | CallClose
    | CloseUnderlying

  predicate Enabled(w: World, e: Event) {
    match e
    case Tick(_) => true
    case Fire => w.conn.timer.Some? && w.conn.timer.value <= w.now
    case RunCallback => w.callbacks > 0
    case Transfer => true
    case CallClose => true
    case CloseUnderlying => w.closing > 0
  }

  function Apply(w: World, e: Event): World
    requires Enabled(w, e)
  {
    match e
    case Tick(d) => w.(now := w.now + d)
    case Fire => w.(conn := w.conn.(timer := None), callbacks := w.callbacks + 1)
    case RunCallback => Update(w.(callbacks := w.callbacks - 1), Expired(w.conn, w.now))
    case Transfer => Update(w, Touched(w.conn, w.now))
    case CallClose => Update(w, Closed(w.conn))
    case CloseUnderlying => w.(closing := w.closing - 1, closes := w.closes + 1)
  }

  // Whoever sets closed goes on to close the wrapped connection.
  function Update(w: World, f: Fields): World {
    w.(conn := f, closing := if f.closed && !w.conn.closed then w.closing + 1 else w.closing)
  }

  datatype Run = Begin(timeout: int, start: int) | Then(past: Run, event: Event) {
    predicate Legal()
      decreases this, 0
    {
      if Begin? then timeout > 0 else past.Legal() && Enabled(past.After(), event)
    }

    function After(): World
      requires Legal()
      decreases this, 1
    {
      if Begin? then World(start, Created(timeout, start), 0, 0, 0) else Apply(past.After(), event)
    }
  }

  predicate Inv(w: World) {
    && w.conn.timeout > 0
    && w.conn.lastActivity <= w.now
    && w.closing + w.closes == (if w.conn.closed then 1 else 0)
    && (!w.conn.closed ==>
          if w.conn.timer.Some? then w.conn.timer.value == w.conn.lastActivity + w.conn.timeout
          else w.callbacks > 0)
  }

  lemma {:induction false} RunInv(run: Run)
    requires run.Legal()
    ensures Inv(run.After())
  {
    if run.Then? { RunInv(run.past); }
  }

  // While the connection is open, its timer is set for exactly one timeout
  // after the last traffic, or a callback is on its way to look again.
  lemma {:induction false} TimerIsNeverLost(run: Run)
    requires run.Legal() && !run.After().conn.closed
    ensures var w := run.After();
      w.conn.timer == Some(LastTraffic(run) + Timeout(run)) || (w.conn.timer == None && w.callbacks > 0)
  {
    RunInv(run);
    ActivityIsTraffic(run);
  }

  // When bytes last moved, read off the run itself.
  function LastTraffic(run: Run): int
    requires run.Legal()
  {
    if run.Begin? then run.start
    else if run.event.Transfer? then run.past.After().now
    else LastTraffic(run.past)
  }

  function Timeout(run: Run): int {
    if run.Begin? then run.timeout else Timeout(run.past)
  }

  lemma {:induction false} ActivityIsTraffic(run: Run)
    requires run.Legal()
    ensures run.After().conn.timeout == Timeout(run)
    ensures !run.After().conn.closed ==> run.After().conn.lastActivity == LastTraffic(run)
  {
    if run.Then? { ActivityIsTraffic(run.past); }
  }

  // The timer of an open connection fires only when no bytes have moved for
  // the timeout, and then it can.
  lemma {:induction false} TimerFiresWhenDue(run: Run)
    requires run.Legal() && !run.After().conn.closed && run.After().conn.timer.Some?
    ensures Enabled(run.After(), Fire) <==> run.After().now >= LastTraffic(run) + Timeout(run)
  {
    RunInv(run);
    ActivityIsTraffic(run);
  }

  function Elapsed(run: Run): nat {
    if run.Begin? then 0 else Elapsed(run.past) + if run.event.Tick? then run.event.d else 0
  }

  function StartOf(run: Run): int { if run.Begin? then run.start else StartOf(run.past) }

  // The clock goes with its ticks, and nothing holds up the clock, the users
  // of the connection or a callback that is pending.
  lemma {:induction false} TimeGoesOn(run: Run)
    requires run.Legal()
    ensures run.After().now == StartOf(run) + Elapsed(run)
    ensures forall d :: Enabled(run.After(), Tick(d))
    ensures Enabled(run.After(), Transfer) && Enabled(run.After(), CallClose)
    ensures run.After().callbacks > 0 ==> Enabled(run.After(), RunCallback)
  {
    if run.Then? { TimeGoesOn(run.past); }
  }

  // A callback, however stale, closes an open connection exactly if no bytes
  // have moved for the timeout.
  lemma {:induction false} ExpiryIsDue(run: Run)
    requires run.Legal() && run.Then? && run.event.RunCallback? && !run.past.After().conn.closed
    ensures run.After().conn.closed <==> run.After().now - LastTraffic(run.past) >= Timeout(run)
  {
    ActivityIsTraffic(run.past);
  }

  // Close and expiry together close the wrapped connection at most once, and
  // once it is marked closed exactly one goroutine has done so or will.
  lemma {:induction false} ClosedOnce(run: Run)
    requires run.Legal()
    ensures var w := run.After(); w.closes <= 1 && (w.closes + w.closing == 1 <==> w.conn.closed)
  {
    RunInv(run);
  }

  // After a call of Close the connection is closed for good, its timer is
  // stopped, and the wrapped connection is closed or about to be.
  lemma {:induction false} CloseCloses(run: Run)
    requires run.Legal() && run.Then? && run.event.CallClose?
    ensures var before, now := run.past.After(), run.After();
      && now.conn.closed && now.closes + now.closing == 1
      && (!before.conn.closed ==> now.conn.timer == None && now.closing == before.closing + 1)
  {
    RunInv(run);
    RunInv(run.past);
  }

  lemma {:induction false} ClosedForGood(run: Run)
    requires run.Legal() && run.Then? && run.past.After().conn.closed
    ensures run.After().conn.closed && run.After().closes >= run.past.After().closes
  {
  }

  // A connection idle past its timeout can always be brought to its close by
  // the timer alone: fire if need be, run a callback, close.
  lemma OverdueConnectionCloses(run: Run) returns (more: Run)
    requires run.Legal() && !run.After().conn.closed
    requires run.After().now >= run.After().conn.lastActivity + run.After().conn.timeout
    ensures more.Legal() && more.After().closes == 1 && more.After().now == run.After().now
    ensures more == Then(Then(run, RunCallback), CloseUnderlying)
         || more == Then(Then(Then(run, Fire), RunCallback), CloseUnderlying)
  {
    RunInv(run);
    var fired := if run.After().callbacks > 0 then run else Then(run, Fire);
    RunInv(fired);
    RunInv(Then(fired, RunCallback));
    more := Then(Then(fired, RunCallback), CloseUnderlying);
  }

  // Traffic puts the expiry off by a full timeout: until then no sequence of
  // callbacks closes the connection, whatever was pending before.
  lemma {:induction false} TrafficPutsExpiryOff(run: Run, later: Run, at: int)
    requires run.Legal() && !run.After().conn.closed && run.After().conn.lastActivity >= at
    requires later.Legal() && OnlyTimer(later, run) && later.After().now < at + run.After().conn.timeout
    ensures !later.After().conn.closed && later.After().conn.lastActivity >= at
    ensures later.After().conn.timeout == run.After().conn.timeout
  {
    if later != run {
      RunInv(later.past);
      Forward(later);
      TrafficPutsExpiryOff(run, later.past, at);
    }
  }

  // later goes on from run without a call of Close.
  predicate OnlyTimer(later: Run, run: Run) {
    later == run || (later.Then? && !later.event.CallClose? && OnlyTimer(later.past, run))
  }

  lemma Forward(run: Run)
    requires run.Legal() && run.Then?
    ensures run.past.After().now <= run.After().now
  {
  }
}
