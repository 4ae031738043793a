// handler.go, NewConnectionEx and handleUDPOverTCP, with the relays of
// relay.go and uot.go they end in: what becomes of the stream slot, of the
// two connections and of the caller's onClose on every path.
module Handler {
  import opened Wrappers

  // What was done so far for one stream.
  datatype Ledger = Ledger(
    acquired: bool,          // acquireStream returned true
    closed: bool,            // closeOnce has been called
    slotReleases: nat,       // calls of releaseStream
    onCloseCalls: nat,       // calls of the caller's onClose
    failureReports: nat,
    hasOutbound: bool,            // a dialed connection or a packet socket exists
    inboundCloses: nat,
    outboundCloses: nat,
    doneCloses: nat          // closing done a second time would panic
  )

  const Untouched := Ledger(false, false, 0, 0, 0, false, 0, 0, 0)

  // How a stream ends well: everything it took is given back, once.
  predicate Settled(l: Ledger, hasCallback: bool) {
    && l.slotReleases == One(l.acquired)
    && l.onCloseCalls == One(hasCallback)
    && l.inboundCloses == 1
    && l.outboundCloses == One(l.hasOutbound)
    && l.doneCloses <= 1
  }

  // The slot and the callback, as long as nobody but closeOnce deals with them.
  predicate OnlyOnce(l: Ledger, hasCallback: bool) {
    l.slotReleases == One(l.closed) && l.onCloseCalls == One(l.closed && hasCallback)
  }

  // closeOnce: releaseStream and onClose under a sync.Once. However many
  // calls came before, after this one both were done once.
  method CloseOnce(l: Ledger, hasCallback: bool) returns (l': Ledger)
    requires OnlyOnce(l, hasCallback)
    ensures OnlyOnce(l', hasCallback)
    ensures l' == l.(closed := true, slotReleases := 1, onCloseCalls := One(hasCallback))
  {
    l' := l;
    if !l'.closed {
      l' := l'.(closed := true, slotReleases := l'.slotReleases + 1);
      if hasCallback {
        l' := l'.(onCloseCalls := l'.onCloseCalls + 1);
      }
    }
  }

  // ---- The relay: three goroutines, one shutdown ----

  // What ends a relay from outside: its context, the end or an error of the
  // copy out of the stream, and of the copy into it.
  datatype Ends = Ends(context: bool, outward: bool, inward: bool) {
    predicate Any() { context || outward || inward }
  }

  // Goroutine 0 watches the context; 1 and 2 copy, one in each direction.
  datatype Pc =
    | Working
    | Calling              // has called closeAll, not yet past once.Do
    | Closing(step: nat)   // inside once.Do
    | Exited

  datatype Once = Free | Busy(inside: nat) | Over

  function Rank(pc: Pc): nat {
    match pc
    case Working => 6
    case Calling => 5
    case Closing(step) => if step < 4 then 4 - step else 0
    case Exited => 0
  }

  // Goroutine t can go on: the watcher when the context has ended or done is
  // closed, a copy when it has come to its end or a connection of its was
  // closed, a caller of closeAll only while nobody is inside.
  predicate CanStep(pcs: seq<Pc>, once: Once, ends: Ends, l: Ledger, t: nat)
    requires |pcs| == 3 && t < 3
  {
    match pcs[t]
    case Working =>
      if t == 0 then ends.context || l.doneCloses > 0
      else (if t == 1 then ends.outward else ends.inward) || l.inboundCloses > 0 || l.outboundCloses > 0
    case Calling => !once.Busy?
    case Closing(_) => true
    case Exited => false
  }

  // The ledger of a relay after the first `step` actions of closeAll.
  function Shutdown(hasCallback: bool, step: nat): Ledger {
    Ledger(true, step >= 2, One(step >= 2), One(step >= 2 && hasCallback), 0,
           true, One(step >= 3), One(step >= 4), One(step >= 1))
  }

  // One goroutine at most is inside closeAll, the ledger shows how far it
  // has come, and nobody leaves before it is through.
  predicate Racing(hasCallback: bool, l: Ledger, pcs: seq<Pc>, once: Once) {
    && |pcs| == 3
    && match once
       case Free =>
         l == Shutdown(hasCallback, 0) && forall t :: 0 <= t < 3 ==> pcs[t].Working? || pcs[t].Calling?
       case Busy(inside) =>
         && inside < 3 && pcs[inside].Closing? && pcs[inside].step < 4
         && l == Shutdown(hasCallback, pcs[inside].step)
         && forall t :: 0 <= t < 3 && t != inside ==>
              !pcs[t].Closing? && (pcs[t].Exited? ==> t == 0 && l.doneCloses > 0)
       case Over =>
         l == Shutdown(hasCallback, 4) && forall t :: 0 <= t < 3 ==> !pcs[t].Closing?
  }

  // Once something ends the relay, no goroutine is left waiting.
  lemma SomebodyCanStep(hasCallback: bool, l: Ledger, pcs: seq<Pc>, once: Once, ends: Ends)
    requires Racing(hasCallback, l, pcs, once) && ends.Any()
    ensures (forall t :: 0 <= t < 3 ==> !CanStep(pcs, once, ends, l, t)) <==>
      once.Over? && forall t :: 0 <= t < 3 ==> pcs[t].Exited?
  {
    match once {
      case Free =>
        var t := if ends.context then 0 else if ends.outward then 1 else 2;
        assert CanStep(pcs, once, ends, l, t);
      case Busy(inside) => assert CanStep(pcs, once, ends, l, inside);
      case Over =>
        if t :| 0 <= t < 3 && !pcs[t].Exited? {
          assert CanStep(pcs, once, ends, l, t);
        }
    }
  }

  // One step of goroutine t.
  method StepRelay(hasCallback: bool, l: Ledger, pcs: seq<Pc>, once: Once, ends: Ends, t: nat)
    returns (l': Ledger, pc: Pc, once': Once)
    requires t < 3 && Racing(hasCallback, l, pcs, once) && CanStep(pcs, once, ends, l, t)
    ensures Racing(hasCallback, l', pcs[t := pc], once')
    ensures Rank(pc) < Rank(pcs[t])
  {
    l', pc, once' := l, Exited, once;
    match pcs[t] {
      case Working =>
        if {
          case t != 0 || ends.context => pc := Calling;
          case t == 0 && l.doneCloses > 0 =>
        }
      case Calling =>
        if once.Free? {
          pc, once' := Closing(0), Busy(t);
        }
      case Closing(step) =>
        l' := CloseAllAction(hasCallback, l, step);
        if step < 3 {
          pc := Closing(step + 1);
        } else {
          once' := Over;
        }
    }
  }

  // The actions under closeAll's own sync.Once, in order.
  method CloseAllAction(hasCallback: bool, l: Ledger, step: nat) returns (l': Ledger)
    requires step < 4 && l == Shutdown(hasCallback, step)
    ensures l' == Shutdown(hasCallback, step + 1)
  {
    if step == 0 {
      l' := l.(doneCloses := l.doneCloses + 1);
    } else if step == 1 {
      l' := CloseOnce(l, hasCallback);
    } else if step == 2 {
      l' := l.(inboundCloses := l.inboundCloses + 1);
    } else {
      l' := l.(outboundCloses := l.outboundCloses + 1);
    }
  }

  // relay and relayUDPOverTCP. Which goroutine runs next is arbitrary. If
  // nothing ends it, it goes on; else it shuts down completely.
  method Relay(hasCallback: bool, before: Ledger, ends: Ends) returns (l: Ledger)
    requires before == Shutdown(hasCallback, 0)
    ensures l == if ends.Any() then Shutdown(hasCallback, 4) else before
  {
    var pcs, once := [Working, Working, Working], Free;
    l := before;
    while exists t :: 0 <= t < 3 && CanStep(pcs, once, ends, l, t)
      invariant Racing(hasCallback, l, pcs, once)
      invariant !ends.Any() ==> l == before && pcs == [Working, Working, Working]
      decreases Rank(pcs[0]) + Rank(pcs[1]) + Rank(pcs[2])
    {
      var t: nat :| t < 3 && CanStep(pcs, once, ends, l, t);
      var pc;
      l, pc, once := StepRelay(hasCallback, l, pcs, once, ends, t);
      pcs := pcs[t := pc];
    }
    if ends.Any() { SomebodyCanStep(hasCallback, l, pcs, once, ends); }
  }

  // ---- The paths of the two handlers ----

  // How the outside answers: is there room for the stream, does a UDP-over-TCP
  // request parse and pass its policy, does the dial or the listen succeed,
  // does the success report get through.
  datatype Answers = Answers(slotFree: bool, udp: bool, requestOk: bool, openOk: bool, ackOk: bool)

  predicate Opened(a: Answers) { a.slotFree && (a.udp ==> a.requestOk) && a.openOk }

  predicate Established(a: Answers) { Opened(a) && a.ackOk }

  // A stream whose relay nothing ends keeps what it has; on every other path
  // all is given back.
  predicate Accounted(l: Ledger, a: Answers, hasCallback: bool, ends: Ends) {
    && l.acquired == a.slotFree
    && l.hasOutbound == Opened(a)
    && l.failureReports == One(!Opened(a))
    && if Established(a) && !ends.Any() then l == Untouched.(acquired := true, hasOutbound := true)
       else Settled(l, hasCallback) && l.doneCloses == One(Established(a))
  }

  method NewConnectionEx(a: Answers, hasCallback: bool, ends: Ends) returns (l: Ledger)
    ensures Accounted(l, a, hasCallback, ends)
  {
    l := Untouched;
    if !a.slotFree {
      l := l.(failureReports := l.failureReports + 1);
      if hasCallback {
        l := l.(onCloseCalls := l.onCloseCalls + 1);
      }
      return l.(inboundCloses := l.inboundCloses + 1);
    }
    l := l.(acquired := true);
    if a.udp {
      l := HandleUDPOverTCP(l, a, hasCallback, ends);
      return;
    }
    if !a.openOk {
      l := Refuse(l, hasCallback);
      return;
    }
    l := l.(hasOutbound := true);
    if !a.ackOk {
      l := Abandon(l, hasCallback);
      return;
    }
    l := Relay(hasCallback, l, ends);
  }

  method HandleUDPOverTCP(before: Ledger, a: Answers, hasCallback: bool, ends: Ends) returns (l: Ledger)
    requires before == Untouched.(acquired := true) && a.slotFree && a.udp
    ensures Accounted(l, a, hasCallback, ends)
  {
    l := before;
    if !a.requestOk || !a.openOk {
      l := Refuse(l, hasCallback);
      return;
    }
    l := l.(hasOutbound := true);
    if !a.ackOk {
      l := Abandon(l, hasCallback);
      return;
    }
    l := Relay(hasCallback, l, ends);
  }

  // Nothing was opened: report the failure, close once, close the stream.
  method Refuse(before: Ledger, hasCallback: bool) returns (l: Ledger)
    requires before == Untouched.(acquired := true)
    ensures Settled(l, hasCallback) && l.acquired && !l.hasOutbound && l.failureReports == 1 && l.doneCloses == 0
  {
    l := before.(failureReports := before.failureReports + 1);
    l := CloseOnce(l, hasCallback);
    l := l.(inboundCloses := l.inboundCloses + 1);
  }

  // The success report failed: close what was opened, then as above.
  method Abandon(before: Ledger, hasCallback: bool) returns (l: Ledger)
    requires before == Untouched.(acquired := true, hasOutbound := true)
    ensures Settled(l, hasCallback) && l.acquired && l.hasOutbound && l.failureReports == 0 && l.doneCloses == 0
  {
    l := before.(outboundCloses := before.outboundCloses + 1);
    l := CloseOnce(l, hasCallback);
    l := l.(inboundCloses := l.inboundCloses + 1);
  }
}
