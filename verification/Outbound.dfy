// handler.go: dialContext and preparePacketDestination from the requested
// destination to the addresses that are really used.
module Outbound {
  import opened Wrappers
  import opened Net
  import Dialer
  import Interleave
  import PacketRelay
  import Policy

  // dial(k) is what the dial of the k-th address in dialing order sends.
  method DialContext(c: Policy.Config, d: Socksaddr, lookup: Option<seq<Addr>>, dial: nat -> Dialer.DialResult)
    returns (conn: Option<Socksaddr>, refused: Option<Policy.PolicyError>, dialed: seq<Socksaddr>,
             ghost results: seq<Dialer.DialResult>, ghost run: Dialer.Run)
    requires Policy.Provisioned(c)
    ensures refused == None <==> Policy.Permitted(c, d, lookup)
    ensures refused.Some? ==> dialed == [] && conn == None
    ensures refused == None ==>
      && results != [] && run.Legal(results) && Dialer.Finished(run.After(results))
      && Policy.Resolved(d, lookup).Ok? && |results| == |Policy.Resolved(d, lookup).value|
      && (forall k :: 0 <= k < |results| ==> results[k] == dial(k))
      && |dialed| == run.After(results).next <= |results|
      && dialed <= Interleave.Interleaved(Policy.Resolved(d, lookup).value)
      && (conn.Some? <==> run.After(results).phase.Won?)
      && (conn.Some? ==> run.After(results).phase.winner < |dialed| && conn.value == dialed[run.After(results).phase.winner])
    ensures refused == None ==> dialed != [] && dialed[0] == Policy.Resolved(d, lookup).value[0]
    ensures forall k :: 0 <= k < |dialed| ==> Policy.AddressAllowed(c, dialed[k].addr) && dialed[k].port == d.port
  {
    conn, refused, dialed, results, run := None, None, [], [], Dialer.Begin;
    var resolved := Policy.ValidateDestination(c, d, lookup);
    if resolved.Err? {
      refused := Some(resolved.error);
      return;
    }
    var answers := seq(|resolved.value|, k requires 0 <= k => dial(k));
    results := answers;
    var winner, errs, expired, closed;
    winner, errs, expired, dialed, closed, run := Dialer.DialContext(resolved.value, answers);
    DialedIsAllowed(c, d, lookup, |dialed|);
    Dialer.RunInv(results, run);
    Interleave.InterleavedIsInterleaving(resolved.value);
    if winner.Some? {
      conn := Some(dialed[winner.value]);
    }
  }

  lemma DialedIsAllowed(c: Policy.Config, d: Socksaddr, lookup: Option<seq<Addr>>, n: nat)
    requires Policy.Permitted(c, d, lookup)
    requires n <= |Interleave.Interleaved(Policy.Resolved(d, lookup).value)|
    ensures forall k :: 0 <= k < n ==>
      var a := Interleave.Interleaved(Policy.Resolved(d, lookup).value)[k];
      Policy.AddressAllowed(c, a.addr) && a.port == d.port
  {
    var resolved := Policy.Resolved(d, lookup).value;
    var order := Interleave.Interleaved(resolved);
    Interleave.InterleavingIsPermutation(resolved);
    forall k | 0 <= k < n ensures Policy.AddressAllowed(c, order[k].addr) && order[k].port == d.port {
      assert order[k] in multiset(resolved);
      var i :| 0 <= i < |resolved| && resolved[i] == order[k];
    }
  }

  datatype PacketError = Refused(error: Policy.PolicyError) | NotResolved

  // What a packet is sent to for the first resolved address. An address that
  // is not valid goes through the system's resolver, as text.
  function UdpAddress(first: Socksaddr, resolveUdp: Socksaddr -> Option<Addr>): Result<Socksaddr, PacketError> {
    if first.addr.IsValid() then Ok(first)
    else match resolveUdp(first)
      case Some(a) => Ok(Socksaddr("", a, first.port))
      case None => Err(NotResolved)
  }

  method PreparePacketDestination(c: Policy.Config, d: Socksaddr, lookup: Option<seq<Addr>>,
                                  resolveUdp: Socksaddr -> Option<Addr>)
    returns (r: Result<Socksaddr, PacketError>)
    requires Policy.Provisioned(c)
    ensures (r.Err? && r.error.Refused?) <==> !Policy.Permitted(c, d, lookup)
    ensures Policy.Permitted(c, d, lookup) ==> r == UdpAddress(Policy.Resolved(d, lookup).value[0], resolveUdp)
  {
    var resolved := Policy.ValidateDestination(c, d, lookup);
    if resolved.Err? {
      return Err(Refused(resolved.error));
    }
    var first := resolved.value[0];
    if first.addr.IsValid() {
      return Ok(first);
    }
    var answer := resolveUdp(first);
    if answer == None {
      return Err(NotResolved);
    }
    return Ok(Socksaddr("", answer.value, first.port));
  }

  ghost predicate PreparedIsAllowed(c: Policy.Config, first: Socksaddr, resolveUdp: Socksaddr -> Option<Addr>) {
    var r := UdpAddress(first, resolveUdp);
    r.Ok? ==> Policy.AddressAllowed(c, r.value.addr) && r.value.port == first.port
  }

  // The policy has no rule about addresses that any address could break.
  ghost predicate AnyAddressAllowed(c: Policy.Config) {
    && c.allowPrivateTargets
    && c.allowPrefixes == []
    && forall a :: !Policy.InSome(c.denyPrefixes, a)
  }

  // Whatever the system's resolver answers, the packet goes to an address the
  // policy allows: exactly if the address that passed is a valid one, or the
  // policy restricts no address.
  lemma PreparedIsAllowedIff(c: Policy.Config, d: Socksaddr, lookup: Option<seq<Addr>>)
    requires Policy.Permitted(c, d, lookup)
    ensures var first := Policy.Resolved(d, lookup).value[0];
      (forall resolveUdp :: PreparedIsAllowed(c, first, resolveUdp)) <==>
        first.addr.IsValid() || AnyAddressAllowed(c)
  {
    var first := Policy.Resolved(d, lookup).value[0];
    assert first.port == d.port && Policy.AddressAllowed(c, first.addr);
    if !first.addr.IsValid() {
      assert c.allowPrefixes == [];
      if !c.allowPrivateTargets {
        Policy.PrivateIsFlat(V4(0));
        var zero := (x: Socksaddr) => Some(V4(0));
        assert !PreparedIsAllowed(c, first, zero);
      } else if a :| Policy.InSome(c.denyPrefixes, a) {
        var denied := (x: Socksaddr) => Some(a);
        assert !PreparedIsAllowed(c, first, denied);
      }
    }
  }

  // Through the cache as well, every packet goes to an address that passed
  // the policy when it was prepared.
  lemma CachedPacketsObeyPolicy<P>(c: Policy.Config, arrivals: seq<PacketRelay.Arrival<Socksaddr, P>>)
    requires forall a :: a in arrivals && a.prepared.Ok? ==> Policy.AddressAllowed(c, a.prepared.value.addr)
    ensures forall w :: w in PacketRelay.Cached(arrivals, 0).0 ==> Policy.AddressAllowed(c, w.1.addr)
  {
    PacketRelay.WritesGoWhereAnswersPoint(arrivals, (a: Socksaddr) => Policy.AddressAllowed(c, a.addr));
  }
}
