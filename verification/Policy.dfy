// policy.go and handler.go, resolveDestination: which destinations a stream
// or a packet may go to.
module Policy {
  import opened Wrappers
  import opened Net
  import Domains

  datatype PolicyError = InvalidDestination | PolicyDenied | PrivateDenied | ResolveFailed

  // The configured entries, and the prefixes compiled from the CIDR entries.
  datatype Config = Config(
    allowPrivateTargets: bool,
    allowCIDRs: seq<string>, denyCIDRs: seq<string>,
    allowPrefixes: seq<Prefix>, denyPrefixes: seq<Prefix>,
    allowPorts: seq<nat>, denyPorts: seq<nat>,
    allowDomains: seq<string>, denyDomains: seq<string>
  )

  // What compileCIDRPolicies leaves behind when it succeeds.
  ghost predicate Compiled(c: Config, parse: string -> Option<Prefix>) {
    CompiledFrom(c.allowCIDRs, c.allowPrefixes, parse) && CompiledFrom(c.denyCIDRs, c.denyPrefixes, parse)
  }

  ghost predicate CompiledFrom(cidrs: seq<string>, prefixes: seq<Prefix>, parse: string -> Option<Prefix>) {
    |prefixes| == |cidrs| && forall i :: 0 <= i < |cidrs| ==> parse(cidrs[i]) == Some(prefixes[i])
  }

  // Where no CIDR entry is configured there is no prefix either.
  predicate Provisioned(c: Config) {
    (c.allowCIDRs == [] ==> c.allowPrefixes == []) && (c.denyCIDRs == [] ==> c.denyPrefixes == [])
  }

  // Err names the first entry that does not parse.
  method ParseCIDRPrefixes(cidrs: seq<string>, parse: string -> Option<Prefix>) returns (r: Result<seq<Prefix>, nat>)
    ensures match r
      case Ok(prefixes) => CompiledFrom(cidrs, prefixes, parse)
      case Err(k) => k < |cidrs| && parse(cidrs[k]) == None && forall i :: 0 <= i < k ==> parse(cidrs[i]).Some?
  {
    var prefixes := [];
    for i := 0 to |cidrs|
      invariant |prefixes| == i
      invariant forall k :: 0 <= k < i ==> parse(cidrs[k]) == Some(prefixes[k])
    {
      var prefix := parse(cidrs[i]);
      if prefix == None {
        return Err(i);
      }
      prefixes := prefixes + [prefix.value];
    }
    return Ok(prefixes);
  }

  method CompileCIDRPolicies(c: Config, parse: string -> Option<Prefix>) returns (r: Option<Config>)
    ensures r.Some? <==> (forall i :: 0 <= i < |c.allowCIDRs| ==> parse(c.allowCIDRs[i]).Some?) &&
                         (forall i :: 0 <= i < |c.denyCIDRs| ==> parse(c.denyCIDRs[i]).Some?)
    ensures r.Some? ==> Compiled(r.value, parse) && Provisioned(r.value)
    ensures r.Some? ==> r.value == c.(allowPrefixes := r.value.allowPrefixes, denyPrefixes := r.value.denyPrefixes)
  {
    var allow := ParseCIDRPrefixes(c.allowCIDRs, parse);
    if allow.Err? {
      return None;
    }
    var deny := ParseCIDRPrefixes(c.denyCIDRs, parse);
    if deny.Err? {
      return None;
    }
    return Some(c.(allowPrefixes := allow.value, denyPrefixes := deny.value));
  }

  // ---- The matchers ----

  ghost predicate InSome(prefixes: seq<Prefix>, addr: Addr) {
    addr.IsValid() && exists i :: 0 <= i < |prefixes| && prefixes[i].Contains(addr.Unmap())
  }

  method MatchesCIDRPolicy(prefixes: seq<Prefix>, addr: Addr) returns (matches: bool)
    ensures matches == InSome(prefixes, addr)
  {
    if !addr.IsValid() {
      return false;
    }
    var unmapped := addr.Unmap();
    for i := 0 to |prefixes|
      invariant forall k :: 0 <= k < i ==> !prefixes[k].Contains(unmapped)
    {
      if prefixes[i].Contains(unmapped) {
        return true;
      }
    }
    return false;
  }

  const PRIVATE_PREFIXES: seq<Prefix> := [
    Prefix(V4(0x0a00_0000), 8),     // 10.0.0.0/8
    Prefix(V4(0xac10_0000), 12),    // 172.16.0.0/12
    Prefix(V4(0xc0a8_0000), 16),    // 192.168.0.0/16
    Prefix(V4(0x6440_0000), 10),    // 100.64.0.0/10
    Prefix(V4(0x7f00_0000), 8),     // 127.0.0.0/8
    Prefix(V4(0xa9fe_0000), 16),    // 169.254.0.0/16
    Prefix(V6(1, ""), 128),         // ::1/128
    Prefix(V6(0, ""), 128),         // ::/128
    Prefix(V6(0xfc00_0000_0000_0000_0000_0000_0000_0000, ""), 7),     // fc00::/7
    Prefix(V6(0xfe80_0000_0000_0000_0000_0000_0000_0000, ""), 10)     // fe80::/10
  ]

  ghost predicate InTable(a: Addr) { exists i :: 0 <= i < |PRIVATE_PREFIXES| && PRIVATE_PREFIXES[i].Contains(a) }

  predicate IsPrivateClass(a: Addr) {
    a.IsPrivate() || a.IsLoopback() || a.IsLinkLocalUnicast() || a.IsLinkLocalMulticast() ||
    a.IsUnspecified() || a.IsMulticast()
  }

  ghost predicate IsPrivateAddr(a: Addr) {
    a.IsValid() && (IsPrivateClass(a.Unmap()) || InTable(a.Unmap()))
  }

  method IsPrivateDestination(destination: Socksaddr) returns (private: bool)
    ensures private == IsPrivateAddr(destination.addr)
  {
    if !destination.addr.IsValid() {
      return false;
    }
    var addr := destination.addr.Unmap();
    if IsPrivateClass(addr) {
      return true;
    }
    for i := 0 to |PRIVATE_PREFIXES|
      invariant forall k :: 0 <= k < i ==> !PRIVATE_PREFIXES[k].Contains(addr)
    {
      if PRIVATE_PREFIXES[i].Contains(addr) {
        return true;
      }
    }
    return false;
  }

  // ---- The policy as a whole, said declaratively ----

  ghost predicate NameAndPortAllowed(c: Config, d: Socksaddr) {
    && d.port !in c.denyPorts
    && (c.allowPorts != [] ==> d.port in c.allowPorts)
    && (d.fqdn != "" ==>
          && !Domains.SomeMatches(c.denyDomains, d.fqdn)
          && (c.allowDomains != [] ==> Domains.SomeMatches(c.allowDomains, d.fqdn)))
  }

  ghost predicate AddressAllowed(c: Config, a: Addr) {
    && !InSome(c.denyPrefixes, a)
    && (IsPrivateAddr(a) && !c.allowPrivateTargets ==> InSome(c.allowPrefixes, a))
    && (c.allowPrefixes != [] ==> InSome(c.allowPrefixes, a))
  }

  // The resolver's answer for a name; an address stands for itself.
  function Resolved(d: Socksaddr, lookup: Option<seq<Addr>>): Result<seq<Socksaddr>, PolicyError> {
    if d.addr.IsValid() then Ok([d])
    else if lookup == None || lookup.value == [] then Err(ResolveFailed)
    else Ok(seq(|lookup.value|, i requires 0 <= i < |lookup.value| => Socksaddr("", lookup.value[i], d.port)))
  }

  ghost predicate Permitted(c: Config, d: Socksaddr, lookup: Option<seq<Addr>>) {
    && d.IsValid() && d.port != 0
    && NameAndPortAllowed(c, d)
    && Resolved(d, lookup).Ok?
    && forall i :: 0 <= i < |Resolved(d, lookup).value| ==> AddressAllowed(c, Resolved(d, lookup).value[i].addr)
  }

  // The resolved destinations are the resolver's addresses, all of them and in
  // its order, with the port that was asked for.
  lemma ResolvedInOrder(d: Socksaddr, lookup: Option<seq<Addr>>)
    ensures d.addr.IsValid() ==> Resolved(d, lookup) == Ok([d])
    ensures !d.addr.IsValid() ==>
      match Resolved(d, lookup)
      case Err(e) => e == ResolveFailed && (lookup == None || lookup == Some([]))
      case Ok(ds) =>
        && lookup.Some? && |ds| == |lookup.value| > 0
        && forall i :: 0 <= i < |ds| ==> ds[i].addr == lookup.value[i] && ds[i].port == d.port && ds[i].fqdn == ""
  {
  }

  // ---- The validators ----

  method ValidateNameAndPortPolicy(c: Config, d: Socksaddr) returns (ok: bool)
    ensures ok == NameAndPortAllowed(c, d)
  {
    if d.port in c.denyPorts {
      return false;
    }
    if |c.allowPorts| > 0 && d.port !in c.allowPorts {
      return false;
    }
    if d.fqdn == "" {
      return true;
    }
    var denied := Domains.MatchesDomainPolicy(c.denyDomains, d.fqdn);
    if denied {
      return false;
    }
    var allowed := Domains.MatchesDomainPolicy(c.allowDomains, d.fqdn);
    return |c.allowDomains| == 0 || allowed;
  }

  predicate NeedsCIDRPolicy(c: Config) {
    |c.allowCIDRs| > 0 || |c.denyCIDRs| > 0 || !c.allowPrivateTargets
  }

  ghost predicate RefusedAsPrivate(c: Config, a: Addr) {
    IsPrivateAddr(a) && !c.allowPrivateTargets && !InSome(c.allowPrefixes, a)
  }

  // The error of the second pass: that of the first address not allowed.
  ghost function FirstRefusal(c: Config, destinations: seq<Socksaddr>): Option<PolicyError> {
    if destinations == [] then None
    else
      var a := destinations[0].addr;
      if AddressAllowed(c, a) then FirstRefusal(c, destinations[1..])
      else if RefusedAsPrivate(c, a) then Some(PrivateDenied)
      else Some(PolicyDenied)
  }

  ghost predicate SomeDenied(c: Config, ds: seq<Socksaddr>) {
    exists i :: 0 <= i < |ds| && InSome(c.denyPrefixes, ds[i].addr)
  }

  // A denied address anywhere outweighs all else.
  ghost function Refusal(c: Config, destinations: seq<Socksaddr>): Option<PolicyError> {
    if SomeDenied(c, destinations) then Some(PolicyDenied)
    else FirstRefusal(c, destinations)
  }

  lemma {:induction false} RefusalIsExact(c: Config, destinations: seq<Socksaddr>)
    ensures FirstRefusal(c, destinations) == None <==>
      forall i :: 0 <= i < |destinations| ==> AddressAllowed(c, destinations[i].addr)
    ensures FirstRefusal(c, destinations) in {None, Some(PrivateDenied), Some(PolicyDenied)}
  {
    if destinations != [] {
      RefusalIsExact(c, destinations[1..]);
      assert forall i :: 1 <= i < |destinations| ==> destinations[i] == destinations[1..][i - 1];
    }
  }

  method ValidateResolvedDestinationPolicy(c: Config, destinations: seq<Socksaddr>) returns (r: Option<PolicyError>)
    ensures r == Refusal(c, destinations)
    ensures r == None <==> forall i :: 0 <= i < |destinations| ==> AddressAllowed(c, destinations[i].addr)
  {
    for i := 0 to |destinations|
      invariant forall k :: 0 <= k < i ==> !InSome(c.denyPrefixes, destinations[k].addr)
    {
      var denied := MatchesCIDRPolicy(c.denyPrefixes, destinations[i].addr);
      if denied {
        return Some(PolicyDenied);
      }
    }
    for i := 0 to |destinations|
      invariant forall k :: 0 <= k < i ==> AddressAllowed(c, destinations[k].addr)
      invariant FirstRefusal(c, destinations) == FirstRefusal(c, destinations[i..])
    {
      assert destinations[i..][1..] == destinations[i + 1..];
      var private := IsPrivateDestination(destinations[i]);
      var allowedCIDR := MatchesCIDRPolicy(c.allowPrefixes, destinations[i].addr);
      if private && !c.allowPrivateTargets && !allowedCIDR {
        return Some(PrivateDenied);
      }
      if |c.allowPrefixes| > 0 && !allowedCIDR {
        return Some(PolicyDenied);
      }
    }
    return None;
  }

  method ResolveDestination(d: Socksaddr, lookup: Option<seq<Addr>>) returns (r: Result<seq<Socksaddr>, PolicyError>)
    ensures r == Resolved(d, lookup)
  {
    if d.addr.IsValid() {
      return Ok([d]);
    }
    if lookup == None || |lookup.value| == 0 {
      return Err(ResolveFailed);
    }
    var addresses := lookup.value;
    var destinations := [];
    for i := 0 to |addresses|
      invariant |destinations| == i
      invariant forall k :: 0 <= k < i ==> destinations[k] == Socksaddr("", addresses[k], d.port)
    {
      destinations := destinations + [Socksaddr("", addresses[i], d.port)];
    }
    assert destinations == Resolved(d, lookup).value;
    return Ok(destinations);
  }

  method ValidateDestination(c: Config, d: Socksaddr, lookup: Option<seq<Addr>>)
    returns (r: Result<seq<Socksaddr>, PolicyError>)
    requires Provisioned(c)
    ensures r.Ok? <==> Permitted(c, d, lookup)
    ensures r.Ok? ==> r == Resolved(d, lookup) && r.value != []
    ensures r == Err(InvalidDestination) <==> !d.IsValid() || d.port == 0
    ensures d.IsValid() && d.port != 0 && !NameAndPortAllowed(c, d) ==> r == Err(PolicyDenied)
    ensures d.IsValid() && d.port != 0 && NameAndPortAllowed(c, d) ==>
      r == match Resolved(d, lookup)
           case Err(e) => Err(e)
           case Ok(destinations) =>
             if Refusal(c, destinations) == None then Ok(destinations) else Err(Refusal(c, destinations).value)
  {
    if !d.IsValid() || d.port == 0 {
      return Err(InvalidDestination);
    }
    var ok := ValidateNameAndPortPolicy(c, d);
    if !ok {
      return Err(PolicyDenied);
    }
    if c.allowPrivateTargets && !NeedsCIDRPolicy(c) {
      r := ResolveDestination(d, lookup);
      if r.Ok? { RefusalIsExact(c, r.value); }
      return;
    }
    r := ResolveDestination(d, lookup);
    if r.Err? {
      return;
    }
    RefusalIsExact(c, r.value);
    var refused := ValidateResolvedDestinationPolicy(c, r.value);
    if refused.Some? {
      return Err(refused.value);
    }
  }

  // ---- What the policy is for ----

  // The verdict is about the set of addresses, not their order.
  lemma OrderDoesNotMatter(c: Config, d: Socksaddr, a: seq<Addr>, b: seq<Addr>)
    requires forall x :: x in a <==> x in b
    ensures Permitted(c, d, Some(a)) <==> Permitted(c, d, Some(b))
  {
    if !d.addr.IsValid() {
      assert a == [] <==> b == [] by {
        if a != [] { assert a[0] in b; }
        if b != [] { assert b[0] in a; }
      }
      if a != [] {
        ResolvedAllowed(c, d, a);
        ResolvedAllowed(c, d, b);
      }
    }
  }

  lemma ResolvedAllowed(c: Config, d: Socksaddr, a: seq<Addr>)
    requires !d.addr.IsValid() && a != []
    ensures var r := Resolved(d, Some(a)).value;
      (forall i :: 0 <= i < |r| ==> AddressAllowed(c, r[i].addr)) <==> (forall x :: x in a ==> AddressAllowed(c, x))
  {
    var r := Resolved(d, Some(a)).value;
    if forall i :: 0 <= i < |r| ==> AddressAllowed(c, r[i].addr) {
      forall x | x in a ensures AddressAllowed(c, x) {
        var i :| 0 <= i < |a| && a[i] == x;
        assert r[i].addr == x;
      }
    }
    if forall x :: x in a ==> AddressAllowed(c, x) {
      forall i | 0 <= i < |r| ensures AddressAllowed(c, r[i].addr) {
        assert a[i] in a;
      }
    }
  }

  // A configuration without any rule lets every destination through that has
  // a port and an address, its own or one its name resolves to.
  lemma NoRulesPermitAll(c: Config, d: Socksaddr, lookup: Option<seq<Addr>>)
    requires c == Config(true, [], [], [], [], [], [], [], [])
    ensures Permitted(c, d, lookup) <==>
      d.port != 0 && (d.addr != Invalid || (d.fqdn != "" && lookup.Some? && lookup.value != []))
  {
  }

  lemma InMore(prefixes: seq<Prefix>, more: seq<Prefix>, a: Addr)
    requires forall p :: p in prefixes ==> p in more
    ensures InSome(prefixes, a) ==> InSome(more, a)
  {
    if InSome(prefixes, a) {
      var i :| 0 <= i < |prefixes| && prefixes[i].Contains(a.Unmap());
      assert prefixes[i] in more;
    }
  }

  lemma MatchesMore(patterns: seq<string>, more: seq<string>, name: string)
    requires forall p :: p in patterns ==> p in more
    ensures Domains.SomeMatches(patterns, name) ==> Domains.SomeMatches(more, name)
  {
    if Domains.SomeMatches(patterns, name) {
      var i :| 0 <= i < |patterns| && Domains.PatternMatches(Domains.Normal(patterns[i]), Domains.Normal(name));
      assert patterns[i] in more;
    }
  }

  // d denies at least what c denies, and is otherwise the same.
  ghost predicate DeniesMore(c: Config, d: Config) {
    && d == c.(denyPorts := d.denyPorts, denyDomains := d.denyDomains, denyPrefixes := d.denyPrefixes, denyCIDRs := d.denyCIDRs)
    && (forall p :: p in c.denyPorts ==> p in d.denyPorts)
    && (forall p :: p in c.denyDomains ==> p in d.denyDomains)
    && (forall p :: p in c.denyPrefixes ==> p in d.denyPrefixes)
  }

  lemma DenyingMoreAcceptsNoMore(c: Config, d: Config, dest: Socksaddr, lookup: Option<seq<Addr>>)
    requires DeniesMore(c, d) && Permitted(d, dest, lookup)
    ensures Permitted(c, dest, lookup)
  {
    MatchesMore(c.denyDomains, d.denyDomains, dest.fqdn);
    forall i | 0 <= i < |Resolved(dest, lookup).value| ensures AddressAllowed(c, Resolved(dest, lookup).value[i].addr) {
      InMore(c.denyPrefixes, d.denyPrefixes, Resolved(dest, lookup).value[i].addr);
    }
  }

  // d has the allow lists of c that were in use, each at least as long.
  ghost predicate AllowsMore(c: Config, d: Config) {
    && d == c.(allowPorts := d.allowPorts, allowDomains := d.allowDomains, allowPrefixes := d.allowPrefixes, allowCIDRs := d.allowCIDRs)
    && (c.allowPorts == [] <==> d.allowPorts == [])
    && (c.allowDomains == [] <==> d.allowDomains == [])
    && (c.allowPrefixes == [] <==> d.allowPrefixes == [])
    && (forall p :: p in c.allowPorts ==> p in d.allowPorts)
    && (forall p :: p in c.allowDomains ==> p in d.allowDomains)
    && (forall p :: p in c.allowPrefixes ==> p in d.allowPrefixes)
  }

  lemma AllowingMoreRefusesNoMore(c: Config, d: Config, dest: Socksaddr, lookup: Option<seq<Addr>>)
    requires AllowsMore(c, d) && Permitted(c, dest, lookup)
    ensures Permitted(d, dest, lookup)
  {
    MatchesMore(c.allowDomains, d.allowDomains, dest.fqdn);
    forall i | 0 <= i < |Resolved(dest, lookup).value| ensures AddressAllowed(d, Resolved(dest, lookup).value[i].addr) {
      InMore(c.allowPrefixes, d.allowPrefixes, Resolved(dest, lookup).value[i].addr);
    }
  }

  // ---- The private ranges, flat ----

  predicate Between(lo: nat, x: nat, hi: nat) { lo <= x <= hi }

  // Thirteen blocks, told by address class, table and zone together.
  predicate InPrivateBlock(a: Addr) {
    match a
    case V4(b) =>
      || b == 0
      || Between(0x0a00_0000, b, 0x0aff_ffff)    // 10.0.0.0/8
      || Between(0x6440_0000, b, 0x647f_ffff)    // 100.64.0.0/10
      || Between(0x7f00_0000, b, 0x7fff_ffff)    // 127.0.0.0/8
      || Between(0xa9fe_0000, b, 0xa9fe_ffff)    // 169.254.0.0/16
      || Between(0xac10_0000, b, 0xac1f_ffff)    // 172.16.0.0/12
      || Between(0xc0a8_0000, b, 0xc0a8_ffff)    // 192.168.0.0/16
      || Between(0xe000_0000, b, 0xefff_ffff)    // 224.0.0.0/4
    case V6(b, zone) =>
      || (b == 0 && zone == "")
      || b == 1
      || Between(0xfc00, a.Head(), 0xfdff)       // fc00::/7
      || Between(0xfe80, a.Head(), 0xfebf)       // fe80::/10
      || Between(0xff00, a.Head(), 0xffff)       // ff00::/8
    case Invalid => false
  }

  lemma TableV4(b: U32)
    ensures InTable(V4(b)) <==>
      Between(0x0a00_0000, b, 0x0aff_ffff) || Between(0xac10_0000, b, 0xac1f_ffff) ||
      Between(0xc0a8_0000, b, 0xc0a8_ffff) || Between(0x6440_0000, b, 0x647f_ffff) ||
      Between(0x7f00_0000, b, 0x7fff_ffff) || Between(0xa9fe_0000, b, 0xa9fe_ffff)
  {
    Pow2Small();
    TableRows(V4(b));
    SameHeadIsBlock(0x0a, 0xa000000, b, 24);
    SameHeadIsBlock(0xac1, 0xac100000, b, 20);
    SameHeadIsBlock(0xc0a8, 0xc0a80000, b, 16);
    SameHeadIsBlock(0x191, 0x64400000, b, 22);
    SameHeadIsBlock(0x7f, 0x7f000000, b, 24);
    SameHeadIsBlock(0xa9fe, 0xa9fe0000, b, 16);
  }

  lemma TableRows(a: Addr)
    ensures var t := PRIVATE_PREFIXES; InTable(a) <==>
      t[0].Contains(a) || t[1].Contains(a) || t[2].Contains(a) || t[3].Contains(a) || t[4].Contains(a) ||
      t[5].Contains(a) || t[6].Contains(a) || t[7].Contains(a) || t[8].Contains(a) || t[9].Contains(a)
  {
  }

  lemma TableV6(b: U128, zone: string)
    ensures InTable(V6(b, zone)) <==>
      zone == "" && (b <= 1 || Between(0xfc00, V6(b, zone).Head(), 0xfdff) || Between(0xfe80, V6(b, zone).Head(), 0xfebf))
  {
    Pow2Small();
    Pow2Large();
    TableRows(V6(b, zone));
  }

  lemma ClassesV4(b: U32)
    ensures IsPrivateClass(V4(b)) <==>
      || Between(0x0a00_0000, b, 0x0aff_ffff) || Between(0xac10_0000, b, 0xac1f_ffff)
      || Between(0xc0a8_0000, b, 0xc0a8_ffff) || Between(0x7f00_0000, b, 0x7fff_ffff)
      || Between(0xa9fe_0000, b, 0xa9fe_ffff) || b == 0 || Between(0xe000_0000, b, 0xefff_ffff)
  {
  }

  lemma ClassesV6(b: U128, zone: string)
    ensures IsPrivateClass(V6(b, zone)) <==>
      || (b == 0 && zone == "") || b == 1 || Between(0xfc00, V6(b, zone).Head(), 0xfdff)
      || Between(0xfe80, V6(b, zone).Head(), 0xfebf) || Between(0xff00, V6(b, zone).Head(), 0xffff)
  {
  }

  lemma PrivateIsFlat(a: Addr)
    ensures IsPrivateAddr(a) <==> InPrivateBlock(a.Unmap())
  {
    match a.Unmap() {
      case V4(b) => TableV4(b); ClassesV4(b);
      case V6(b, zone) => TableV6(b, zone); ClassesV6(b, zone);
      case Invalid =>
    }
  }

  // An IPv4-mapped address has the verdict of the address it carries.
  lemma MappedAddressIsTheSame(c: Config, b: U32, zone: string)
    ensures var mapped := V6(0xffff_0000_0000 + b, zone);
      && (IsPrivateAddr(mapped) <==> IsPrivateAddr(V4(b)))
      && (forall prefixes :: InSome(prefixes, mapped) <==> InSome(prefixes, V4(b)))
      && (AddressAllowed(c, mapped) <==> AddressAllowed(c, V4(b)))
  {
    UnmapCarries(b, zone);
  }

  // ---- The reason of a refusal ----

  ghost predicate SomeRefusedAsPrivate(c: Config, ds: seq<Socksaddr>) {
    exists i :: 0 <= i < |ds| && RefusedAsPrivate(c, ds[i].addr)
  }

  ghost predicate SomeRefusedOtherwise(c: Config, ds: seq<Socksaddr>) {
    exists i :: 0 <= i < |ds| && !AddressAllowed(c, ds[i].addr) && !RefusedAsPrivate(c, ds[i].addr)
  }

  ghost predicate Reordered(ds: seq<Socksaddr>, es: seq<Socksaddr>) { multiset(ds) == multiset(es) }

  lemma ReorderedKeeps(c: Config, ds: seq<Socksaddr>, es: seq<Socksaddr>)
    requires Reordered(ds, es)
    ensures SomeDenied(c, ds) ==> SomeDenied(c, es)
    ensures SomeRefusedAsPrivate(c, ds) ==> SomeRefusedAsPrivate(c, es)
    ensures SomeRefusedOtherwise(c, ds) ==> SomeRefusedOtherwise(c, es)
  {
    forall i | 0 <= i < |ds| ensures exists j :: 0 <= j < |es| && es[j] == ds[i] {
      assert ds[i] in multiset(ds) && ds[i] in multiset(es);
    }
  }

  // Where the refusals are all of one kind, that kind is the reason.
  lemma {:induction false} OneReason(c: Config, ds: seq<Socksaddr>)
    requires !(SomeRefusedAsPrivate(c, ds) && SomeRefusedOtherwise(c, ds))
    ensures FirstRefusal(c, ds) ==
      if SomeRefusedAsPrivate(c, ds) then Some(PrivateDenied)
      else if SomeRefusedOtherwise(c, ds) then Some(PolicyDenied)
      else None
  {
    if ds != [] {
      var rest := ds[1..];
      assert forall i :: 0 <= i < |rest| ==> rest[i] == ds[i + 1];
      assert forall i :: 1 <= i < |ds| ==> ds[i] == rest[i - 1];
      OneReason(c, rest);
    }
  }

  lemma ToFront(ds: seq<Socksaddr>, i: nat) returns (es: seq<Socksaddr>)
    requires i < |ds|
    ensures Reordered(ds, es) && es != [] && es[0] == ds[i]
  {
    es := [ds[i]] + ds[..i] + ds[i + 1..];
    assert ds == ds[..i] + [ds[i]] + ds[i + 1..];
  }

  ghost predicate ReasonIgnoresOrder(c: Config, ds: seq<Socksaddr>) {
    forall es :: Reordered(ds, es) ==> Refusal(c, es) == Refusal(c, ds)
  }

  // Acceptance never depends on the order of the addresses. The reason of a
  // refusal depends on it exactly if no address is denied and one is refused
  // for being private and another for not being allowed.
  lemma ReasonDependsOnMixture(c: Config, ds: seq<Socksaddr>)
    ensures ReasonIgnoresOrder(c, ds) <==>
      SomeDenied(c, ds) || !(SomeRefusedAsPrivate(c, ds) && SomeRefusedOtherwise(c, ds))
  {
    if SomeDenied(c, ds) || !(SomeRefusedAsPrivate(c, ds) && SomeRefusedOtherwise(c, ds)) {
      forall es | Reordered(ds, es) ensures Refusal(c, es) == Refusal(c, ds) {
        ReorderedKeeps(c, ds, es);
        ReorderedKeeps(c, es, ds);
        if !SomeDenied(c, ds) {
          OneReason(c, ds);
          OneReason(c, es);
        }
      }
    } else {
      var i :| 0 <= i < |ds| && RefusedAsPrivate(c, ds[i].addr);
      var j :| 0 <= j < |ds| && !AddressAllowed(c, ds[j].addr) && !RefusedAsPrivate(c, ds[j].addr);
      var a := ToFront(ds, i);
      var b := ToFront(ds, j);
      ReorderedKeeps(c, a, ds);
      ReorderedKeeps(c, b, ds);
      assert Refusal(c, a) == Some(PrivateDenied) && Refusal(c, b) == Some(PolicyDenied);
    }
  }

  // The mixture occurs: 8.8.8.8/32 is allowed, and 10.0.0.1 and 1.1.1.1 are asked for.
  const ONE_ALLOWED := Config(false, ["8.8.8.8/32"], [], [Prefix(V4(0x0808_0808), 32)], [], [], [], [], [])

  lemma NotAllowed(a: U32)
    requires a != 0x0808_0808
    ensures !InSome(ONE_ALLOWED.allowPrefixes, V4(a)) && !InSome(ONE_ALLOWED.denyPrefixes, V4(a))
  {
    assert Pow2(0) == 1;
  }

  lemma RefusalReasonDependsOnOrder()
    ensures var private, public := Socksaddr("", V4(0x0a00_0001), 443), Socksaddr("", V4(0x0101_0101), 443);
      && Refusal(ONE_ALLOWED, [private, public]) == Some(PrivateDenied)
      && Refusal(ONE_ALLOWED, [public, private]) == Some(PolicyDenied)
  {
    NotAllowed(0x0a00_0001);
    NotAllowed(0x0101_0101);
    PrivateIsFlat(V4(0x0a00_0001));
    PrivateIsFlat(V4(0x0101_0101));
  }
}
