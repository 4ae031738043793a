// handler.go, interleaveAddressFamilies: the order in which the resolved
// addresses of one destination are dialed (section 4 of RFC 8305).
module Interleave {
  import opened Net

  // The addresses of one family, in their original order.
  function OfFamily(ds: seq<Socksaddr>, six: bool): (r: seq<Socksaddr>)
    ensures |r| <= |ds|
    ensures forall i :: 0 <= i < |r| ==> r[i].Is6() == six
  {
    if ds == [] then []
    else if ds[0].Is6() == six then [ds[0]] + OfFamily(ds[1..], six)
    else OfFamily(ds[1..], six)
  }

  function Alternate(preferred: seq<Socksaddr>, alternate: seq<Socksaddr>): seq<Socksaddr> {
    if preferred == [] then alternate
    else if alternate == [] then preferred
    else [preferred[0], alternate[0]] + Alternate(preferred[1..], alternate[1..])
  }

  function Interleaved(ds: seq<Socksaddr>): seq<Socksaddr> {
    if |ds| < 2 then ds
    else Alternate(OfFamily(ds, ds[0].Is6()), OfFamily(ds, !ds[0].Is6()))
  }

  method InterleaveAddressFamilies(destinations: seq<Socksaddr>) returns (interleaved: seq<Socksaddr>)
    ensures interleaved == Interleaved(destinations)
  {
    if |destinations| < 2 {
      return destinations;
    }
    var firstIsIPv6 := destinations[0].Is6();
    var preferred, alternate := [], [];
    for i := 0 to |destinations|
      invariant preferred == OfFamily(destinations[..i], firstIsIPv6)
      invariant alternate == OfFamily(destinations[..i], !firstIsIPv6)
    {
      var destination := destinations[i];
      OfFamilyAppend(destinations[..i], destination, firstIsIPv6);
      OfFamilyAppend(destinations[..i], destination, !firstIsIPv6);
      assert destinations[..i + 1] == destinations[..i] + [destination];
      if destination.Is6() == firstIsIPv6 {
        preferred := preferred + [destination];
      } else {
        alternate := alternate + [destination];
      }
    }
    assert destinations[..|destinations|] == destinations;
    ghost var target := Alternate(preferred, alternate);
    interleaved := [];
    while |preferred| > 0 || |alternate| > 0
      invariant interleaved + Alternate(preferred, alternate) == target
      decreases |preferred| + |alternate|
    {
      AlternateRound(interleaved, preferred, alternate);
      if |preferred| > 0 {
        interleaved := interleaved + [preferred[0]];
        preferred := preferred[1..];
      }
      if |alternate| > 0 {
        interleaved := interleaved + [alternate[0]];
        alternate := alternate[1..];
      }
    }
    assert interleaved + [] == target;
  }

  lemma AlternateRound(done: seq<Socksaddr>, p: seq<Socksaddr>, a: seq<Socksaddr>)
    requires p != [] || a != []
    ensures
      var done1 := if p == [] then done else done + [p[0]];
      var done2 := if a == [] then done1 else done1 + [a[0]];
      done2 + Alternate(if p == [] then p else p[1..], if a == [] then a else a[1..]) == done + Alternate(p, a)
  {
    if p == [] {
      assert a == [a[0]] + a[1..];
    } else if a == [] {
      assert p == [p[0]] + p[1..];
      assert Alternate(p[1..], []) == p[1..];
    }
  }

  lemma {:induction false} OfFamilyAppend(ds: seq<Socksaddr>, d: Socksaddr, six: bool)
    ensures OfFamily(ds + [d], six) == OfFamily(ds, six) + if d.Is6() == six then [d] else []
  {
    if ds == [] {
      assert ds + [d] == [d];
    } else {
      assert (ds + [d])[1..] == ds[1..] + [d];
      OfFamilyAppend(ds[1..], d, six);
    }
  }

  // What the dial order is meant to be, said without an algorithm: each
  // family keeps its own order, the first address stays first, and the first
  // time two neighbours share a family only that family is left.
  ghost predicate AlternatesUntilExhausted(r: seq<Socksaddr>) { Alternates(r, |r|) }

  // The same for the neighbours among the first n.
  ghost predicate Alternates(r: seq<Socksaddr>, n: nat) {
    forall i, j :: 0 <= i < j < |r| && i + 1 < n && r[i].Is6() == r[i + 1].Is6() ==> r[j].Is6() == r[i].Is6()
  }

  ghost predicate IsInterleaving(ds: seq<Socksaddr>, r: seq<Socksaddr>) {
    && OfFamily(r, true) == OfFamily(ds, true)
    && OfFamily(r, false) == OfFamily(ds, false)
    && (ds != [] ==> r != [] && r[0] == ds[0])
    && AlternatesUntilExhausted(r)
  }

  lemma {:induction false} AlternateKeepsFamilies(p: seq<Socksaddr>, a: seq<Socksaddr>, six: bool)
    requires forall i :: 0 <= i < |p| ==> p[i].Is6() == six
    requires forall i :: 0 <= i < |a| ==> a[i].Is6() == !six
    ensures OfFamily(Alternate(p, a), six) == p
    ensures OfFamily(Alternate(p, a), !six) == a
  {
    if p == [] {
      OneFamily(a, !six);
    } else if a == [] {
      OneFamily(p, six);
    } else {
      var rest := Alternate(p[1..], a[1..]);
      AlternateKeepsFamilies(p[1..], a[1..], six);
      OfFamilyOfRound(p[0], a[0], rest, six);
      assert [p[0]] + p[1..] == p && [a[0]] + a[1..] == a;
    }
  }

  lemma OfFamilyOfRound(x: Socksaddr, y: Socksaddr, rest: seq<Socksaddr>, six: bool)
    requires x.Is6() == six && y.Is6() == !six
    ensures OfFamily([x, y] + rest, six) == [x] + OfFamily(rest, six)
    ensures OfFamily([x, y] + rest, !six) == [y] + OfFamily(rest, !six)
  {
    var r := [x, y] + rest;
    assert r[1..] == [y] + rest && r[1..][1..] == rest;
  }

  lemma {:induction false} AlternateAlternates(p: seq<Socksaddr>, a: seq<Socksaddr>, six: bool)
    requires forall i :: 0 <= i < |p| ==> p[i].Is6() == six
    requires forall i :: 0 <= i < |a| ==> a[i].Is6() == !six
    ensures p != [] ==> Alternate(p, a) != [] && Alternate(p, a)[0] == p[0]
    ensures AlternatesUntilExhausted(Alternate(p, a))
  {
    if p != [] && a != [] {
      AlternateAlternates(p[1..], a[1..], six);
      PrependRound(p[0], a[0], Alternate(p[1..], a[1..]));
    }
  }

  lemma PrependRound(x: Socksaddr, y: Socksaddr, rest: seq<Socksaddr>)
    requires x.Is6() != y.Is6() && AlternatesUntilExhausted(rest)
    requires rest != [] && rest[0].Is6() == y.Is6() ==> forall i :: 0 <= i < |rest| ==> rest[i].Is6() == y.Is6()
    ensures AlternatesUntilExhausted([x, y] + rest)
  {
    var r := [x, y] + rest;
    forall i, j | 0 <= i < j < |r| && r[i].Is6() == r[i + 1].Is6()
      ensures r[j].Is6() == r[i].Is6()
    {
      if i > 1 {
        assert rest[i - 2].Is6() == rest[i - 1].Is6();
        assert r[j] == rest[j - 2];
      }
    }
  }

  lemma {:induction false} OneFamily(r: seq<Socksaddr>, six: bool)
    requires forall i :: 0 <= i < |r| ==> r[i].Is6() == six
    ensures OfFamily(r, six) == r && OfFamily(r, !six) == []
  {
    if r != [] { OneFamily(r[1..], six); }
  }

  lemma InterleavedIsInterleaving(ds: seq<Socksaddr>)
    ensures IsInterleaving(ds, Interleaved(ds))
  {
    if |ds| >= 2 {
      var six := ds[0].Is6();
      AlternateKeepsFamilies(OfFamily(ds, six), OfFamily(ds, !six), six);
      AlternateAlternates(OfFamily(ds, six), OfFamily(ds, !six), six);
    }
  }

  // The description determines the order completely; what holds of the first
  // n addresses determines these.
  lemma {:induction false} SameInterleaving(r: seq<Socksaddr>, s: seq<Socksaddr>, n: nat)
    requires OfFamily(r, true) == OfFamily(s, true) && OfFamily(r, false) == OfFamily(s, false)
    requires Alternates(r, n) && AlternatesUntilExhausted(s) && n <= |r| == |s|
    requires r != [] && s != [] ==> r[0].Is6() == s[0].Is6()
    ensures r[..n] == s[..n]
  {
    if n > 0 {
      SameFirst(r, s);
      if n > 1 {
        TailAlternates(r, n);
        TailAlternates(s, |s|);
        SameSecond(r, s, n);
        SameInterleaving(r[1..], s[1..], n - 1);
      }
      assert r[..n] == [r[0]] + r[1..][..n - 1] && s[..n] == [s[0]] + s[1..][..n - 1];
    }
  }

  lemma SameFirst(r: seq<Socksaddr>, s: seq<Socksaddr>)
    requires OfFamily(r, true) == OfFamily(s, true) && OfFamily(r, false) == OfFamily(s, false)
    requires r != [] && s != [] && r[0].Is6() == s[0].Is6()
    ensures r[0] == s[0]
    ensures OfFamily(r[1..], true) == OfFamily(s[1..], true) && OfFamily(r[1..], false) == OfFamily(s[1..], false)
  {
    var six := r[0].Is6();
    assert r[0] == OfFamily(r, six)[0] == OfFamily(s, six)[0] == s[0];
    assert OfFamily(r[1..], six) == OfFamily(r, six)[1..] == OfFamily(s[1..], six);
    assert OfFamily(r[1..], !six) == OfFamily(s[1..], !six);
  }

  lemma SameSecond(r: seq<Socksaddr>, s: seq<Socksaddr>, n: nat)
    requires OfFamily(r, true) == OfFamily(s, true) && OfFamily(r, false) == OfFamily(s, false)
    requires Alternates(r, n) && AlternatesUntilExhausted(s) && 1 < n <= |r| == |s|
    requires r[0].Is6() == s[0].Is6()
    ensures r[1].Is6() == s[1].Is6()
  {
    var six := r[0].Is6();
    if r[1].Is6() == six { AllAlike(r, n); OneFamily(r, six); Exhausted(s, six); }
    if s[1].Is6() == six { AllAlike(s, |s|); OneFamily(s, six); Exhausted(r, six); }
  }

  lemma AllAlike(r: seq<Socksaddr>, n: nat)
    requires Alternates(r, n) && 1 < n <= |r| && r[0].Is6() == r[1].Is6()
    ensures forall i :: 0 <= i < |r| ==> r[i].Is6() == r[0].Is6()
  {
    assert r[0].Is6() == r[0 + 1].Is6();
  }

  lemma TailAlternates(r: seq<Socksaddr>, n: nat)
    requires r != [] && 0 < n <= |r| && Alternates(r, n)
    ensures Alternates(r[1..], n - 1)
  {
    var t := r[1..];
    forall i, j | 0 <= i < j < |t| && i + 1 < n - 1 && t[i].Is6() == t[i + 1].Is6()
      ensures t[j].Is6() == t[i].Is6()
    {
      assert r[i + 1].Is6() == r[i + 2].Is6();
    }
  }

  lemma {:induction false} Exhausted(r: seq<Socksaddr>, six: bool)
    requires OfFamily(r, !six) == []
    ensures forall i :: 0 <= i < |r| ==> r[i].Is6() == six
  {
    if r != [] {
      Exhausted(r[1..], six);
      assert forall i :: 1 <= i < |r| ==> r[i] == r[1..][i - 1];
    }
  }

  lemma InterleavingIsUnique(ds: seq<Socksaddr>, r: seq<Socksaddr>)
    ensures IsInterleaving(ds, r) <==> r == Interleaved(ds)
  {
    InterleavedIsInterleaving(ds);
    if IsInterleaving(ds, r) {
      var s := Interleaved(ds);
      SameLength(r, s);
      SameInterleaving(r, s, |r|);
      assert r == r[..|r|] == s[..|r|] == s;
    }
  }

  lemma SameLength(r: seq<Socksaddr>, s: seq<Socksaddr>)
    requires OfFamily(r, true) == OfFamily(s, true) && OfFamily(r, false) == OfFamily(s, false)
    ensures multiset(r) == multiset(s) && |r| == |s|
  {
    FamiliesPartition(r);
    FamiliesPartition(s);
    assert |multiset(r)| == |multiset(s)|;
  }

  // The first n addresses are dialed in the resolver's order exactly if that
  // order alternates among them until one family is exhausted.
  lemma ResolverOrderIff(ds: seq<Socksaddr>, n: nat)
    requires n <= |ds|
    ensures |Interleaved(ds)| == |ds|
    ensures Interleaved(ds)[..n] == ds[..n] <==> Alternates(ds, n)
  {
    var r := Interleaved(ds);
    InterleavedIsInterleaving(ds);
    InterleavingIsPermutation(ds);
    if Alternates(ds, n) {
      SameInterleaving(ds, r, n);
    }
    if r[..n] == ds[..n] {
      forall i, j | 0 <= i < j < |ds| && i + 1 < n && ds[i].Is6() == ds[i + 1].Is6()
        ensures ds[j].Is6() == ds[i].Is6()
      {
        SameRest(ds, r, i + 2, j);
      }
    }
  }

  // Lists of the same addresses with the same start have the same rest, in
  // some order.
  lemma SameRest(ds: seq<Socksaddr>, r: seq<Socksaddr>, k: nat, j: nat)
    requires multiset(ds) == multiset(r) && |ds| == |r| && j < |ds|
    requires exists n :: k <= n <= |ds| && r[..n] == ds[..n]
    ensures (j < k && ds[j] == r[j]) || exists l :: k <= l < |r| && r[l] == ds[j]
  {
    var n :| k <= n <= |ds| && r[..n] == ds[..n];
    assert r[..k] == r[..n][..k] == ds[..n][..k] == ds[..k];
    if j < k {
      assert ds[j] == ds[..k][j] == r[..k][j] == r[j];
    } else {
      SameTail(ds, r, k);
      assert ds[j] == ds[k..][j - k];
      assert ds[j] in multiset(ds[k..]) && ds[j] in multiset(r[k..]);
      var l :| 0 <= l < |r| - k && r[k..][l] == ds[j];
      assert r[k + l] == ds[j];
    }
  }

  lemma SameTail(ds: seq<Socksaddr>, r: seq<Socksaddr>, k: nat)
    requires multiset(ds) == multiset(r) && k <= |ds| == |r| && r[..k] == ds[..k]
    ensures multiset(ds[k..]) == multiset(r[k..])
  {
    assert r == r[..k] + r[k..] && ds == ds[..k] + ds[k..];
    assert multiset(r) - multiset(r[..k]) == multiset(r[k..]);
    assert multiset(ds) - multiset(ds[..k]) == multiset(ds[k..]);
  }

  lemma ResolverOrderIsNotKept(a: Socksaddr, b: Socksaddr, c: Socksaddr)
    requires !a.Is6() && !b.Is6() && c.Is6()
    ensures Interleaved([a, b, c]) == [a, c, b]
    ensures Interleaved([a, b, c]) != [a, b, c]
  {
    var ds := [a, b, c];
    assert ds[1..] == [b, c] && [b, c][1..] == [c];
    assert OfFamily([c], true) == [c] && OfFamily([c], false) == [];
    assert OfFamily([b, c], true) == [c] && OfFamily([b, c], false) == [b] + [];
    assert OfFamily(ds, true) == [c] && OfFamily(ds, false) == [a] + [b];
    assert [a, b][1..] == [b] && [c][1..] == [];
    assert Alternate([a, b], [c]) == [a, c] + [b];
  }

  lemma InterleavingIsIdempotent(ds: seq<Socksaddr>)
    ensures Interleaved(Interleaved(ds)) == Interleaved(ds)
  {
    var r := Interleaved(ds);
    InterleavedIsInterleaving(ds);
    InterleavingIsUnique(r, r);
  }

  lemma {:induction false} FamiliesPartition(ds: seq<Socksaddr>)
    ensures multiset(ds) == multiset(OfFamily(ds, true)) + multiset(OfFamily(ds, false))
  {
    if ds != [] {
      var six := ds[0].Is6();
      FamiliesPartition(ds[1..]);
      assert ds == [ds[0]] + ds[1..];
      assert multiset(ds) == multiset{ds[0]} + multiset(ds[1..]);
      assert multiset(OfFamily(ds, six)) == multiset{ds[0]} + multiset(OfFamily(ds[1..], six));
    }
  }

  lemma InterleavingIsPermutation(ds: seq<Socksaddr>)
    ensures multiset(Interleaved(ds)) == multiset(ds)
    ensures |Interleaved(ds)| == |ds|
  {
    InterleavedIsInterleaving(ds);
    SameLength(Interleaved(ds), ds);
  }
}
