// uot.go, proxyUOTToPacket: packets from the tunnel are written to addresses
// that prepareDestination returned, remembered for 30 seconds by destination.
module PacketRelay {
  import opened Wrappers

  const MAX_CACHED_DESTINATIONS: nat := 256
  const TTL: int := 30   // seconds

  // One packet and the surroundings it meets: the string of its destination,
  // what prepareDestination would answer if asked for this packet, the time
  // of the expiry check, the time once that answer is in, and whether the
  // write fails. The sequence of arrivals ends where ReadPacket fails.
  datatype Arrival<A, P> = Arrival(
    key: string, payload: P,
    prepared: Result<A, int>,
    checkedAt: int, preparedAt: int,
    writeFails: bool
  )

  datatype Exit = ReadFailed | PrepareFailed(error: int) | WriteFailed

  datatype CacheEntry<A> = CacheEntry(addr: A, expiresAt: int)

  // ---- The loop without a cache ----

  function Uncached<A, P>(arrivals: seq<Arrival<A, P>>): (seq<(P, A)>, Exit) {
    if arrivals == [] then ([], ReadFailed)
    else
      var a := arrivals[0];
      if a.prepared.Err? then ([], PrepareFailed(a.prepared.error))
      else if a.writeFails then ([], WriteFailed)
      else Prefixed([(a.payload, a.prepared.value)], Uncached(arrivals[1..]))
  }

  function Prefixed<A, P>(before: seq<(P, A)>, rest: (seq<(P, A)>, Exit)): (seq<(P, A)>, Exit) {
    (before + rest.0, rest.1)
  }

  // ---- Whose answer a packet uses ----

  // Packet k may go to the answer given for packet i.
  predicate Covers<A, P>(arrivals: seq<Arrival<A, P>>, i: nat, k: nat)
    requires i < |arrivals| && k < |arrivals|
  {
    && arrivals[i].key == arrivals[k].key
    && (i == k || (i < k && arrivals[k].checkedAt <= arrivals[i].preparedAt + TTL))
  }

  // The packets whose answers are remembered when packet n arrives, by
  // destination. Only keys and times matter.
  function Remembered<A, P>(arrivals: seq<Arrival<A, P>>, n: nat): (m: map<string, nat>)
    requires n <= |arrivals|
    ensures forall key :: key in m ==> m[key] < n && arrivals[m[key]].key == key
  {
    if n == 0 then map[]
    else
      var m, key := Remembered(arrivals, n - 1), arrivals[n - 1].key;
      if key in m && Covers(arrivals, m[key], n - 1) then m
      else (if |m| >= MAX_CACHED_DESTINATIONS then map[] else m)[key := n - 1]
  }

  // The packet whose answer packet k is written with.
  function Source<A, P>(arrivals: seq<Arrival<A, P>>, k: nat): (i: nat)
    requires k < |arrivals|
    ensures i <= k && Covers(arrivals, i, k)
  {
    var m, key := Remembered(arrivals, k), arrivals[k].key;
    if key in m && Covers(arrivals, m[key], k) then m[key] else k
  }

  lemma GrowsByOne<K, V>(m: map<K, V>, k: K, v: V)
    ensures |m[k := v]| <= |m| + 1
  {
    assert m[k := v].Keys == m.Keys + {k};
  }

  lemma {:induction false} CacheStaysSmall<A, P>(arrivals: seq<Arrival<A, P>>, n: nat)
    requires n <= |arrivals|
    ensures |Remembered(arrivals, n)| <= MAX_CACHED_DESTINATIONS
  {
    if n > 0 {
      var m := Remembered(arrivals, n - 1);
      CacheStaysSmall(arrivals, n - 1);
      GrowsByOne(if |m| >= MAX_CACHED_DESTINATIONS then map[] else m, arrivals[n - 1].key, n - 1);
    }
  }

  // Whoever is remembered asked for its answer itself.
  lemma {:induction false} RememberedAsked<A, P>(arrivals: seq<Arrival<A, P>>, n: nat, key: string)
    requires n <= |arrivals| && key in Remembered(arrivals, n)
    ensures Source(arrivals, Remembered(arrivals, n)[key]) == Remembered(arrivals, n)[key]
  {
    if Remembered(arrivals, n)[key] < n - 1 { RememberedAsked(arrivals, n - 1, key); }
  }

  lemma SourcesAsked<A, P>(arrivals: seq<Arrival<A, P>>, k: nat)
    requires k < |arrivals|
    ensures Source(arrivals, Source(arrivals, k)) == Source(arrivals, k)
  {
    if Source(arrivals, k) < k { RememberedAsked(arrivals, k, arrivals[k].key); }
  }

  // Thirty seconds after its answer a packet's successor still uses it, later
  // it asks anew.
  lemma ThirtySeconds<A, P>(a: Arrival<A, P>, b: Arrival<A, P>)
    requires a.key == b.key
    ensures Source([a, b], 1) == if b.checkedAt <= a.preparedAt + 30 then 0 else 1
  {
    assert Remembered([a, b], 0) == map[] && Remembered([a, b], 1) == map[a.key := 0];
  }

  // The first n packets go to different destinations.
  ghost predicate AllDifferent<A, P>(arrivals: seq<Arrival<A, P>>, n: nat)
    requires n <= |arrivals|
  {
    forall i, k :: 0 <= i < k < n ==> arrivals[i].key != arrivals[k].key
  }

  ghost predicate RemembersAll<A, P>(arrivals: seq<Arrival<A, P>>, n: nat, m: map<string, nat>)
    requires n <= |arrivals|
  {
    |m| == n && forall i :: 0 <= i < n ==> arrivals[i].key in m && m[arrivals[i].key] == i
  }

  lemma {:induction false} DifferentAreRemembered<A, P>(arrivals: seq<Arrival<A, P>>, n: nat)
    requires n <= |arrivals| && n <= 256 && AllDifferent(arrivals, n)
    ensures RemembersAll(arrivals, n, Remembered(arrivals, n))
  {
    if n > 0 {
      DifferentAreRemembered(arrivals, n - 1);
      OneMoreRemembered(arrivals, n - 1, Remembered(arrivals, n - 1));
    }
  }

  lemma OneMoreRemembered<A, P>(arrivals: seq<Arrival<A, P>>, n: nat, m: map<string, nat>)
    requires n < |arrivals| && AllDifferent(arrivals, n + 1) && RemembersAll(arrivals, n, m)
    requires forall key :: key in m ==> m[key] < n && arrivals[m[key]].key == key
    ensures arrivals[n].key !in m && RemembersAll(arrivals, n + 1, m[arrivals[n].key := n])
  {
    assert arrivals[n].key !in m;
    NewKey(m, arrivals[n].key, n);
  }

  lemma NewKey<K, V>(m: map<K, V>, k: K, v: V)
    requires k !in m
    ensures |m[k := v]| == |m| + 1
  {
    assert m[k := v].Keys == m.Keys + {k};
  }

  // 256 destinations are remembered together; whatever is asked for next
  // makes all others forgotten.
  lemma TheNextOneClears<A, P>(arrivals: seq<Arrival<A, P>>)
    requires |arrivals| > 256 && AllDifferent(arrivals, 256)
    ensures RemembersAll(arrivals, 256, Remembered(arrivals, 256))
    ensures Source(arrivals, 256) == 256 ==> Remembered(arrivals, 257) == map[arrivals[256].key := 256]
  {
    DifferentAreRemembered(arrivals, 256);
  }

  // n packets at one time to n destinations, then one to the first of them.
  function Tour(n: nat): seq<Arrival<int, int>> {
    seq(n + 1, i requires 0 <= i <= n =>
      Arrival(seq(if i == n then 0 else i, _ => 'x'), i, Ok(i), 0, 0, false))
  }

  // With 256 destinations the last packet still uses the first one's answer,
  // with 257 it asks anew.
  lemma RoomFor256()
    ensures Source(Tour(256), 256) == 0
  {
    KeysOfTour(256);
    DifferentAreRemembered(Tour(256), 256);
  }

  lemma NoRoomFor257()
    ensures Source(Tour(257), 257) == 257
  {
    KeysOfTour(257);
    FirstIsForgotten(Tour(257));
  }

  lemma FirstIsForgotten<A, P>(arrivals: seq<Arrival<A, P>>)
    requires |arrivals| == 258 && AllDifferent(arrivals, 257) && arrivals[257].key == arrivals[0].key
    ensures Source(arrivals, 257) == 257
  {
    LastIsNew(arrivals, Remembered(arrivals, 256));
    TheNextOneClears(arrivals);
    assert arrivals[0].key != arrivals[256].key;
  }

  lemma LastIsNew<A, P>(arrivals: seq<Arrival<A, P>>, m: map<string, nat>)
    requires |arrivals| > 256 && AllDifferent(arrivals, 257)
    requires forall key :: key in m ==> m[key] < 256 && arrivals[m[key]].key == key
    ensures arrivals[256].key !in m
  {
  }

  lemma KeysOfTour(n: nat)
    ensures |Tour(n)| == n + 1 && AllDifferent(Tour(n), n)
    ensures forall i :: 0 <= i < n ==> |Tour(n)[i].key| == i
    ensures n > 0 ==> Tour(n)[n].key == Tour(n)[0].key
  {
    var a := Tour(n);
    forall i, k | 0 <= i < k < n ensures a[i].key != a[k].key {
      assert |a[i].key| == i && |a[k].key| == k;
    }
  }

  // The latest packet before n for this destination, or -1.
  function Latest<A, P>(arrivals: seq<Arrival<A, P>>, n: nat, key: string): (j: int)
    requires n <= |arrivals|
    ensures -1 <= j < n && (j >= 0 ==> arrivals[j].key == key)
  {
    if n == 0 then -1 else if arrivals[n - 1].key == key then n - 1 else Latest(arrivals, n - 1, key)
  }

  ghost function Keys<A, P>(arrivals: seq<Arrival<A, P>>): set<string> {
    set a | a in arrivals :: a.key
  }

  lemma RememberedKeysWereSeen<A, P>(arrivals: seq<Arrival<A, P>>, n: nat)
    requires n <= |arrivals|
    ensures |Remembered(arrivals, n)| <= |Keys(arrivals)|
  {
    var m := Remembered(arrivals, n);
    forall x | x in m.Keys ensures x in Keys(arrivals) {
      assert arrivals[m[x]] in arrivals;
    }
    assert Keys(arrivals) == m.Keys + (Keys(arrivals) - m.Keys);
  }

  lemma {:induction false} RememberedIsLatest<A, P>(arrivals: seq<Arrival<A, P>>, n: nat, key: string)
    requires n <= |arrivals| && |Keys(arrivals)| < MAX_CACHED_DESTINATIONS
    ensures var m, j := Remembered(arrivals, n), Latest(arrivals, n, key);
      && (key in m <==> j >= 0)
      && (j >= 0 ==> m[key] == Source(arrivals, j))
  {
    if n > 0 {
      RememberedKeysWereSeen(arrivals, n - 1);
      RememberedStep(arrivals, n - 1, key);
      RememberedIsLatest(arrivals, n - 1, key);
    }
  }

  // Without a clear, a packet changes what is remembered of its destination.
  lemma RememberedStep<A, P>(arrivals: seq<Arrival<A, P>>, n: nat, key: string)
    requires n < |arrivals| && |Remembered(arrivals, n)| < MAX_CACHED_DESTINATIONS
    ensures var m, m' := Remembered(arrivals, n), Remembered(arrivals, n + 1);
      if key == arrivals[n].key then key in m' && m'[key] == Source(arrivals, n)
      else key in m' <==> key in m
    ensures var m, m' := Remembered(arrivals, n), Remembered(arrivals, n + 1);
      key != arrivals[n].key && key in m ==> m'[key] == m[key]
  {
  }

  // While the cache has room for all destinations, each packet uses what its
  // predecessor for the same destination used, or asks anew if that has run
  // out.
  lemma FewDestinations<A, P>(arrivals: seq<Arrival<A, P>>, k: nat)
    requires k < |arrivals| && |Keys(arrivals)| < MAX_CACHED_DESTINATIONS
    ensures var j := Latest(arrivals, k, arrivals[k].key);
      Source(arrivals, k) ==
        if j >= 0 && arrivals[k].checkedAt <= arrivals[Source(arrivals, j)].preparedAt + TTL
        then Source(arrivals, j) else k
  {
    RememberedIsLatest(arrivals, k, arrivals[k].key);
  }

  // ---- The loop with the cache ----

  // From packet n on.
  function Cached<A, P>(arrivals: seq<Arrival<A, P>>, n: nat): (seq<(P, A)>, Exit)
    requires n <= |arrivals|
    decreases |arrivals| - n
  {
    if n == |arrivals| then ([], ReadFailed)
    else
      var answer := arrivals[Source(arrivals, n)].prepared;
      if answer.Err? then ([], PrepareFailed(answer.error))
      else if arrivals[n].writeFails then ([], WriteFailed)
      else Prefixed([(arrivals[n].payload, answer.value)], Cached(arrivals, n + 1))
  }

  // The cache before packet n holds the remembered answers and their expiry.
  ghost predicate Holds<A, P>(arrivals: seq<Arrival<A, P>>, n: nat, cache: map<string, CacheEntry<A>>)
    requires n <= |arrivals|
  {
    var m := Remembered(arrivals, n);
    && cache.Keys == m.Keys
    && forall key :: key in cache ==>
         arrivals[m[key]].prepared == Ok(cache[key].addr) && cache[key].expiresAt == arrivals[m[key]].preparedAt + TTL
  }

  // Looking up the cache, or asking and remembering the answer.
  method Resolve<A, P>(arrivals: seq<Arrival<A, P>>, n: nat, cache: map<string, CacheEntry<A>>)
    returns (answer: Result<A, int>, cache': map<string, CacheEntry<A>>)
    requires n < |arrivals| && Holds(arrivals, n, cache)
    ensures answer == arrivals[Source(arrivals, n)].prepared
    ensures if answer.Ok? then Holds(arrivals, n + 1, cache') else cache' == cache
    ensures |cache'| <= MAX_CACHED_DESTINATIONS
  {
    var packet := arrivals[n];
    var key := packet.key;
    CacheStaysSmall(arrivals, n);
    SameSize(cache, Remembered(arrivals, n));
    cache' := cache;
    if key in cache && packet.checkedAt <= cache[key].expiresAt {
      return Ok(cache[key].addr), cache;
    }
    answer := packet.prepared;
    if answer.Err? {
      return;
    }
    if |cache| >= MAX_CACHED_DESTINATIONS {
      cache' := map[];
    }
    GrowsByOne(cache', key, CacheEntry(answer.value, packet.preparedAt + TTL));
    cache' := cache'[key := CacheEntry(answer.value, packet.preparedAt + TTL)];
  }

  lemma SameSize<K, V, W>(m: map<K, V>, w: map<K, W>)
    ensures m.Keys == w.Keys ==> |m| == |w|
  {
  }

  // One pass of the loop over a packet: what it writes, or why it returns.
  method Forward<A, P>(arrivals: seq<Arrival<A, P>>, n: nat, cache: map<string, CacheEntry<A>>)
    returns (written: Result<(P, A), Exit>, cache': map<string, CacheEntry<A>>)
    requires n < |arrivals| && Holds(arrivals, n, cache)
    ensures var answer := arrivals[Source(arrivals, n)].prepared;
      if answer.Err? then written == Err(PrepareFailed(answer.error))
      else if arrivals[n].writeFails then written == Err(WriteFailed)
      else written == Ok((arrivals[n].payload, answer.value)) && Holds(arrivals, n + 1, cache')
  {
    var answer;
    answer, cache' := Resolve(arrivals, n, cache);
    if answer.Err? {
      return Err(PrepareFailed(answer.error)), cache';
    }
    if arrivals[n].writeFails {
      return Err(WriteFailed), cache';
    }
    written := Ok((arrivals[n].payload, answer.value));
  }

  method ProxyUotToPacket<A, P>(arrivals: seq<Arrival<A, P>>) returns (writes: seq<(P, A)>, exit: Exit)
    ensures (writes, exit) == Cached(arrivals, 0)
  {
    var destinationCache: map<string, CacheEntry<A>> := map[];
    writes, exit := [], ReadFailed;
    var n := 0;
    PrefixedByNothing(Cached(arrivals, 0));
    while n < |arrivals|
      invariant n <= |arrivals| && exit == ReadFailed
      invariant Holds(arrivals, n, destinationCache)
      invariant Prefixed(writes, Cached(arrivals, n)) == Cached(arrivals, 0)
    {
      OnePacket(arrivals, n, writes);
      var written, cache := Forward(arrivals, n, destinationCache);
      if written.Err? {
        exit := written.error;
        break;
      }
      destinationCache := cache;
      writes := writes + [written.value];
      n := n + 1;
    }
    PrefixingNothing(writes, exit);
  }

  lemma OnePacket<A, P>(arrivals: seq<Arrival<A, P>>, n: nat, writes: seq<(P, A)>)
    requires n < |arrivals|
    ensures var answer := arrivals[Source(arrivals, n)].prepared;
      Prefixed(writes, Cached(arrivals, n)) ==
        if answer.Err? then (writes, PrepareFailed(answer.error))
        else if arrivals[n].writeFails then (writes, WriteFailed)
        else Prefixed(writes + [(arrivals[n].payload, answer.value)], Cached(arrivals, n + 1))
  {
    var answer := arrivals[Source(arrivals, n)].prepared;
    if answer.Ok? && !arrivals[n].writeFails {
      PrefixedTwice(writes, (arrivals[n].payload, answer.value), Cached(arrivals, n + 1));
    } else {
      PrefixingNothing(writes, Cached(arrivals, n).1);
    }
  }

  lemma PrefixedByNothing<A, P>(rest: (seq<(P, A)>, Exit))
    ensures Prefixed([], rest) == rest
  {
    assert [] + rest.0 == rest.0;
  }

  lemma PrefixingNothing<A, P>(before: seq<(P, A)>, exit: Exit)
    ensures Prefixed(before, ([], exit)) == (before, exit)
  {
    assert before + [] == before;
  }

  lemma PrefixedTwice<A, P>(before: seq<(P, A)>, w: (P, A), rest: (seq<(P, A)>, Exit))
    ensures Prefixed(before, Prefixed([w], rest)) == Prefixed(before + [w], rest)
  {
    assert before + ([w] + rest.0) == (before + [w]) + rest.0;
  }

  // ---- When the cache makes no difference ----

  // The loop comes as far as packet n.
  predicate Reached<A, P>(arrivals: seq<Arrival<A, P>>, n: nat)
    requires n <= |arrivals|
  {
    forall k :: 0 <= k < n ==> arrivals[Source(arrivals, k)].prepared.Ok? && !arrivals[k].writeFails
  }

  // Asking for packet k would bring what the cache has for it; if its write
  // fails, it is enough that asking would bring some answer.
  ghost predicate Agrees<A, P>(arrivals: seq<Arrival<A, P>>, k: nat)
    requires k < |arrivals|
  {
    var asked, used := arrivals[k].prepared, arrivals[Source(arrivals, k)].prepared;
    asked == used || (arrivals[k].writeFails && asked.Ok? && used.Ok?)
  }

  ghost predicate Agreeing<A, P>(arrivals: seq<Arrival<A, P>>) {
    forall k :: 0 <= k < |arrivals| && Reached(arrivals, k) ==> Agrees(arrivals, k)
  }

  // The loop with the cache writes the same packets to the same addresses and
  // ends in the same way exactly if no packet it comes to would have got
  // another answer than the one remembered.
  lemma CacheIsInvisible<A, P>(arrivals: seq<Arrival<A, P>>)
    ensures Cached(arrivals, 0) == Uncached(arrivals) <==> Agreeing(arrivals)
  {
    SameFrom(arrivals, 0);
    assert arrivals[0..] == arrivals;
  }

  lemma {:induction false} SameFrom<A, P>(arrivals: seq<Arrival<A, P>>, n: nat)
    requires n <= |arrivals| && Reached(arrivals, n)
    ensures Cached(arrivals, n) == Uncached(arrivals[n..]) <==>
      forall k :: n <= k < |arrivals| && Reached(arrivals, k) ==> Agrees(arrivals, k)
    decreases |arrivals| - n
  {
    if n < |arrivals| {
      var a := arrivals[n];
      var used := arrivals[Source(arrivals, n)].prepared;
      assert arrivals[n..][0] == a && arrivals[n..][1..] == arrivals[n + 1..];
      if used.Ok? && !a.writeFails {
        SameFrom(arrivals, n + 1);
        if a.prepared.Ok? {
          SameHead((a.payload, used.value), Cached(arrivals, n + 1), (a.payload, a.prepared.value), Uncached(arrivals[n + 1..]));
        }
        assert Agrees(arrivals, n) <==> a.prepared == used;
      } else {
        assert forall k :: n < k < |arrivals| ==> !Reached(arrivals, k);
        assert Agrees(arrivals, n) <==> Cached(arrivals, n) == Uncached(arrivals[n..]);
      }
    }
  }

  lemma SameHead<A, P>(v: (P, A), r: (seq<(P, A)>, Exit), w: (P, A), s: (seq<(P, A)>, Exit))
    ensures Prefixed([v], r) == Prefixed([w], s) <==> v == w && r == s
  {
    if Prefixed([v], r) == Prefixed([w], s) {
      assert ([v] + r.0)[0] == ([w] + s.0)[0];
      assert ([v] + r.0)[1..] == r.0 && ([w] + s.0)[1..] == s.0;
    }
  }

  // Answers that were asked for do not change while they are remembered.
  ghost predicate Stable<A, P>(arrivals: seq<Arrival<A, P>>) {
    forall i, k :: 0 <= i < k < |arrivals| && Source(arrivals, i) == i && Covers(arrivals, i, k) ==>
      arrivals[i].prepared.Err? || arrivals[k].prepared == arrivals[i].prepared
  }

  // A resolver that changes its answers only when a remembered one has run
  // out is enough.
  lemma StableIsEnough<A, P>(arrivals: seq<Arrival<A, P>>)
    requires Stable(arrivals)
    ensures Cached(arrivals, 0) == Uncached(arrivals)
  {
    CacheIsInvisible(arrivals);
    forall k | 0 <= k < |arrivals| && Reached(arrivals, k) ensures Agrees(arrivals, k) {
      var i := Source(arrivals, k);
      SourcesAsked(arrivals, k);
      if i < k { assert arrivals[Source(arrivals, i)].prepared.Ok?; }
    }
  }

  // An answer that changes while it is remembered shows.
  lemma ChangedAnswerShows<P>(p: P)
    ensures var arrivals := [Arrival("a:53", p, Ok(1), 0, 0, false), Arrival("a:53", p, Ok(2), 20, 20, false)];
      && Cached(arrivals, 0) == ([(p, 1), (p, 1)], ReadFailed)
      && Uncached(arrivals) == ([(p, 1), (p, 2)], ReadFailed)
  {
    var arrivals: seq<Arrival<int, P>> := [Arrival("a:53", p, Ok(1), 0, 0, false), Arrival("a:53", p, Ok(2), 20, 20, false)];
    assert Remembered(arrivals, 0) == map[] && Remembered(arrivals, 1) == map["a:53" := 0];
    assert Source(arrivals, 0) == 0 && Source(arrivals, 1) == 0;
    assert arrivals[1..][0] == arrivals[1] && arrivals[1..][1..] == [];
    var one, two := [(p, 1)], [(p, 2)];
    assert one + [] == one && two + [] == two;
    assert Cached(arrivals, 2) == ([], ReadFailed) && Cached(arrivals, 1) == (one, ReadFailed);
    assert Uncached(arrivals[1..]) == (two, ReadFailed);
    assert Cached(arrivals, 0) == (one + one, ReadFailed) && Uncached(arrivals) == (one + two, ReadFailed);
    assert one + one == [(p, 1), (p, 1)] && one + two == [(p, 1), (p, 2)];
  }

  // ---- Where the packets go ----

  // Packet k is written as w: its payload, to the answer given to its source.
  ghost predicate Answered<A, P>(arrivals: seq<Arrival<A, P>>, k: nat, w: (P, A)) {
    k < |arrivals| && w.0 == arrivals[k].payload && arrivals[Source(arrivals, k)].prepared == Ok(w.1)
  }

  // Why the loop ends, and after how many writes.
  ghost predicate Caused<A, P>(arrivals: seq<Arrival<A, P>>, end: nat, exit: Exit) {
    && end <= |arrivals|
    && (exit.ReadFailed? <==> end == |arrivals|)
    && (exit.PrepareFailed? ==> arrivals[end].prepared == Err(exit.error) && Source(arrivals, end) == end)
    && (exit.WriteFailed? ==> arrivals[end].writeFails)
  }

  lemma OnlyOwnAnswerFails<A, P>(arrivals: seq<Arrival<A, P>>, n: nat)
    requires n < |arrivals| && Reached(arrivals, n)
    ensures arrivals[Source(arrivals, n)].prepared.Err? ==> Source(arrivals, n) == n
  {
    SourcesAsked(arrivals, n);
    var i := Source(arrivals, n);
    if i < n { assert arrivals[Source(arrivals, i)].prepared.Ok?; }
  }

  // What the loop does to each packet, and why it ends where it does.
  lemma EachPacketIsAnswered<A, P>(arrivals: seq<Arrival<A, P>>)
    ensures var (writes, exit) := Cached(arrivals, 0);
      && (forall k :: 0 <= k < |writes| ==> Answered(arrivals, k, writes[k]))
      && Caused(arrivals, |writes|, exit)
  {
    PrefixedByNothing(Cached(arrivals, 0));
    AnsweredFrom(arrivals, 0, []);
  }

  lemma {:induction false} AnsweredFrom<A, P>(arrivals: seq<Arrival<A, P>>, n: nat, writes: seq<(P, A)>)
    requires n == |writes| <= |arrivals| && Reached(arrivals, n)
    requires forall k :: 0 <= k < n ==> Answered(arrivals, k, writes[k])
    ensures var (all, exit) := Prefixed(writes, Cached(arrivals, n));
      && (forall k :: 0 <= k < |all| ==> Answered(arrivals, k, all[k]))
      && Caused(arrivals, |all|, exit)
    decreases |arrivals| - n
  {
    if n == |arrivals| {
      PrefixingNothing(writes, Cached(arrivals, n).1);
    } else {
      OnePacket(arrivals, n, writes);
      OnlyOwnAnswerFails(arrivals, n);
      var answer := arrivals[Source(arrivals, n)].prepared;
      if answer.Ok? && !arrivals[n].writeFails {
        AnsweredFrom(arrivals, n + 1, writes + [(arrivals[n].payload, answer.value)]);
      }
    }
  }

  // Whatever every answer satisfies, every address written to satisfies.
  lemma WritesGoWhereAnswersPoint<A, P>(arrivals: seq<Arrival<A, P>>, allowed: A -> bool)
    requires forall a :: a in arrivals && a.prepared.Ok? ==> allowed(a.prepared.value)
    ensures forall w :: w in Cached(arrivals, 0).0 ==> allowed(w.1)
  {
    EachPacketIsAnswered(arrivals);
    var writes := Cached(arrivals, 0).0;
    forall w | w in writes ensures allowed(w.1) {
      var k :| 0 <= k < |writes| && writes[k] == w;
      assert Answered(arrivals, k, writes[k]);
      assert arrivals[Source(arrivals, k)] in arrivals;
    }
  }
}
