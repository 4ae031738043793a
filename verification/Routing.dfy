// listener.go: how the first bytes of a connection decide where it goes.
module Routing {
  import opened Wrappers
  import opened Transport
  import opened Users
  import B = BufferedConn
  import W = WebsiteConn
  import Pipeline = AcceptPipeline

  function Code(c: char): byte {
    if (c as int) < 256 then (c as int) as byte else 0
  }

  function Ascii(s: string): (bytes: seq<byte>)
    ensures |bytes| == |s|
  {
    seq(|s|, i requires 0 <= i < |s| => Code(s[i]))
  }

  const HTTP2_PREFACE := "PRI * HTTP/2.0\r\n\r\nSM\r\n\r\n"

  // Why a probe failed.
  datatype Reason = PeekFailed(failure: Failure) | NotDetected(error: DetectError)

  // What the fast path makes of the first bytes.
  datatype Fast = Hit | Miss | Broken(why: Failure)

  // ---- The nested dispatch, on the bytes that can be reached ----

  // reach: all bytes before the next error; why: that error.
  function MatchWebsitePrefix(reach: seq<byte>, why: Failure, prefix: string): Fast {
    if |reach| < |prefix| then (if why.Closed? then Hit else Broken(why))
    else if Ascii(prefix) <= reach then Hit
    else Miss
  }

  function FastPath(reach: seq<byte>, why: Failure): Fast {
    if reach == [] then (if why.Closed? then Hit else Broken(why))
    else
      var first := reach[0];
      if first == Code('P') then StemPath(reach, why, 4, "POST", "POST ", "PRI ", HTTP2_PREFACE)
      else if first == Code('S') then StemPath(reach, why, 3, "SUB", "SUBSCRIBE ", "SEA", "SEARCH ")
      else if MethodFor(first).Some? then MatchWebsitePrefix(reach, why, MethodFor(first).value)
      else Miss
  }

  function StemPath(reach: seq<byte>, why: Failure, n: nat, stem1: string, prefix1: string, stem2: string, prefix2: string): Fast {
    if |reach| < n then Broken(why)
    else if Ascii(stem1) <= reach then MatchWebsitePrefix(reach, why, prefix1)
    else if Ascii(stem2) <= reach then MatchWebsitePrefix(reach, why, prefix2)
    else Miss
  }

  // The one method tried for a first byte that settles it.
  function MethodFor(first: byte): Option<string> {
    if first == Code('G') then Some("GET ")
    else if first == Code('H') then Some("HEAD ")
    else if first == Code('O') then Some("OPTIONS ")
    else if first == Code('D') then Some("DELETE ")
    else if first == Code('T') then Some("TRACE ")
    else if first == Code('C') then Some("CONNECT ")
    else if first == Code('R') then Some("REPORT ")
    else if first == Code('M') then Some("MKCOL ")
    else if first == Code('N') then Some("NOTIFY ")
    else if first == Code('U') then Some("UNSUBSCRIBE ")
    else if first == Code('L') then Some("LOCK ")
    else if first == Code('A') then Some("ACL ")
    else if first == Code('B') then Some("BIND ")
    else None
  }

  function ClassifyPreview(known: map<Digest, bool>, preview: seq<byte>): (Decision, Option<Reason>) {
    if preview == [] then (Fallback, None)
    else
      var (decision, e) := Detect(known, preview);
      (decision, if e.Some? then Some(NotDetected(e.value)) else None)
  }

  function Classify(known: map<Digest, bool>, reach: seq<byte>, why: Failure): (Decision, Option<Reason>) {
    match FastPath(reach, why)
    case Hit => (Fallback, None)
    case Broken(e) => (Fallback, Some(PeekFailed(e)))
    case Miss =>
      if |reach| >= 32 then ClassifyPreview(known, reach[..32])
      else if why.Closed? then ClassifyPreview(known, reach)
      else (Fallback, Some(PeekFailed(why)))
  }

  // ---- The flat reading ----

  // A protocol prefix, and how many of its bytes the dispatch looks at before
  // it settles on it.
  datatype Website = Website(prefix: string, stem: nat)

  const WEBSITES: seq<Website> := [
    Website("POST ", 4), Website(HTTP2_PREFACE, 4), Website("GET ", 1), Website("HEAD ", 1),
    Website("OPTIONS ", 1), Website("DELETE ", 1), Website("TRACE ", 1), Website("CONNECT ", 1),
    Website("REPORT ", 1), Website("MKCOL ", 1), Website("NOTIFY ", 1), Website("SUBSCRIBE ", 3),
    Website("SEARCH ", 3), Website("UNSUBSCRIBE ", 1), Website("LOCK ", 1), Website("ACL ", 1), Website("BIND ", 1)
  ]

  // The same prefixes as bytes; the second is the connection preface of
  // section 3.4 of RFC 9113.
  const WEBSITE_BYTES: seq<seq<byte>> := [
    [0x50, 0x4f, 0x53, 0x54, 0x20],
    [0x50, 0x52, 0x49, 0x20, 0x2a, 0x20, 0x48, 0x54, 0x54, 0x50, 0x2f, 0x32,
     0x2e, 0x30, 0x0d, 0x0a, 0x0d, 0x0a, 0x53, 0x4d, 0x0d, 0x0a, 0x0d, 0x0a],
    [0x47, 0x45, 0x54, 0x20],
    [0x48, 0x45, 0x41, 0x44, 0x20],
    [0x4f, 0x50, 0x54, 0x49, 0x4f, 0x4e, 0x53, 0x20],
    [0x44, 0x45, 0x4c, 0x45, 0x54, 0x45, 0x20],
    [0x54, 0x52, 0x41, 0x43, 0x45, 0x20],
    [0x43, 0x4f, 0x4e, 0x4e, 0x45, 0x43, 0x54, 0x20],
    [0x52, 0x45, 0x50, 0x4f, 0x52, 0x54, 0x20],
    [0x4d, 0x4b, 0x43, 0x4f, 0x4c, 0x20],
    [0x4e, 0x4f, 0x54, 0x49, 0x46, 0x59, 0x20],
    [0x53, 0x55, 0x42, 0x53, 0x43, 0x52, 0x49, 0x42, 0x45, 0x20],
    [0x53, 0x45, 0x41, 0x52, 0x43, 0x48, 0x20],
    [0x55, 0x4e, 0x53, 0x55, 0x42, 0x53, 0x43, 0x52, 0x49, 0x42, 0x45, 0x20],
    [0x4c, 0x4f, 0x43, 0x4b, 0x20],
    [0x41, 0x43, 0x4c, 0x20],
    [0x42, 0x49, 0x4e, 0x44, 0x20]
  ]

  lemma PrefixesAsBytes()
    ensures |WEBSITES| == |WEBSITE_BYTES| == 17
    ensures forall i :: 0 <= i < 17 ==> Ascii(WEBSITES[i].prefix) == WEBSITE_BYTES[i]
  {
    FirstPrefixesAsBytes();
    MiddlePrefixesAsBytes();
    LastPrefixesAsBytes();
  }

  lemma FirstPrefixesAsBytes()
    ensures forall i :: 0 <= i < 5 ==> Ascii(WEBSITES[i].prefix) == WEBSITE_BYTES[i]
  {
    assert Ascii(WEBSITES[0].prefix) == WEBSITE_BYTES[0];
    assert Ascii(WEBSITES[1].prefix) == WEBSITE_BYTES[1];
    assert Ascii(WEBSITES[2].prefix) == WEBSITE_BYTES[2];
    assert Ascii(WEBSITES[3].prefix) == WEBSITE_BYTES[3];
    assert Ascii(WEBSITES[4].prefix) == WEBSITE_BYTES[4];
  }

  lemma MiddlePrefixesAsBytes()
    ensures forall i :: 5 <= i < 11 ==> Ascii(WEBSITES[i].prefix) == WEBSITE_BYTES[i]
  {
    assert Ascii(WEBSITES[5].prefix) == WEBSITE_BYTES[5];
    assert Ascii(WEBSITES[6].prefix) == WEBSITE_BYTES[6];
    assert Ascii(WEBSITES[7].prefix) == WEBSITE_BYTES[7];
    assert Ascii(WEBSITES[8].prefix) == WEBSITE_BYTES[8];
    assert Ascii(WEBSITES[9].prefix) == WEBSITE_BYTES[9];
    assert Ascii(WEBSITES[10].prefix) == WEBSITE_BYTES[10];
  }

  lemma LastPrefixesAsBytes()
    ensures forall i :: 11 <= i < 17 ==> Ascii(WEBSITES[i].prefix) == WEBSITE_BYTES[i]
  {
    assert Ascii(WEBSITES[11].prefix) == WEBSITE_BYTES[11];
    assert Ascii(WEBSITES[12].prefix) == WEBSITE_BYTES[12];
    assert Ascii(WEBSITES[13].prefix) == WEBSITE_BYTES[13];
    assert Ascii(WEBSITES[14].prefix) == WEBSITE_BYTES[14];
    assert Ascii(WEBSITES[15].prefix) == WEBSITE_BYTES[15];
    assert Ascii(WEBSITES[16].prefix) == WEBSITE_BYTES[16];
  }

  ghost predicate HasWebsitePrefix(bytes: seq<byte>) {
    exists i :: 0 <= i < |WEBSITES| && Ascii(WEBSITES[i].prefix) <= bytes
  }

  // The bytes end inside a prefix the dispatch has settled on.
  ghost predicate EndsInsidePrefix(bytes: seq<byte>) {
    bytes == [] || exists i :: 0 <= i < |WEBSITES| && EndsInside(WEBSITES[i], bytes)
  }

  predicate EndsInside(w: Website, bytes: seq<byte>) {
    w.stem <= |bytes| < |w.prefix| && Ascii(w.prefix[..w.stem]) <= bytes
  }

  // Where the dispatch goes on the first byte alone, the table has the same
  // method for it; the other four rows need more bytes.
  lemma TableRows(i: nat)
    requires i < |WEBSITES|
    ensures var w := WEBSITES[i];
      && 0 < w.stem < |w.prefix| <= 24
      && (if i == 0 then w.prefix[..4] == "POST" && w.stem == 4
          else if i == 1 then w.prefix[..4] == "PRI " && w.stem == 4
          else if i == 11 then w.prefix[..3] == "SUB" && w.stem == 3
          else if i == 12 then w.prefix[..3] == "SEA" && w.stem == 3
          else w.stem == 1 && MethodFor(Code(w.prefix[0])) == Some(w.prefix) &&
               Code(w.prefix[0]) != Code('P') && Code(w.prefix[0]) != Code('S'))
  {
    assert "POST "[..4] == "POST" && HTTP2_PREFACE[..4] == "PRI ";
    assert "SUBSCRIBE "[..3] == "SUB" && "SEARCH "[..3] == "SEA";
  }

  lemma MethodIsInTable(first: byte)
    ensures MethodFor(first).Some? ==>
      exists i :: 0 <= i < |WEBSITES| && WEBSITES[i] == Website(MethodFor(first).value, 1) && Code(WEBSITES[i].prefix[0]) == first
  {
    var t := WEBSITES;
    assert t[2].prefix == "GET " && t[3].prefix == "HEAD " && t[4].prefix == "OPTIONS " && t[5].prefix == "DELETE ";
    assert t[6].prefix == "TRACE " && t[7].prefix == "CONNECT " && t[8].prefix == "REPORT " && t[9].prefix == "MKCOL ";
    assert t[10].prefix == "NOTIFY " && t[13].prefix == "UNSUBSCRIBE " && t[14].prefix == "LOCK ";
    assert t[15].prefix == "ACL " && t[16].prefix == "BIND ";
  }

  lemma AsciiPrefix(s: string, n: nat, bytes: seq<byte>)
    requires n <= |s|
    ensures Ascii(s) <= bytes ==> Ascii(s[..n]) <= bytes
    ensures Ascii(s) <= bytes && n > 0 ==> bytes[0] == Code(s[0])
  {
    if Ascii(s) <= bytes {
      assert forall k :: 0 <= k < |s| ==> bytes[k] == Ascii(s)[k] == Code(s[k]);
    }
  }

  // A prefix settled on by its stem is the one tried.
  lemma StemDecides(i: nat, reach: seq<byte>, why: Failure)
    requires i < |WEBSITES| && Ascii(WEBSITES[i].prefix[..WEBSITES[i].stem]) <= reach
    ensures FastPath(reach, why) == MatchWebsitePrefix(reach, why, WEBSITES[i].prefix)
  {
    var w := WEBSITES[i];
    TableRows(i);
    var stem := w.prefix[..w.stem];
    assert Ascii(stem)[0] == Code(stem[0]) == Code(w.prefix[0]) == reach[0];
    if i == 1 {
      assert Ascii("PRI ")[1] == Code('R') && Ascii("POST")[1] == Code('O');
    } else if i == 12 {
      assert Ascii("SEA")[1] == Code('E') && Ascii("SUB")[1] == Code('U');
    }
  }

  lemma HitHasStem(reach: seq<byte>, why: Failure)
    requires FastPath(reach, why).Hit? && reach != []
    ensures exists i :: 0 <= i < |WEBSITES| && Ascii(WEBSITES[i].prefix[..WEBSITES[i].stem]) <= reach
  {
    TableRows(0); TableRows(1); TableRows(11); TableRows(12);
    var first := reach[0];
    var i := 0;
    if first == Code('P') {
      i := if Ascii("POST") <= reach then 0 else 1;
    } else if first == Code('S') {
      i := if Ascii("SUB") <= reach then 11 else 12;
    } else {
      MethodIsInTable(first);
      i :| 0 <= i < |WEBSITES| && WEBSITES[i] == Website(MethodFor(first).value, 1) && Code(WEBSITES[i].prefix[0]) == first;
      TableRows(i);
      assert Ascii(WEBSITES[i].prefix[..1]) == [first];
    }
    assert Ascii(WEBSITES[i].prefix[..WEBSITES[i].stem]) <= reach;
  }

  lemma HitIsWebsite(reach: seq<byte>, why: Failure)
    requires FastPath(reach, why).Hit?
    ensures HasWebsitePrefix(reach) || (why.Closed? && EndsInsidePrefix(reach))
  {
    if reach != [] {
      HitHasStem(reach, why);
      var i :| 0 <= i < |WEBSITES| && Ascii(WEBSITES[i].prefix[..WEBSITES[i].stem]) <= reach;
      StemDecides(i, reach, why);
      assert Ascii(WEBSITES[i].prefix) <= reach || EndsInside(WEBSITES[i], reach);
    }
  }

  lemma WebsiteIsHit(reach: seq<byte>, why: Failure)
    requires HasWebsitePrefix(reach) || (why.Closed? && EndsInsidePrefix(reach))
    ensures FastPath(reach, why).Hit?
  {
    if HasWebsitePrefix(reach) {
      var i :| 0 <= i < |WEBSITES| && Ascii(WEBSITES[i].prefix) <= reach;
      AsciiPrefix(WEBSITES[i].prefix, WEBSITES[i].stem, reach);
      StemDecides(i, reach, why);
    } else if reach != [] {
      var i :| 0 <= i < |WEBSITES| && EndsInside(WEBSITES[i], reach);
      StemDecides(i, reach, why);
    }
  }

  lemma BrokenIsShort(reach: seq<byte>, why: Failure)
    ensures FastPath(reach, why).Broken? ==> |reach| < 24 && FastPath(reach, why).why == why
  {
    if reach != [] {
      assert forall first: byte :: MethodFor(first).Some? ==> |MethodFor(first).value| <= 24;
    }
  }

  // The nested dispatch finds exactly the flat set of prefixes; a connection
  // closed inside one of them counts as a website too.
  lemma DispatchIsFlat(reach: seq<byte>, why: Failure)
    ensures FastPath(reach, why).Hit? <==> HasWebsitePrefix(reach) || (why.Closed? && EndsInsidePrefix(reach))
    ensures FastPath(reach, why).Broken? ==> |reach| < 24 && FastPath(reach, why).why == why
  {
    BrokenIsShort(reach, why);
    if FastPath(reach, why).Hit? { HitIsWebsite(reach, why); }
    if HasWebsitePrefix(reach) || (why.Closed? && EndsInsidePrefix(reach)) { WebsiteIsHit(reach, why); }
  }

  // With 32 bytes at hand: a website prefix, or else what the detector says.
  lemma LongStreams(known: map<Digest, bool>, reach: seq<byte>, why: Failure)
    requires |reach| >= 32
    ensures var (decision, reason) := Classify(known, reach, why);
      if HasWebsitePrefix(reach) then (decision, reason) == (Fallback, None)
      else
        && decision == Detect(known, reach).0
        && (reason == None <==> decision == AnyTls)
        && (reason.Some? ==> reason == Some(NotDetected(Detect(known, reach).1.value)))
  {
    DispatchIsFlat(reach, why);
    NoPrefixIsThatLong(reach);
    assert reach[..32][..32] == reach[..32];
  }

  lemma NoPrefixIsThatLong(bytes: seq<byte>)
    ensures |bytes| >= 24 ==> !EndsInsidePrefix(bytes)
  {
    forall i | 0 <= i < |WEBSITES| ensures |WEBSITES[i].prefix| <= 24 { TableRows(i); }
  }

  // With fewer bytes nothing is taken as AnyTLS and nothing is rejected as a
  // disabled user; the probe is without fault exactly for a website prefix,
  // or a connection closed inside one.
  lemma ShortStreams(known: map<Digest, bool>, reach: seq<byte>, why: Failure)
    requires |reach| < 32
    ensures var (decision, reason) := Classify(known, reach, why);
      && decision == Fallback
      && (reason == None <==> HasWebsitePrefix(reach) || (why.Closed? && EndsInsidePrefix(reach)))
      && (reason.Some? && !why.Closed? ==> reason == Some(PeekFailed(why)))
  {
    DispatchIsFlat(reach, why);
  }

  // ---- Routing ----

  // routeBufferedConn, given that the fallback connection can be prepared.
  function Route(fallback: bool, slotFree: bool, decision: Decision, reason: Option<Reason>): Pipeline.Verdict {
    if reason.Some? then (if decision == Fallback && fallback then Pipeline.Website else Pipeline.Refused)
    else match decision
      case Fallback => Pipeline.Website
      case Reject => Pipeline.Refused
      case AnyTls => if slotFree then Pipeline.AnyTls else Pipeline.Refused
  }

  function RouteOf(fallback: bool, slotFree: bool, known: map<Digest, bool>, reach: seq<byte>, why: Failure): Pipeline.Verdict {
    var (decision, reason) := Classify(known, reach, why);
    Route(fallback, slotFree, decision, reason)
  }

  // The first 32 bytes are some user's hash.
  predicate IsMember(known: map<Digest, bool>, reach: seq<byte>) { |reach| >= 32 && reach[..32] in known }

  predicate IsEnabled(known: map<Digest, bool>, reach: seq<byte>) { IsMember(known, reach) && known[reach[..32]] }

  // Every verdict exactly, in terms of prefix, hash and slot. The fallback
  // setting has no say in who is served.
  lemma WhoIsServed(fallback: bool, slotFree: bool, known: map<Digest, bool>, reach: seq<byte>, why: Failure)
    ensures RouteOf(fallback, slotFree, known, reach, why) == Pipeline.AnyTls <==>
      IsEnabled(known, reach) && !HasWebsitePrefix(reach) && slotFree
    ensures RouteOf(fallback, slotFree, known, reach, why) == Pipeline.Website <==>
      || HasWebsitePrefix(reach) || (why.Closed? && EndsInsidePrefix(reach))
      || (fallback && !IsMember(known, reach))
    ensures RouteOf(fallback, slotFree, known, reach, why) == Pipeline.Refused <==>
      && !HasWebsitePrefix(reach) && !(why.Closed? && EndsInsidePrefix(reach))
      && (fallback ==> IsMember(known, reach)) && !(IsEnabled(known, reach) && slotFree)
    ensures RouteOf(fallback, slotFree, known, reach, why) != Pipeline.RoutingError
  {
    if |reach| >= 32 { LongStreams(known, reach, why); } else { ShortStreams(known, reach, why); }
    NoPrefixIsThatLong(reach);
  }

  // Whatever the reason, a disabled user is refused, and AnyTLS with a reason.
  lemma RejectIsFinal(fallback: bool, slotFree: bool, reason: Option<Reason>)
    ensures Route(fallback, slotFree, Reject, reason) == Pipeline.Refused
    ensures reason.Some? ==> Route(fallback, slotFree, AnyTls, reason) == Pipeline.Refused
  {
  }

  // The fallback setting makes a difference exactly for streams that are
  // neither a website nor a user's: with it they go to the website, without
  // it they are refused.
  lemma FallbackGovernsFailuresOnly(slotFree: bool, known: map<Digest, bool>, reach: seq<byte>, why: Failure)
    ensures var on, off := RouteOf(true, slotFree, known, reach, why), RouteOf(false, slotFree, known, reach, why);
      if HasWebsitePrefix(reach) || (why.Closed? && EndsInsidePrefix(reach)) || IsMember(known, reach) then on == off
      else on == Pipeline.Website && off == Pipeline.Refused
  {
    WhoIsServed(true, slotFree, known, reach, why);
    WhoIsServed(false, slotFree, known, reach, why);
  }

  // ---- On the connection itself ----

  // A probe whose deadline is refused reaches nothing.
  function Probed(timeout: bool, refusal: Option<Failure>, reach: (seq<byte>, Failure)): (seq<byte>, Failure) {
    if timeout && refusal.Some? then ([], refusal.value) else reach
  }

  // What the peeks of the probe can reach.
  ghost function ProbeReach(bc: B.BufferedConn, timeout: bool): (seq<byte>, Failure)
    reads bc, bc.buf, bc.conn
    requires bc.Indexed()
  {
    Probed(timeout, bc.conn.refusal, bc.View().Reach())
  }

  method MatchPrefix(bc: B.BufferedConn, timeout: bool, prefix: string) returns (fast: Fast)
    requires bc.Valid() && |prefix| <= B.BUFFER_SIZE && prefix != []
    modifies bc, bc.buf, bc.conn
    ensures bc.Valid() && bc.View().Unread() == old(bc.View()).Unread()
    ensures var (reach, why) := old(ProbeReach(bc, timeout)); fast == MatchWebsitePrefix(reach, why, prefix)
    ensures fast.Miss? ==> ProbeReach(bc, timeout) == old(ProbeReach(bc, timeout))
  {
    var preview, failure := bc.Peek(|prefix|, timeout);
    if failure.Some? {
      return if failure == Some(Closed) then Hit else Broken(failure.value);
    }
    fast := if preview == Ascii(prefix) then Hit else Miss;
  }

  // A first byte with two candidates: the first n bytes tell which, if any.
  method MatchStem(bc: B.BufferedConn, timeout: bool, n: nat, stem1: string, prefix1: string, stem2: string, prefix2: string)
    returns (fast: Fast)
    requires bc.Valid() && 0 < n == |stem1| == |stem2|
    requires 0 < |prefix1| <= B.BUFFER_SIZE && 0 < |prefix2| <= B.BUFFER_SIZE && n <= B.BUFFER_SIZE
    modifies bc, bc.buf, bc.conn
    ensures bc.Valid() && bc.View().Unread() == old(bc.View()).Unread()
    ensures var (reach, why) := old(ProbeReach(bc, timeout));
      fast == StemPath(reach, why, n, stem1, prefix1, stem2, prefix2)
    ensures fast.Miss? ==> ProbeReach(bc, timeout) == old(ProbeReach(bc, timeout))
  {
    var preview, cut := bc.Peek(n, timeout);
    if cut.Some? {
      return Broken(cut.value);
    }
    if preview == Ascii(stem1) {
      fast := MatchPrefix(bc, timeout, prefix1);
    } else if preview == Ascii(stem2) {
      fast := MatchPrefix(bc, timeout, prefix2);
    } else {
      fast := Miss;
    }
  }

  method ClassifyWebsiteFastPath(bc: B.BufferedConn, timeout: bool) returns (fast: Fast)
    requires bc.Valid()
    modifies bc, bc.buf, bc.conn
    ensures bc.Valid() && bc.View().Unread() == old(bc.View()).Unread()
    ensures var (reach, why) := old(ProbeReach(bc, timeout)); fast == FastPath(reach, why)
    ensures fast.Miss? ==> ProbeReach(bc, timeout) == old(ProbeReach(bc, timeout))
  {
    var first, failure := bc.Peek(1, timeout);
    if failure.Some? {
      return if failure == Some(Closed) then Hit else Broken(failure.value);
    }
    if first[0] == Code('P') {
      fast := MatchStem(bc, timeout, 4, "POST", "POST ", "PRI ", HTTP2_PREFACE);
    } else if first[0] == Code('S') {
      fast := MatchStem(bc, timeout, 3, "SUB", "SUBSCRIBE ", "SEA", "SEARCH ");
    } else if MethodFor(first[0]).Some? {
      fast := MatchPrefix(bc, timeout, MethodFor(first[0]).value);
    } else {
      fast := Miss;
    }
  }

  method ClassifyBufferedConn(bc: B.BufferedConn, timeout: bool, known: map<Digest, bool>)
    returns (decision: Decision, reason: Option<Reason>)
    requires bc.Valid()
    modifies bc, bc.buf, bc.conn
    ensures bc.Valid() && bc.View().Unread() == old(bc.View()).Unread()
    ensures var (reach, why) := old(ProbeReach(bc, timeout)); (decision, reason) == Classify(known, reach, why)
  {
    var fast := ClassifyWebsiteFastPath(bc, timeout);
    match fast {
      case Hit => return Fallback, None;
      case Broken(why) => return Fallback, Some(PeekFailed(why));
      case Miss =>
    }
    var preview, failure := bc.Peek(32, timeout);
    if failure.Some? && failure != Some(Closed) {
      return Fallback, Some(PeekFailed(failure.value));
    }
    return ClassifyPreview(known, preview).0, ClassifyPreview(known, preview).1;
  }

  // routeBufferedConn: a website connection comes back wrapped for replay if
  // it was taken out of TLS and as the buffered connection itself if not.
  method RouteBufferedConn(bc: B.BufferedConn, tls: bool, fallback: bool, timeout: bool, slotFree: bool,
                           known: map<Digest, bool>)
    returns (verdict: Pipeline.Verdict, replay: W.PrependConn?)
    requires bc.Valid()
    modifies bc, bc.buf, bc.conn
    ensures bc.Valid()
    ensures var (reach, why) := old(ProbeReach(bc, timeout)); verdict == RouteOf(fallback, slotFree, known, reach, why)
    ensures verdict.Website? && tls ==>
      replay != null && fresh(replay) && replay.conn == bc.conn && replay.Valid() &&
      replay.View().Unread() == old(bc.View()).Unread()
    ensures !(verdict.Website? && tls) ==> replay == null && bc.View().Unread() == old(bc.View()).Unread()
  {
    replay := null;
    var decision, reason := ClassifyBufferedConn(bc, timeout, known);
    verdict := Route(fallback, slotFree, decision, reason);
    if verdict.Website? && tls {
      var failure;
      replay, failure := W.PrepareWebsiteConn(bc);
    }
  }

  // The whole way of one connection: probed, routed, then read to its end by
  // its new owner. However the stream is cut, wherever the errors fall and
  // whatever the owner's buffers, the owner reads every byte of it in order.
  method ProbeThenRead(script: seq<Chunk>, refusal: Option<Failure>, tls: bool, fallback: bool, timeout: bool,
                       slotFree: bool, known: map<Digest, bool>, size: nat -> nat)
    returns (verdict: Pipeline.Verdict, data: seq<byte>)
    requires EndsAtEof(script) && forall k :: size(k) > 0
    ensures verdict != Pipeline.Refused ==> data == Flatten(script)
    ensures var (reach, why) := Probed(timeout, refusal, B.Reader([], None, script).Reach());
      verdict == RouteOf(fallback, slotFree, known, reach, why)
  {
    var conn := new Conn(script, refusal);
    var bc := new B.BufferedConn(conn);
    var replay;
    verdict, replay := RouteBufferedConn(bc, tls, fallback, timeout, slotFree, known);
    data := [];
    if replay != null {
      data := W.ReadWebsite(replay, size);
    } else if verdict != Pipeline.Refused {
      data := B.ReadToEnd(bc, size);
    }
  }
}
