// website_conn.go and prepareWebsiteConn of anytls.go: the connection given
// back to the website, which replays the bytes that were looked at.
module WebsiteConn {
  import opened Wrappers
  import opened Transport
  import B = BufferedConn

  // Where the MultiReader stands: in the prefix, on the connection, or past
  // the end of both. Without a prefix there is no MultiReader.
  datatype Stage = InPrefix | OnConn | PastEnd

  // A prepend connection as a value: the part of the prefix not replayed yet,
  // and the connection.
  datatype Replay = Replay(left: seq<byte>, stage: Stage, script: seq<Chunk>) {
    function Unread(): seq<byte> { (if stage.InPrefix? then left else []) + Flatten(script) }

    // What its reader is still to be told.
    function Pending(): seq<Item> { (if stage.InPrefix? then AsItems(left) else []) + Items(script) }

    function Work(): nat { |Unread()| + |script| + if stage.InPrefix? then 1 else 0 }

    predicate Valid() { EndsAtEof(script) && (stage.PastEnd? ==> script == []) }
  }

  class PrependConn {
    const conn: Conn
    const prefix: seq<byte>
    var consumed: nat
    var stage: Stage

    constructor (conn: Conn, prefix: seq<byte>)
      requires EndsAtEof(conn.script)
      ensures Valid() && this.conn == conn && this.prefix == prefix
      ensures View().Unread() == prefix + Flatten(conn.script)
    {
      this.conn, this.prefix, consumed := conn, prefix, 0;
      stage := if |prefix| > 0 then InPrefix else OnConn;
    }

    ghost predicate Valid()
      reads this, conn
    {
      consumed <= |prefix| && View().Valid() && (prefix == [] ==> stage.OnConn?)
    }

    ghost function View(): Replay
      reads this, conn
      requires consumed <= |prefix|
    {
      Replay(prefix[consumed..], stage, conn.script)
    }

    // io.MultiReader.Read over the prefix and the connection.
    method Read(p: array<byte>) returns (n: nat, failure: Option<Failure>)
      requires Valid()
      modifies this, conn`script, p
      ensures Valid() && n <= p.Length
      ensures p[..n] + View().Unread() == old(View()).Unread() && p[n..] == old(p[n..])
      ensures Told(old(View()).Pending(), p[..n], failure, View().Pending())
      ensures failure == Some(EOF) ==> View().Unread() == []
      ensures p.Length > 0 ==> View().Work() < old(View()).Work() || (n == 0 && failure == Some(EOF))
    {
      if stage.InPrefix? {
        n, failure := ReadPrefix(p);
        if n > 0 || failure != Some(EOF) {
          TakenFromLeft(old(View()), n);
          LeftTells(old(View()), n);
          return;
        }
        stage := OnConn;
      }
      n, failure := ReadConn(p);
    }

    // bytes.Reader.Read
    method ReadPrefix(p: array<byte>) returns (n: nat, failure: Option<Failure>)
      requires consumed <= |prefix| && stage.InPrefix?
      modifies this`consumed, p
      ensures consumed <= |prefix| && n <= p.Length && n <= |old(View()).left| && p[n..] == old(p[n..])
      ensures p[..n] == old(View()).left[..n] && View() == old(View()).(left := old(View()).left[n..])
      ensures failure == (if old(View()).left == [] then Some(EOF) else None)
      ensures n == 0 <==> p.Length == 0 || failure == Some(EOF)
    {
      if consumed >= |prefix| {
        return 0, Some(EOF);
      }
      n := if p.Length < |prefix| - consumed then p.Length else |prefix| - consumed;
      forall i | 0 <= i < n {
        p[i] := prefix[consumed + i];
      }
      consumed := consumed + n;
      failure := None;
    }

    // Past the prefix: the connection until it ends, then nothing.
    method ReadConn(p: array<byte>) returns (n: nat, failure: Option<Failure>)
      requires Valid() && !stage.InPrefix?
      modifies this`stage, conn`script, p
      ensures Valid() && n <= p.Length && p[n..] == old(p[n..])
      ensures p[..n] + View().Unread() == old(View()).Unread()
      ensures Told(old(View()).Pending(), p[..n], failure, View().Pending())
      ensures failure == Some(EOF) ==> View().Unread() == []
      ensures View().Work() <= old(View()).Work()
      ensures p.Length > 0 ==> View().Work() < old(View()).Work() || (n == 0 && failure == Some(EOF))
    {
      if stage.PastEnd? {
        return 0, Some(EOF);
      }
      ConnTells(View(), p.Length);
      n, failure := conn.Read(p, 0, p.Length);
      assert p[0..n] == p[..n];
      if |prefix| > 0 && failure == Some(EOF) {
        stage := PastEnd;
      }
    }
  }

  lemma TakenFromLeft(s: Replay, n: nat)
    requires s.stage.InPrefix? && n <= |s.left|
    ensures s.left[..n] + s.(left := s.left[n..]).Unread() == s.Unread()
  {
    assert s.left == s.left[..n] + s.left[n..];
    assert (s.left[..n] + s.left[n..]) + Flatten(s.script) == s.left[..n] + (s.left[n..] + Flatten(s.script));
  }

  lemma ConnTells(s: Replay, room: nat)
    requires s.Valid() && s.stage.OnConn?
    ensures var pull := Pull(s.script, room);
      var t := s.(script := pull.rest);
      && t.Valid() && (pull.err == Some(EOF) ==> pull.rest == [])
      && pull.bytes + t.Unread() == s.Unread()
      && Told(s.Pending(), pull.bytes, pull.err, t.Pending())
      && t.Work() <= s.Work()
      && (room > 0 ==> t.Work() < s.Work() || (pull.bytes == [] && pull.err == Some(EOF)))
  {
    PullTakesFromTheFront(s.script, room);
    PullTells(s.script, room);
  }

  lemma LeftTells(s: Replay, n: nat)
    requires s.stage.InPrefix? && n <= |s.left|
    ensures Told(s.Pending(), s.left[..n], None, s.(left := s.left[n..]).Pending())
  {
    assert AsItems(s.left) == AsItems(s.left[..n]) + AsItems(s.left[n..]);
    assert s.Pending() == AsItems(s.left[..n]) + Reported(None) + s.(left := s.left[n..]).Pending();
  }

  // prepareWebsiteConn without its table of TLS states. It cannot fail, and
  // the website will read what was left to read, all of it, in order. An
  // error the reader had in store is dropped with the reader.
  method PrepareWebsiteConn(bc: B.BufferedConn) returns (websiteConn: PrependConn, failure: Option<Failure>)
    requires bc.Valid()
    modifies bc, bc.buf, bc.conn`script
    ensures failure == None
    ensures fresh(websiteConn) && websiteConn.Valid() && websiteConn.conn == bc.conn
    ensures websiteConn.View().Unread() == old(bc.View()).Unread()
    ensures bc.Valid() && bc.View() == old(bc.View())
  {
    var prefix;
    prefix, failure := bc.BufferedBytes();
    websiteConn := new PrependConn(bc.conn, prefix);
  }

  // A website that reads to the end, with any buffer sizes, whatever the
  // errors in between, receives the whole stream.
  method ReadWebsite(wc: PrependConn, size: nat -> nat) returns (data: seq<byte>)
    requires wc.Valid() && forall k :: size(k) > 0
    modifies wc, wc.conn`script
    ensures data == old(wc.View()).Unread()
  {
    data := [];
    var k := 0;
    while true
      invariant wc.Valid() && data + wc.View().Unread() == old(wc.View()).Unread()
      decreases wc.View().Work()
    {
      var n, got, failure := ReadChunk(wc, size(k));
      B.Reassociate(data, got, wc.View().Unread());
      data := data + got;
      if failure == Some(EOF) && n == 0 {
        return;
      }
      k := k + 1;
    }
  }

  method ReadChunk(wc: PrependConn, size: nat) returns (n: nat, got: seq<byte>, failure: Option<Failure>)
    requires wc.Valid() && size > 0
    modifies wc, wc.conn`script
    ensures wc.Valid() && n == |got| <= size && got + wc.View().Unread() == old(wc.View()).Unread()
    ensures failure == Some(EOF) ==> wc.View().Unread() == []
    ensures wc.View().Work() < old(wc.View()).Work() || (n == 0 && failure == Some(EOF))
  {
    var p := new byte[size];
    n, failure := wc.Read(p);
    got := p[..n];
  }
}
