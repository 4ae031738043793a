// buffered_conn.go: a connection behind a bufio.Reader, so that its first
// bytes can be looked at and still be read by whoever gets the connection.
module BufferedConn {
  import opened Wrappers
  import opened Transport

  const BUFFER_SIZE: nat := 4096
  const MAX_EMPTY_READS: nat := 100

  // The bytes that reads bring before the next error, and that error, when
  // `empties` reads in a row may bring nothing.
  function ReachScript(script: seq<Chunk>, empties: nat): (seq<byte>, Failure) {
    if empties == 0 then ([], NoProgress)
    else if script == [] then ([], EOF)
    else if script[0].err.Some? then (script[0].bytes, script[0].err.value)
    else if script[0].bytes == [] then ReachScript(script[1..], empties - 1)
    else Before(script[0].bytes, ReachScript(script[1..], MAX_EMPTY_READS))
  }

  function Before(bytes: seq<byte>, reach: (seq<byte>, Failure)): (seq<byte>, Failure) {
    (bytes + reach.0, reach.1)
  }

  lemma PullKeepsReach(script: seq<Chunk>, room: nat, empties: nat)
    requires room > 0 && empties > 0
    ensures var p := Pull(script, room);
      ReachScript(script, empties) ==
        if p.err.Some? then (p.bytes, p.err.value)
        else if p.bytes == [] then ReachScript(p.rest, empties - 1)
        else Before(p.bytes, ReachScript(p.rest, MAX_EMPTY_READS))
  {
    if script != [] && |script[0].bytes| > room {
      var p := Pull(script, room);
      var c := Chunk(script[0].bytes[room..], script[0].err);
      assert p.rest == [c] + script[1..] && p.rest[0] == c && p.rest[1..] == script[1..];
      assert script[0].bytes == p.bytes + c.bytes;
      if c.err == None {
        BeforeTwice(p.bytes, c.bytes, ReachScript(script[1..], MAX_EMPTY_READS));
      }
    }
  }

  lemma BeforeTwice(a: seq<byte>, b: seq<byte>, reach: (seq<byte>, Failure))
    ensures Before(a, Before(b, reach)) == Before(a + b, reach)
  {
    assert a + (b + reach.0) == (a + b) + reach.0;
  }

  // A hundred reads in a row that bring nothing end the patience, and no
  // fewer do.
  lemma {:induction false} Patience(empties: nat, rest: seq<Chunk>)
    ensures var script := seq(empties, _ => Chunk([], None)) + rest;
      if empties < 100
      then ReachScript(script, MAX_EMPTY_READS) == ReachScript(rest, 100 - empties)
      else ReachScript(script, MAX_EMPTY_READS) == ([], NoProgress)
  {
    PatienceLeft(empties, rest, 100);
  }

  lemma {:induction false} PatienceLeft(empties: nat, rest: seq<Chunk>, left: nat)
    ensures var script := seq(empties, _ => Chunk([], None)) + rest;
      ReachScript(script, left) == if empties < left then ReachScript(rest, left - empties) else ([], NoProgress)
  {
    var script := seq(empties, _ => Chunk([], None)) + rest;
    if empties > 0 && left > 0 {
      assert script[1..] == seq(empties - 1, _ => Chunk([], None)) + rest;
      PatienceLeft(empties - 1, rest, left - 1);
    } else if empties == 0 {
      assert script == rest;
    }
  }

  // A bufio.Reader over a connection, as a value: the bytes held in its
  // buffer, an error not yet reported, and what the connection will bring.
  datatype Reader = Reader(held: seq<byte>, err: Option<Failure>, script: seq<Chunk>) {
    // Everything the next owner is still to read.
    function Unread(): seq<byte> { held + Flatten(script) }

    // What its reader is still to be told.
    function Pending(): seq<Item> { AsItems(held) + Reported(err) + Items(script) }

    // The bytes that can be had before an error, and that error.
    function Reach(): (seq<byte>, Failure) {
      if err.Some? then (held, err.value) else Outlook(MAX_EMPTY_READS)
    }

    // The same if `empties` reads in a row may still bring nothing.
    function Outlook(empties: nat): (seq<byte>, Failure) { Before(held, ReachScript(script, empties)) }

    // After one more read of at most `room` bytes.
    function ReadOn(room: nat): Reader {
      var p := Pull(script, room);
      Reader(held + p.bytes, p.err, p.rest)
    }

    // What reading still has to do: bytes to deliver, reads to make, an error
    // to report.
    function Work(): nat {
      2 * (|Unread()| + |script|) + if err.Some? then 1 else 0
    }

    predicate Valid() {
      |held| <= BUFFER_SIZE && EndsAtEof(script) && (err == Some(EOF) ==> script == [])
    }
  }

  // Reading into the buffer moves the border between held and not yet read:
  // nothing is lost, and what can be reached stays the same.
  lemma ReadOnKeeps(s: Reader, room: nat, empties: nat)
    requires s.Valid() && s.err == None && 0 < room <= BUFFER_SIZE - |s.held| && empties > 0
    ensures var t := s.ReadOn(room);
      && t.Valid() && t.Unread() == s.Unread() && |s.held| <= |t.held|
      && (if t.err == None && |t.held| == |s.held|
          then t.held == s.held && t.Outlook(empties - 1) == s.Outlook(empties)
          else t.Reach() == s.Outlook(empties))
  {
    var p := Pull(s.script, room);
    PullTakesFromTheFront(s.script, room);
    PullKeepsReach(s.script, room, empties);
    assert (s.held + p.bytes) + Flatten(p.rest) == s.held + (p.bytes + Flatten(p.rest));
    if p.err == None && p.bytes != [] {
      BeforeTwice(s.held, p.bytes, ReachScript(p.rest, MAX_EMPTY_READS));
    }
  }

  lemma OutOfPatience(s: Reader)
    requires s.Valid() && s.err == None
    ensures s.(err := Some(NoProgress)).Reach() == s.Outlook(0)
  {
    assert s.held + [] == s.held;
  }

  class BufferedConn {
    const conn: Conn
    const buf: array<byte>
    var r: nat
    var w: nat
    var err: Option<Failure>

    constructor (conn: Conn)
      requires EndsAtEof(conn.script)
      ensures Valid() && this.conn == conn && fresh(buf) && buf.Length == 4096
      ensures View() == Reader([], None, conn.script)
    {
      this.conn := conn;
      buf := new byte[BUFFER_SIZE];
      r, w, err := 0, 0, None;
      new;
      assert buf[r..w] == [];
    }

    ghost predicate Indexed()
      reads this
    {
      r <= w <= buf.Length == BUFFER_SIZE
    }

    ghost function View(): Reader
      reads this, buf, conn
      requires Indexed()
    {
      Reader(buf[r..w], err, conn.script)
    }

    ghost predicate Valid()
      reads this, buf, conn
    {
      Indexed() && View().Valid()
    }

    // bufio.Reader.fill
    method Fill()
      requires Valid() && err == None && w - r < buf.Length
      modifies this, buf, conn`script
      ensures Valid() && View().Unread() == old(View().Unread()) && View().Reach() == old(View().Reach())
      ensures |View().held| >= old(|View().held|) + if err == None then 1 else 0
    {
      Slide();
      ghost var start := View();
      var i := MAX_EMPTY_READS;
      while i > 0
        invariant Valid() && err == None && r == 0 && w < buf.Length && View().held == start.held
        invariant View().Unread() == start.Unread() && View().Outlook(i) == start.Reach()
      {
        ReadOnKeeps(View(), buf.Length - w, i);
        var n := ReadMore();
        if err.Some? || n > 0 {
          return;
        }
        i := i - 1;
      }
      OutOfPatience(View());
      err := Some(NoProgress);
    }

    // One read of the connection into the free end of the buffer.
    method ReadMore() returns (n: nat)
      requires Indexed() && r == 0 && w < buf.Length
      modifies this`w, this`err, buf, conn`script
      ensures Indexed() && View() == old(View()).ReadOn(BUFFER_SIZE - old(w)) && n == w - old(w)
    {
      n, err := conn.Read(buf, w, buf.Length);
      assert buf[..w + n] == buf[..w] + buf[w..w + n];
      w := w + n;
    }

    method Slide()
      requires Indexed()
      modifies this`r, this`w, buf
      ensures Indexed() && r == 0 && View() == old(View())
    {
      if r > 0 {
        forall i | 0 <= i < w - r {
          buf[i] := buf[r + i];
        }
        w := w - r;
        r := 0;
      }
    }

    method ReadErr() returns (e: Option<Failure>)
      requires Indexed()
      modifies this`err
      ensures e == old(err) && View() == old(View()).(err := None)
    {
      e, err := err, None;
    }

    // What a look at the first n bytes gives, and what it must leave alone.
    // A look that cannot be had reports the error in the way, which is
    // thereby taken out of the way.
    ghost predicate Peeked(before: Reader, n: nat, preview: seq<byte>, failure: Option<Failure>)
      reads this, buf, conn
      requires Indexed()
    {
      var (reach, why) := before.Reach();
      && View().Unread() == before.Unread()
      && (n <= BUFFER_SIZE && n <= |reach| ==>
            preview == reach[..n] && failure == None && View().Reach() == before.Reach())
      && (|reach| < n <= BUFFER_SIZE ==> preview == reach && failure == Some(why))
      && (BUFFER_SIZE < n ==> failure == Some(BufferFull) && View().Reach() == before.Reach())
    }

    // bufio.Reader.Peek
    method ReaderPeek(n: nat) returns (preview: seq<byte>, failure: Option<Failure>)
      requires Valid()
      modifies this, buf, conn`script
      ensures Valid() && Peeked(old(View()), n, preview, failure)
      ensures n <= |old(View()).held| ==> preview == old(View()).held[..n] && View() == old(View())
    {
      while w - r < n && w - r < buf.Length && err == None
        invariant Valid() && View().Unread() == old(View()).Unread() && View().Reach() == old(View()).Reach()
        invariant n <= |old(View()).held| ==> View() == old(View())
        decreases buf.Length - (w - r), err == None
      {
        Fill();
      }
      if n > buf.Length {
        return buf[r..w], Some(BufferFull);
      }
      if w - r < n {
        preview := buf[r..w];
        failure := ReadErr();
        return;
      }
      Slices(buf[..], r, w, n);
      assert buf[r..r + n] == buf[..][r..r + n] && buf[r..w] == buf[..][r..w];
      return buf[r..r + n], None;
    }

    // bufferedConn.Peek: with a timeout, under a read deadline that is gone
    // again afterwards.
    method Peek(n: nat, timeout: bool) returns (preview: seq<byte>, failure: Option<Failure>)
      requires Valid()
      modifies this, buf, conn
      ensures Valid()
      ensures if timeout && conn.refusal.Some?
        then preview == [] && failure == conn.refusal && View() == old(View())
        else Peeked(old(View()), n, preview, failure)
      ensures conn.readDeadline == (old(conn.readDeadline) && !(timeout && conn.refusal == None))
    {
      if timeout {
        var refused := conn.SetReadDeadline(true);
        if refused.Some? {
          return [], refused;
        }
      }
      preview, failure := ReaderPeek(n);
      if timeout {
        var _ := conn.SetReadDeadline(false);
      }
    }

    // All of it is held already, so nothing is read and nothing fails.
    method BufferedBytes() returns (prefix: seq<byte>, failure: Option<Failure>)
      requires Valid()
      modifies this, buf, conn`script
      ensures Valid() && failure == None && prefix == old(View()).held && View() == old(View())
    {
      var buffered := w - r;
      if buffered == 0 {
        return [], None;
      }
      HeldIsReached(View());
      prefix, failure := ReaderPeek(buffered);
    }

    // bufio.Reader.Read, which bufferedConn.Read is.
    method Read(p: array<byte>) returns (n: nat, failure: Option<Failure>)
      requires Valid() && p != buf
      modifies this, buf, conn`script, p
      ensures Valid() && n <= p.Length
      ensures p[..n] + View().Unread() == old(View()).Unread() && p[n..] == old(p[n..])
      ensures Told(old(View()).Pending(), p[..n], failure, View().Pending())
      ensures p.Length == 0 ==> failure == if old(View()).held == [] then old(err) else None
      ensures failure == Some(EOF) ==> View().Unread() == []
      ensures p.Length > 0 ==> View().Work() < old(View()).Work() || (n == 0 && failure == Some(EOF))
    {
      if p.Length == 0 {
        if w - r > 0 {
          return 0, None;
        }
        failure := TakeError();
        return 0, failure;
      }
      if r == w {
        if err.Some? {
          failure := TakeError();
          return 0, failure;
        }
        if p.Length >= buf.Length {
          n, failure := ReadPast(p);
          return;
        }
        ReadOnKeeps(View(), buf.Length, MAX_EMPTY_READS);
        EachReadIsWork(View(), buf.Length);
        RefillTells(View(), buf.Length);
        n := Refill();
        if n == 0 {
          failure := TakeError();
          return 0, failure;
        }
      }
      n := CopyOut(p);
      return n, None;
    }

    // With nothing held, the stored error is what comes next.
    method TakeError() returns (e: Option<Failure>)
      requires Valid() && r == w
      modifies this`err
      ensures Valid() && e == old(err) && View() == old(View()).(err := None) && View().held == []
      ensures Told(old(View()).Pending(), [], e, View().Pending())
      ensures e == Some(EOF) ==> View().Unread() == []
      ensures View().Unread() == old(View()).Unread() && View().Work() == old(View()).Work() - if e.Some? then 1 else 0
    {
      ErrorTells(View());
      e := ReadErr();
    }

    // A large read with nothing buffered goes straight to the connection.
    method ReadPast(p: array<byte>) returns (n: nat, failure: Option<Failure>)
      requires Valid() && p != buf && r == w && err == None && p.Length > 0
      modifies this`err, conn`script, p
      ensures Valid() && n <= p.Length
      ensures p[..n] + View().Unread() == old(View()).Unread() && p[n..] == old(p[n..])
      ensures Told(old(View()).Pending(), p[..n], failure, View().Pending())
      ensures failure == Some(EOF) ==> View().Unread() == []
      ensures View().Work() < old(View()).Work() || (n == 0 && failure == Some(EOF))
    {
      PastTells(View(), p.Length);
      PastKeeps(View(), p.Length);
      ghost var pull := Pull(conn.script, p.Length);
      n, err := conn.Read(p, 0, p.Length);
      assert p[..n] == p[0..n] == pull.bytes;
      failure := ReadErr();
      assert View() == Reader([], None, pull.rest);
    }

    // One read into the emptied buffer.
    method Refill() returns (n: nat)
      requires Indexed() && r == w
      modifies this, buf, conn`script
      ensures Indexed() && n == w - r && View() == old(View()).ReadOn(BUFFER_SIZE)
    {
      r, w := 0, 0;
      n, err := conn.Read(buf, 0, buf.Length);
      w := n;
      assert old(View()).held == [];
    }

    method CopyOut(p: array<byte>) returns (n: nat)
      requires Indexed() && p != buf && p.Length > 0 && r < w
      modifies this`r, p
      ensures Indexed() && 0 < n <= p.Length && n <= |old(View()).held| && p[n..] == old(p[n..])
      ensures p[..n] == old(View()).held[..n] && View() == old(View()).(held := old(View()).held[n..])
      ensures p[..n] + View().Unread() == old(View()).Unread() && View().Work() == old(View()).Work() - 2 * n
      ensures Told(old(View()).Pending(), p[..n], None, View().Pending())
    {
      n := if p.Length < w - r then p.Length else w - r;
      forall i | 0 <= i < n {
        p[i] := buf[r + i];
      }
      TakenFromHeld(View(), n);
      HeldTells(View(), n);
      Slices(buf[..], r, w, n);
      assert buf[r..r + n] == buf[..][r..r + n] && buf[r + n..w] == buf[..][r + n..w] && buf[r..w] == buf[..][r..w];
      assert p[..n] == buf[r..r + n];
      r := r + n;
    }
  }

  lemma Slices(b: seq<byte>, lo: nat, hi: nat, n: nat)
    requires lo + n <= hi <= |b|
    ensures b[lo..lo + n] == b[lo..hi][..n] && b[lo + n..hi] == b[lo..hi][n..]
  {
  }

  lemma HeldIsReached(s: Reader)
    requires s.Valid()
    ensures |s.held| <= |s.Reach().0| && s.Reach().0[..|s.held|] == s.held
  {
  }

  lemma TakenFromHeld(s: Reader, n: nat)
    requires n <= |s.held|
    ensures s.held[..n] + s.(held := s.held[n..]).Unread() == s.Unread()
  {
    assert s.held == s.held[..n] + s.held[n..];
    Reassociate(s.held[..n], s.held[n..], Flatten(s.script));
  }

  lemma HeldTells(s: Reader, n: nat)
    requires n <= |s.held|
    ensures Told(s.Pending(), s.held[..n], None, s.(held := s.held[n..]).Pending())
  {
    var t := s.(held := s.held[n..]);
    assert AsItems(s.held) == AsItems(s.held[..n]) + AsItems(s.held[n..]);
    assert s.Pending() == AsItems(s.held[..n]) + Reported(None) + t.Pending();
  }

  lemma ErrorTells(s: Reader)
    requires s.held == []
    ensures s.Pending() == AsItems([]) + Reported(s.err) + s.(err := None).Pending()
  {
  }

  // A read past the empty buffer tells what the connection tells.
  lemma PastTells(s: Reader, room: nat)
    requires s.held == [] && s.err == None
    ensures var p := Pull(s.script, room);
      Told(s.Pending(), p.bytes, p.err, Reader([], None, p.rest).Pending())
  {
    PullTells(s.script, room);
    OnlyConnTells(s);
    OnlyConnTells(Reader([], None, Pull(s.script, room).rest));
  }

  lemma PastKeeps(s: Reader, room: nat)
    requires s.Valid() && s.held == [] && s.err == None && room > 0
    ensures var p := Pull(s.script, room);
      var t := Reader([], None, p.rest);
      && t.Valid() && (p.err == Some(EOF) ==> t.Unread() == [])
      && p.bytes + t.Unread() == s.Unread()
      && (t.Work() < s.Work() || (p.bytes == [] && p.err == Some(EOF)))
  {
    PullTakesFromTheFront(s.script, room);
  }

  // One read into the emptied buffer changes nothing of what is to be told,
  // but that the end of the script is noticed.
  lemma RefillTells(s: Reader, room: nat)
    requires s.held == [] && s.err == None && room > 0
    ensures var t := s.ReadOn(room);
      if s.script == [] then s.Pending() == [] && t == Reader([], Some(EOF), []) && t.(err := None).Pending() == []
      else t.Pending() == s.Pending()
  {
    if s.script != [] {
      PullKeepsItems(s.script, room);
      OnlyConnTells(s);
      HoldsAll(s, Pull(s.script, room));
    }
  }

  lemma OnlyConnTells(s: Reader)
    requires s.held == [] && s.err == None
    ensures s.Pending() == Items(s.script)
  {
  }

  lemma HoldsAll(s: Reader, p: Pulled)
    requires s.held == []
    ensures Reader(s.held + p.bytes, p.err, p.rest).Pending() == AsItems(p.bytes) + Reported(p.err) + Items(p.rest)
  {
    assert s.held + p.bytes == p.bytes;
  }

  lemma EachReadIsWork(s: Reader, room: nat)
    requires s.Valid() && s.err == None && s.held == [] && room > 0
    ensures var t := s.ReadOn(room);
      && (t.held == [] ==> t.(err := None).Work() < s.Work() || t.err == Some(EOF))
      && t.Work() <= s.Work() + 1
      && (t.held == [] && t.err == Some(EOF) ==> t.Unread() == [])
  {
    PullTakesFromTheFront(s.script, room);
  }

  lemma Reassociate(data: seq<byte>, got: seq<byte>, rest: seq<byte>)
    ensures data + (got + rest) == (data + got) + rest
  {
  }

  // Whoever reads the connection to its end, with any buffer sizes, whatever
  // the errors in between, receives everything that was unread.
  method ReadToEnd(bc: BufferedConn, size: nat -> nat) returns (data: seq<byte>)
    requires bc.Valid() && forall k :: size(k) > 0
    modifies bc, bc.buf, bc.conn`script
    ensures data == old(bc.View()).Unread()
  {
    data := [];
    var k := 0;
    while true
      invariant bc.Valid() && data + bc.View().Unread() == old(bc.View()).Unread()
      decreases bc.View().Work()
    {
      var n, got, failure := ReadChunk(bc, size(k));
      Reassociate(data, got, bc.View().Unread());
      data := data + got;
      if failure == Some(EOF) && n == 0 {
        return;
      }
      k := k + 1;
    }
  }

  method ReadChunk(bc: BufferedConn, size: nat) returns (n: nat, got: seq<byte>, failure: Option<Failure>)
    requires bc.Valid() && size > 0
    modifies bc, bc.buf, bc.conn`script
    ensures bc.Valid() && n == |got| <= size && got + bc.View().Unread() == old(bc.View()).Unread()
    ensures failure == Some(EOF) ==> bc.View().Unread() == []
    ensures bc.View().Work() < old(bc.View()).Work() || (n == 0 && failure == Some(EOF))
  {
    var p := new byte[size];
    n, failure := bc.Read(p);
    got := p[..n];
  }
}
