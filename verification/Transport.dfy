// The net.Conn under the wrapper, as far as reading goes: a script of what
// its reads will bring. Every way a peer and a network can cut a byte stream
// into reads, with timeouts in between, is such a script.
module Transport {
  import opened Wrappers

  newtype byte = x: int | 0 <= x < 256

  // Closed is the error of a connection closed on this side; a close by the
  // peer is EOF.
  datatype Failure = EOF | Closed | Timeout | NoProgress | BufferFull | DeadlineRefused

  // One read: some bytes, perhaps none, and perhaps an error with them.
  datatype Chunk = Chunk(bytes: seq<byte>, err: Option<Failure>)

  // All bytes the script still holds, in order.
  function Flatten(script: seq<Chunk>): seq<byte> {
    if script == [] then [] else script[0].bytes + Flatten(script[1..])
  }

  // Nothing follows the end of the stream.
  predicate EndsAtEof(script: seq<Chunk>) {
    forall i :: 0 <= i < |script| - 1 ==> script[i].err != Some(EOF)
  }

  datatype Pulled = Pulled(bytes: seq<byte>, err: Option<Failure>, rest: seq<Chunk>)

  // What a read into `room` bytes takes; a chunk that does not fit is split.
  function Pull(script: seq<Chunk>, room: nat): Pulled {
    if room == 0 then Pulled([], None, script)
    else if script == [] then Pulled([], Some(EOF), [])
    else if |script[0].bytes| <= room then Pulled(script[0].bytes, script[0].err, script[1..])
    else Pulled(script[0].bytes[..room], None, [Chunk(script[0].bytes[room..], script[0].err)] + script[1..])
  }

  lemma PullTakesFromTheFront(script: seq<Chunk>, room: nat)
    ensures var p := Pull(script, room);
      && |p.bytes| <= room
      && p.bytes + Flatten(p.rest) == Flatten(script)
      && (EndsAtEof(script) ==> EndsAtEof(p.rest) && (p.err == Some(EOF) ==> p.rest == []))
      && (room > 0 ==> p.bytes != [] || (p.err.Some? && script == []) || |p.rest| < |script|)
      && |p.rest| <= |script|
  {
    if room > 0 && script != [] && |script[0].bytes| > room {
      var c := Chunk(script[0].bytes[room..], script[0].err);
      assert ([c] + script[1..])[1..] == script[1..];
      assert script[0].bytes == script[0].bytes[..room] + script[0].bytes[room..];
    }
  }

  // The script as its reader is told of it: bytes and errors in their places.
  datatype Item = Data(b: byte) | Fault(f: Failure)

  function AsItems(bytes: seq<byte>): (items: seq<Item>)
    ensures |items| == |bytes|
  {
    seq(|bytes|, i requires 0 <= i < |bytes| => Data(bytes[i]))
  }

  function Reported(err: Option<Failure>): seq<Item> { if err.Some? then [Fault(err.value)] else [] }

  function Items(script: seq<Chunk>): seq<Item> {
    if script == [] then [] else AsItems(script[0].bytes) + Reported(script[0].err) + Items(script[1..])
  }

  // One read told its caller what came next and left the rest: every byte and
  // every error once, in order, under its own name; and EOF for ever after.
  ghost predicate Told(before: seq<Item>, got: seq<byte>, err: Option<Failure>, after: seq<Item>) {
    || before == AsItems(got) + Reported(err) + after
    || (before == [] == after && got == [] && err == Some(EOF))
  }

  lemma PullTells(script: seq<Chunk>, room: nat)
    ensures var p := Pull(script, room);
      Told(Items(script), p.bytes, p.err, Items(p.rest))
  {
    if room == 0 {
      assert Items(script) == AsItems([]) + Reported(None) + Items(script);
    } else if script != [] {
      PullKeepsItems(script, room);
    }
  }

  lemma PullKeepsItems(script: seq<Chunk>, room: nat)
    requires script != [] && room > 0
    ensures var p := Pull(script, room);
      Items(script) == AsItems(p.bytes) + Reported(p.err) + Items(p.rest)
  {
    assert [script[0]] + script[1..] == script;
    if |script[0].bytes| > room { SplitItems(script[0], script[1..], room); }
  }

  lemma SplitItems(first: Chunk, rest: seq<Chunk>, room: nat)
    requires room <= |first.bytes|
    ensures Items([first] + rest) ==
      AsItems(first.bytes[..room]) + Reported(None) + Items([Chunk(first.bytes[room..], first.err)] + rest)
  {
    var c := Chunk(first.bytes[room..], first.err);
    assert ([c] + rest)[1..] == rest && ([first] + rest)[1..] == rest;
    assert AsItems(first.bytes) == AsItems(first.bytes[..room]) + AsItems(c.bytes);
  }

  class Conn {
    var script: seq<Chunk>
    var readDeadline: bool
    const refusal: Option<Failure>   // what setting a deadline fails with, if it does

    constructor (script: seq<Chunk>, refusal: Option<Failure>)
      requires EndsAtEof(script)
      ensures this.script == script && !readDeadline && this.refusal == refusal
    {
      this.script, this.refusal, readDeadline := script, refusal, false;
    }

    method Read(p: array<byte>, lo: nat, hi: nat) returns (n: nat, err: Option<Failure>)
      requires lo <= hi <= p.Length
      modifies this`script, p
      ensures var pull := Pull(old(script), hi - lo);
        script == pull.rest && err == pull.err && n == |pull.bytes| <= hi - lo && p[lo..lo + n] == pull.bytes
      ensures p[..lo] == old(p[..lo]) && p[lo + n..] == old(p[lo + n..])
    {
      var pull := Pull(script, hi - lo);
      PullTakesFromTheFront(script, hi - lo);
      script, err, n := pull.rest, pull.err, |pull.bytes|;
      CopyIn(p, lo, pull.bytes);
    }

    method SetReadDeadline(on: bool) returns (failure: Option<Failure>)
      modifies this`readDeadline
      ensures failure == refusal && readDeadline == if failure == None then on else old(readDeadline)
    {
      failure := refusal;
      if failure == None {
        readDeadline := on;
      }
    }
  }
  method CopyIn(p: array<byte>, lo: nat, bytes: seq<byte>)
    requires lo + |bytes| <= p.Length
    modifies p
    ensures p[lo..lo + |bytes|] == bytes
    ensures p[..lo] == old(p[..lo]) && p[lo + |bytes|..] == old(p[lo + |bytes|..])
  {
    forall i | 0 <= i < |bytes| {
      p[lo + i] := bytes[i];
    }
  }
}
