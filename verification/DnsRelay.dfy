/** The DNS-over-TCP relay (internal/gateway/dns.go, `HandleTCP`): messages framed by a two-byte length as
    in section 4.2.2 of RFC 1035, over streams that arrive in arbitrary pieces. */
module DnsRelay {
  import opened Text

  const MAX_MESSAGE: int := 4096

  // ---- Framing ----

  function Frame(message: seq<byte>): seq<byte>
    requires |message| < 65536
  {
    [|message| / 256, |message| % 256] + message
  }

  /** The first message of a stream, if it is complete and of an acceptable length. */
  function FirstFrame(stream: seq<byte>): (m: Option<seq<byte>>)
    ensures m.Some? ==> 1 <= |m.value| <= MAX_MESSAGE
  {
    if |stream| < 2 then None
    else
      var len := (stream[0] as int) * 256 + stream[1] as int;
      if len == 0 || len > MAX_MESSAGE || |stream| < 2 + len then None else Some(stream[2..2 + len])
  }

  /** Decoding undoes encoding, whatever follows on the stream. */
  lemma FirstFrameOfFrame(message: seq<byte>, rest: seq<byte>)
    requires 1 <= |message| <= MAX_MESSAGE
    ensures FirstFrame(Frame(message) + rest) == Some(message)
  {
  }

  /** A decoded message is on the stream in its encoded form, at the front. */
  lemma FrameOfFirstFrame(stream: seq<byte>)
    requires FirstFrame(stream).Some?
    ensures Frame(FirstFrame(stream).value) <= stream
  {
  }

  /** The frame byte by byte: the length, high byte first, then the message. */
  lemma FrameBytes(message: seq<byte>)
    requires |message| < 65536
    ensures var f := Frame(message);
            |f| == 2 + |message| && (f[0] as int) * 256 + f[1] as int == |message| && f[2..] == message
  {
  }

  /** Exactly when a stream starts with a message, and which: its first two bytes, high byte first, are a length from 1
      to 4096 and at least as many bytes follow. */
  lemma FirstFrameIff(stream: seq<byte>, m: seq<byte>)
    ensures FirstFrame(stream) == Some(m) <==>
              && |stream| >= 2
              && var n := (stream[0] as int) * 256 + stream[1] as int;
                 1 <= n <= 4096 && 2 + n <= |stream| && m == stream[2..2 + n]
  {
  }

  // ---- Connections ----

  /** A connection: the pieces still to arrive before the end or the deadline, what was written to it, how
      much more the peer takes before writes fail, and whether it was closed. */
  class Conn {
    var inbox: seq<seq<byte>>
    var outbox: seq<byte>
    var room: nat
    var closed: bool

    constructor (inbox: seq<seq<byte>>, room: nat)
      ensures this.inbox == inbox && outbox == [] && this.room == room && !closed
    {
      this.inbox, outbox, this.room, closed := inbox, [], room, false;
    }

    /** One `Read`: at most one piece, possibly empty; an error once nothing more will come. */
    method Read(buf: array<byte>, from: nat) returns (n: nat, ok: bool)
      requires from < buf.Length
      modifies this`inbox, buf
      ensures ok <==> old(inbox) != []
      ensures from + n <= buf.Length && (!ok ==> n == 0 && inbox == [])
      ensures buf[..from] == old(buf[..from])
      ensures Concat(old(inbox)) == buf[from..from + n] + Concat(inbox)
      ensures ok ==> |inbox| < |old(inbox)| || (|inbox| == |old(inbox)| && from + n == buf.Length)
    {
      if inbox == [] { return 0, false; }
      var piece := inbox[0];
      n := if |piece| < buf.Length - from then |piece| else buf.Length - from;
      forall i | 0 <= i < n { buf[from + i] := piece[i]; }
      assert buf[from..from + n] == piece[..n];
      assert inbox == [piece] + inbox[1..];
      ConcatCons(piece, inbox[1..]);
      if n == |piece| {
        assert piece[..n] == piece;
        inbox := inbox[1..];
      } else {
        ConcatCons(piece[n..], inbox[1..]);
        assert piece == piece[..n] + piece[n..];
        inbox := [piece[n..]] + inbox[1..];
      }
      ok := true;
    }

    /** `io.ReadFull`: the result depends only on the bytes, not on the pieces they come in. */
    method ReadFull(buf: array<byte>) returns (ok: bool)
      modifies this`inbox, buf
      ensures ok <==> |Concat(old(inbox))| >= buf.Length
      ensures ok ==> Concat(old(inbox)) == buf[..] + Concat(inbox)
    {
      hide Concat;
      var n: nat := 0;
      ghost var stream := Concat(inbox);
      assert stream == buf[..0] + Concat(inbox);
      while n < buf.Length
        invariant n <= buf.Length && stream == buf[..n] + Concat(inbox)
        decreases |inbox|, buf.Length - n
      {
        ghost var before, rest := buf[..n], Concat(inbox);
        var k, more := Read(buf, n);
        Regroup(before, buf[n..n + k], Concat(inbox));
        assert buf[..n + k] == before + buf[n..n + k];
        n := n + k;
        if !more {
          ConcatNone<byte>();
          return false;
        }
      }
      assert buf[..n] == buf[..];
      ok := true;
    }

    method Write(data: seq<byte>) returns (ok: bool)
      modifies this`outbox, this`room
      ensures outbox == old(outbox) + data[..if old(room) < |data| then old(room) else |data|]
      ensures ok <==> |data| <= old(room)
    {
      var n := if room < |data| then room else |data|;
      outbox, room := outbox + data[..n], room - n;
      ok := n == |data|;
    }

    method Close()
      modifies this`closed
      ensures closed
    {
      closed := true;
    }
  }

  lemma Regroup(a: seq<byte>, b: seq<byte>, c: seq<byte>)
    ensures a + (b + c) == (a + b) + c
  {
  }

  /** What a write of `data` puts on a connection that takes `room` more bytes. */
  function Taken(data: seq<byte>, room: nat): seq<byte> {
    data[..if room < |data| then room else |data|]
  }

  // ---- The relay ----

  /** Read the length prefix and the message behind it. */
  method ReadMessage(conn: Conn) returns (m: Option<seq<byte>>)
    modifies conn`inbox
    ensures m == FirstFrame(Concat(old(conn.inbox)))
  {
    ghost var stream := Concat(conn.inbox);
    var lenBuf := new byte[2];
    var ok := conn.ReadFull(lenBuf);
    if !ok { return None; }
    assert stream[0] == lenBuf[..][0] && stream[1] == lenBuf[..][1];
    var msgLen := (lenBuf[0] as int) * 256 + lenBuf[1] as int;
    if msgLen == 0 || msgLen > MAX_MESSAGE { return None; }
    ghost var rest := Concat(conn.inbox);
    assert stream[2..] == rest;
    var message := new byte[msgLen];
    ok := conn.ReadFull(message);
    if !ok { return None; }
    assert stream[2..2 + msgLen] == rest[..msgLen] == message[..];
    m := Some(message[..]);
  }

  /** The wire form, written into a fresh array. */
  method WriteMessage(conn: Conn, message: seq<byte>) returns (ok: bool)
    requires 1 <= |message| <= MAX_MESSAGE
    modifies conn`outbox, conn`room
    ensures conn.outbox == old(conn.outbox) + Taken(Frame(message), old(conn.room))
    ensures ok <==> |message| + 2 <= old(conn.room)
  {
    var wire := new byte[2 + |message|];
    wire[0], wire[1] := |message| / 256, |message| % 256;
    forall i | 0 <= i < |message| { wire[2 + i] := message[i]; }
    assert wire[..] == Frame(message);
    ok := conn.Write(wire[..]);
  }

  /** One query.  `up` is the upstream connection, or null when dialling fails.  The client's first message
      goes upstream, the upstream's first message goes back, each whole and unchanged or not at all as long
      as writes complete; the client connection is closed on every path. */
  method HandleTCP(conn: Conn, up: Conn?)
    requires conn != up
    modifies conn, up
    ensures conn.closed
    ensures var query := FirstFrame(Concat(old(conn.inbox)));
            if up == null || query.None? then
              && conn.outbox == old(conn.outbox)
              && (up != null ==> up.outbox == old(up.outbox) && up.closed == old(up.closed))
            else
              && up.closed
              && up.outbox == old(up.outbox) + Taken(Frame(query.value), old(up.room))
              && var reply := FirstFrame(Concat(old(up.inbox)));
                 conn.outbox == old(conn.outbox) +
                   if |Frame(query.value)| <= old(up.room) && reply.Some?
                   then Taken(Frame(reply.value), old(conn.room)) else []
  {
    var query := ReadMessage(conn);
    if query.None? {
      conn.Close();
      return;
    }
    if up == null {
      conn.Close();
      return;
    }
    var sent := WriteMessage(up, query.value);
    if sent {
      var reply := ReadMessage(up);
      if reply.Some? {
        var returned := WriteMessage(conn, reply.value);
      }
    }
    up.Close();
    conn.Close();
  }
}
