/** A connected socket: a queue of what the network will deliver and a log of what was sent.
    In datagram mode a piece is a packet and a short read drops its tail. In stream mode a piece is what
    one recv call may return at most, so the choice of pieces is the choice of how reads are chunked. */
module Sockets {
  import opened Arithmetic
  import opened Bytes
  import opened Sequences

  const BUFFMAX: nat := 4096

  predicate NonEmptyPieces(inbox: seq<seq<byte>>) {
    forall i :: 0 <= i < |inbox| ==> inbox[i] != []
  }

  /** What recv(len) returns. */
  function Taken(inbox: seq<seq<byte>>, len: nat): (r: seq<byte>)
    requires inbox != []
    ensures |r| <= len
  {
    if |inbox[0]| <= len then inbox[0] else inbox[0][..len]
  }

  function Left(datagram: bool, inbox: seq<seq<byte>>, len: nat): seq<seq<byte>>
    requires inbox != []
  {
    if datagram || |inbox[0]| <= len then inbox[1..] else [inbox[0][len..]] + inbox[1..]
  }

  /** A stream read takes a non-empty front part of the byte stream. */
  lemma StreamTaken(inbox: seq<seq<byte>>, len: nat)
    requires NonEmptyPieces(inbox) && inbox != [] && len > 0
    ensures NonEmptyPieces(Left(false, inbox, len)) && Taken(inbox, len) != []
    ensures Flatten(inbox) == Taken(inbox, len) + Flatten(Left(false, inbox, len))
  {
    if |inbox[0]| > len {
      assert inbox[0] == inbox[0][..len] + inbox[0][len..];
      assert Left(false, inbox, len)[1..] == inbox[1..];
    }
  }

  lemma FlattenNonEmpty(inbox: seq<seq<byte>>)
    requires Flatten(inbox) != []
    ensures inbox != []
  {
  }

  lemma FlattenOfPieces(inbox: seq<seq<byte>>)
    requires NonEmptyPieces(inbox)
    ensures Flatten(inbox) == [] <==> inbox == []
  {
  }

  /** s with the bytes d written at offset off. */
  function Written(s: seq<byte>, off: nat, d: seq<byte>): (r: seq<byte>)
    requires off + |d| <= |s|
    ensures |r| == |s|
  {
    s[..off] + d + s[off + |d|..]
  }

  method CopyIn(buf: array<byte>, off: nat, d: seq<byte>)
    requires off + |d| <= buf.Length
    modifies buf
    ensures buf[..] == Written(old(buf[..]), off, d)
  {
    forall i | 0 <= i < |d| {
      buf[off + i] := d[i];
    }
  }

  class Socket {
    const datagram: bool
    var inbox: seq<seq<byte>>
    var outbox: seq<seq<byte>>

    constructor (datagram: bool, inbox: seq<seq<byte>>)
      ensures this.datagram == datagram && this.inbox == inbox && outbox == []
    {
      this.datagram, this.inbox, outbox := datagram, inbox, [];
    }

    /** The network delivers more. */
    method Arrive(more: seq<seq<byte>>)
      modifies `inbox
      ensures inbox == old(inbox) + more
    {
      inbox := inbox + more;
    }

    /** recv(buf + off, len); it would wait on an empty queue. */
    method Recv(buf: array<byte>, off: nat, len: nat) returns (n: nat)
      requires inbox != [] && off + len <= buf.Length
      modifies buf, `inbox
      ensures n == |Taken(old(inbox), len)|
      ensures buf[..] == Written(old(buf[..]), off, Taken(old(inbox), len))
      ensures inbox == Left(datagram, old(inbox), len)
    {
      var d := Taken(inbox, len);
      inbox := Left(datagram, inbox, len);
      CopyIn(buf, off, d);
      n := |d|;
    }

    /** A send that the network accepts whole. */
    method SendWhole(d: seq<byte>)
      modifies `outbox
      ensures outbox == old(outbox) + [d]
    {
      outbox := outbox + [d];
    }

    /** send(buf + off, len): a packet goes out whole, a stream may accept only a front part. */
    method Send(buf: array<byte>, off: nat, len: nat) returns (n: nat)
      requires off + len <= buf.Length && len > 0
      modifies `outbox
      ensures 0 < n <= len && (datagram ==> n == len)
      ensures outbox == old(outbox) + [buf[off..off + n]]
    {
      n := len;
      if !datagram {
        n :| 0 < n <= len;
      }
      outbox := outbox + [buf[off..off + n]];
    }
  }

  /** What a whole-buffer send becomes in datagram mode: one packet per BUFFMAX bytes. */
  function Packets(s: seq<byte>): (r: seq<seq<byte>>)
    decreases |s|
  {
    if s == [] then []
    else if |s| <= BUFFMAX then [s]
    else [s[..BUFFMAX]] + Packets(s[BUFFMAX..])
  }

  /** What the sends of several buffers become. */
  function AllPackets(sent: seq<seq<byte>>): seq<seq<byte>> {
    if sent == [] then [] else AllPackets(sent[..|sent| - 1]) + Packets(sent[|sent| - 1])
  }

  /** How many packets a whole-buffer send becomes in datagram mode. */
  function PacketCount(bytes: nat): nat {
    (bytes + BUFFMAX - 1) / BUFFMAX
  }

  lemma {:induction false} PacketsCounted(s: seq<byte>)
    ensures |Packets(s)| == PacketCount(|s|)
    decreases |s|
  {
    if |s| > BUFFMAX {
      PacketsCounted(s[BUFFMAX..]);
    }
  }

  lemma {:induction false} PacketsJoin(s: seq<byte>)
    ensures Flatten(Packets(s)) == s && NonEmptyPieces(Packets(s))
    decreases |s|
  {
    if |s| > BUFFMAX {
      PacketsJoin(s[BUFFMAX..]);
      assert Packets(s)[1..] == Packets(s[BUFFMAX..]);
      assert s == s[..BUFFMAX] + s[BUFFMAX..];
    } else if s != [] {
      assert Flatten([s]) == s + Flatten<byte>([]);
    }
  }

  /** A datagram stays in one packet exactly when one socket call may carry it. */
  lemma PacketIntact(s: seq<byte>)
    requires s != []
    ensures Packets(s) == [s] <==> |s| <= BUFFMAX
  {
    if |s| > BUFFMAX {
      assert Packets(s)[0] == s[..BUFFMAX] != s;
    }
  }

  /** The send loop over buf[..len]. */
  method SendAll(sock: Socket, buf: array<byte>, len: nat) returns (ghost pieces: seq<seq<byte>>)
    requires len <= buf.Length
    modifies sock`outbox
    ensures sock.outbox == old(sock.outbox) + pieces
    ensures Flatten(pieces) == buf[..len] && NonEmptyPieces(pieces)
    ensures sock.datagram ==> pieces == Packets(buf[..len])
  {
    var sent := 0;
    pieces := [];
    assert buf[0..len] == buf[..len];
    while sent < len
      invariant 0 <= sent <= len
      invariant sock.outbox == old(sock.outbox) + pieces
      invariant Flatten(pieces) == buf[..sent] && NonEmptyPieces(pieces)
      invariant sock.datagram ==> Packets(buf[..len]) == pieces + Packets(buf[sent..len])
    {
      var n := sock.Send(buf, sent, Min(BUFFMAX, len - sent));
      FlattenOne(pieces, buf[sent..sent + n]);
      PacketsStep(buf[sent..len], pieces);
      if sock.datagram {
        assert buf[sent..len][..n] == buf[sent..sent + n] && buf[sent..len][n..] == buf[sent + n..len];
      }
      pieces := pieces + [buf[sent..sent + n]];
      sent := sent + n;
    }
  }

  lemma PacketsStep(s: seq<byte>, pieces: seq<seq<byte>>)
    requires s != []
    ensures var n := Min(BUFFMAX, |s|); pieces + Packets(s) == (pieces + [s[..n]]) + Packets(s[n..])
  {
    UnfoldPackets(s);
    UnfoldPackets([]);
    hide Packets;
    if |s| <= BUFFMAX {
      assert s[..|s|] == s && s[|s|..] == [];
      assert (pieces + [s]) + [] == pieces + [s];
    } else {
      Assoc(pieces, [s[..BUFFMAX]], Packets(s[BUFFMAX..]));
    }
  }

  lemma UnfoldPackets(s: seq<byte>)
    ensures s == [] ==> Packets(s) == []
    ensures 0 < |s| <= BUFFMAX ==> Packets(s) == [s]
    ensures |s| > BUFFMAX ==> Packets(s) == [s[..BUFFMAX]] + Packets(s[BUFFMAX..])
  {
  }

  lemma WrittenTwice(s: seq<byte>, off: nat, d: seq<byte>, e: seq<byte>)
    requires off + |d| + |e| <= |s|
    ensures Written(Written(s, off, d), off + |d|, e) == Written(s, off, d + e)
  {
  }

  /** A receive loop over a stream: fills buf[off..end] by calls of at most cap bytes. */
  method RecvUpTo(sock: Socket, buf: array<byte>, off: nat, end: nat, cap: nat)
    requires off <= end <= buf.Length && cap > 0
    requires !sock.datagram && NonEmptyPieces(sock.inbox) && end - off <= |Flatten(sock.inbox)|
    modifies buf, sock`inbox
    ensures NonEmptyPieces(sock.inbox)
    ensures Flatten(old(sock.inbox)) == buf[off..end] + Flatten(sock.inbox)
    ensures buf[..] == Written(old(buf[..]), off, buf[off..end])
  {
    hide Flatten, Taken, Left, NonEmptyPieces;
    var got := off;
    while got < end
      invariant off <= got <= end
      invariant NonEmptyPieces(sock.inbox)
      invariant Flatten(old(sock.inbox)) == buf[off..got] + Flatten(sock.inbox)
      invariant buf[..] == Written(old(buf[..]), off, buf[off..got])
    {
      ghost var before, inbox := buf[..], sock.inbox;
      var len := Min(cap, end - got);
      FlattenNonEmpty(inbox);
      StreamTaken(inbox, len);
      var n := sock.Recv(buf, got, len);
      WrittenTwice(old(buf[..]), off, before[off..got], Taken(inbox, len));
      assert buf[off..got + n] == before[off..got] + Taken(inbox, len);
      got := got + n;
    }
  }
}
